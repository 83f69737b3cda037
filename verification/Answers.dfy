/** What the device answers, and what it waits for afterwards: laws over whole runs about
    every single reply, stated on the log. */
module Answers {
  import opened Bytes
  import opened Transactions
  import opened Parsing
  import opened Session
  import opened SessionLaws
  import opened Paths

  // ---- what the screen is waiting for ----

  /** What a reply announces. */
  function Announced(r: Reply): Pending {
    match r
    case ReviewStarted(open) => TxReview(open)
    case AddressShown => AddressReview
    case _ => Nothing
  }

  predicate IsAnswer(e: Event) {
    e.Approve? || e.Reject? || e.AnswerAddress?
  }

  lemma StepAnnounces(env: Env, s: DeviceState, e: Event)
    requires ValidDevice(s) && Enabled(s, e)
    ensures var (t, r) := Respond(env, s, e);
            t.pending == Announced(r) && (IsAnswer(e) ==> t.pending == Nothing)
  {
    hide Deserialize, PathAfter, Bip44;
  }

  /** In every run the screen waits for exactly what the last reply announced: a review as long
      as nothing came after the reply that started it. After an answer, whatever it was and
      however it was replied to, it waits for nothing. */
  lemma PendingExactly(env: Env, scriptsAllowed: bool, log: seq<Entry>)
    requires Exec(env, scriptsAllowed, log).Some?
    ensures var pending := Exec(env, scriptsAllowed, log).value.pending;
            && pending == (if log == [] then Nothing else Announced(log[|log| - 1].r))
            && (log != [] && IsAnswer(log[|log| - 1].e) ==> pending == Nothing)
  {
    hide Respond, Enabled, ValidDevice, Announced;
    if log != [] {
      var (rest, last) := (log[..|log| - 1], log[|log| - 1]);
      StepAnnounces(env, Exec(env, scriptsAllowed, rest).value, last.e);
    }
  }

  lemma AnswerNeeds(s: DeviceState, e: Event)
    requires Enabled(s, e)
    ensures e.Approve? ==> s.pending == TxReview(true)
    ensures e.Reject? ==> s.pending.TxReview?
    ensures e.AnswerAddress? ==> s.pending == AddressReview
    ensures !IsAnswer(e) ==> s.pending == Nothing
  {
  }

  lemma AnnouncedBy(r: Reply)
    ensures Announced(r) == Nothing <==> !r.ReviewStarted? && r != AddressShown
    ensures Announced(r) == AddressReview <==> r == AddressShown
    ensures Announced(r).TxReview? <==> r.ReviewStarted?
    ensures Announced(r) == TxReview(true) <==> r == ReviewStarted(true)
  {
  }

  /** An answer comes directly after the reply that asks for it: an approval after the start of
      a review that offers it, a rejection after the start of a review, an answer about an
      address after the address was shown. Nothing else comes there. */
  lemma AnswersFollow(env: Env, scriptsAllowed: bool, rest: seq<Entry>, last: Entry)
    requires Exec(env, scriptsAllowed, rest + [last]).Some?
    ensures last.e.Approve? ==> rest != [] && rest[|rest| - 1].r == ReviewStarted(true)
    ensures last.e.Reject? ==> rest != [] && rest[|rest| - 1].r.ReviewStarted?
    ensures last.e.AnswerAddress? <==> rest != [] && rest[|rest| - 1].r == AddressShown
    ensures last.e.Approve? || last.e.Reject? <==> rest != [] && rest[|rest| - 1].r.ReviewStarted?
  {
    hide Respond, Enabled, ValidDevice, Announced;
    Snoc(rest, last);
    PendingExactly(env, scriptsAllowed, rest);
    AnswerNeeds(Exec(env, scriptsAllowed, rest).value, last.e);
    if rest != [] {
      AnnouncedBy(rest[|rest| - 1].r);
    }
  }

  /** How an answer about a transaction is replied to, and the progress afterwards. */
  lemma AnswerReplies(env: Env, s: DeviceState, e: Event)
    requires ValidDevice(s) && Enabled(s, e) && (e.Approve? || e.Reject?)
    ensures var (t, r) := Respond(env, s, e);
            && (r.SignatureReply? <==> e == Approve(Signs))
            && (r == SignFail <==> e.Approve? && e.outcome != Signs)
            && (r == ConditionsNotSatisfied <==> e.Reject?)
            && t.ctx.state == if e == Approve(Signs) then ApprovedState else StateNone
  {
    hide Deserialize, PathAfter, Bip44, Overwrite, ToLE;
  }

  /** A signature is released only directly after the start of a review that offers approval;
      so between a rejection, or any other answer, and a signature a new review has started. */
  lemma SignatureFollowsReview(env: Env, scriptsAllowed: bool, rest: seq<Entry>, last: Entry)
    requires Exec(env, scriptsAllowed, rest + [last]).Some?
    ensures last.r.SignatureReply? <==> last.e == Approve(Signs)
    ensures last.r.SignatureReply? ==> rest != [] && rest[|rest| - 1].r == ReviewStarted(true)
                                       && IsTxChunk(rest[|rest| - 1].e) && rest[|rest| - 1].e.apdu.p2 == P2_LAST
    ensures last.e == Reject ==> last.r == ConditionsNotSatisfied
                                 && Exec(env, scriptsAllowed, rest + [last]).value.ctx.state == StateNone
  {
    hide Respond, Enabled, ValidDevice, IsTxChunk;
    Snoc(rest, last);
    var s := Exec(env, scriptsAllowed, rest).value;
    if last.r.SignatureReply? { SignatureFrom(env, s, last.e); }
    AnswersFollow(env, scriptsAllowed, rest, last);
    if last.e.Approve? || last.e.Reject? { AnswerReplies(env, s, last.e); }
    if rest != [] && rest[|rest| - 1].r.ReviewStarted? {
      var before := rest[..|rest| - 1];
      ReviewFrom(env, Exec(env, scriptsAllowed, before).value, rest[|rest| - 1].e);
    }
  }

  lemma ReviewFrom(env: Env, s: DeviceState, e: Event)
    requires ValidDevice(s) && Enabled(s, e) && Respond(env, s, e).1.ReviewStarted?
    ensures IsTxChunk(e) && e.apdu.p2 == P2_LAST
  {
    hide Deserialize, PathAfter, Bip44;
  }

  // ---- the progress ----

  /** The progress that the log tells. */
  function Stage(log: seq<Entry>): Progress {
    if log == [] then StateNone
    else
      var (rest, last) := (log[..|log| - 1], log[|log| - 1]);
      if Opens(last.e) then if last.r == Success then Bip44Ok else StateNone
      else if IsMagic(last.e) && last.r == Success then MagicOk
      else if last.r.ReviewStarted? then Parsed
      else if last.r.SignatureReply? then ApprovedState
      else if Drops(last.e) || last.r == SignFail || last.e.Reject? then StateNone
      else Stage(rest)
  }

  lemma StepStages(env: Env, s: DeviceState, e: Event)
    requires ValidDevice(s) && Enabled(s, e)
    ensures var (t, r) := Respond(env, s, e);
            t.ctx.state == if Opens(e) then (if r == Success then Bip44Ok else StateNone)
                           else if IsMagic(e) && r == Success then MagicOk
                           else if r.ReviewStarted? then Parsed
                           else if r.SignatureReply? then ApprovedState
                           else if Drops(e) || r == SignFail || e.Reject? then StateNone
                           else s.ctx.state
  {
    hide Deserialize, PathAfter, Bip44, Overwrite, ToLE, FromLE;
  }

  /** In every run the progress in the context is the one that the log tells. */
  lemma {:induction false} StageKept(env: Env, scriptsAllowed: bool, log: seq<Entry>)
    requires Exec(env, scriptsAllowed, log).Some?
    ensures Exec(env, scriptsAllowed, log).value.ctx.state == Stage(log)
  {
    hide Respond, Enabled, ValidDevice, Opens, IsMagic, Drops;
    if log != [] {
      var (rest, last) := (log[..|log| - 1], log[|log| - 1]);
      StageKept(env, scriptsAllowed, rest);
      StepStages(env, Exec(env, scriptsAllowed, rest).value, last.e);
    }
  }

  // ---- the dispatcher ----

  /** P1 and P2 as the commands are documented. */
  predicate ParametersFit(a: Apdu) {
    if a.ins == SIGN_TX then a.p1 <= P1_MAX && a.p2 in {P2_LAST, P2_MORE} && (a.p1 == P1_START ==> a.p2 == P2_MORE)
    else a.p1 == 0 && (a.p2 == 0 || (a.ins == GET_PUBLIC_KEY && a.p2 == 1))
  }

  /** What the dispatcher refuses, and why. A command that does not get past it changes
      nothing. */
  lemma CommandRefused(env: Env, s: DeviceState, a: Apdu)
    requires ValidDevice(s) && Enabled(s, Command(a))
    ensures var (t, r) := Respond(env, s, Command(a));
            var known := a.cla == CLA && a.ins in {GET_APP_NAME, GET_VERSION, SIGN_TX, GET_PUBLIC_KEY};
            && (r == InvalidCla <==> a.cla != CLA)
            && (r == InvalidIns <==> a.cla == CLA && !known)
            && (r == IncorrectP1P2 <==> known && !ParametersFit(a))
            && (r == Description <==> known && ParametersFit(a) && a.ins in {GET_APP_NAME, GET_VERSION})
            && (r == WrongDataLength <==>
                known && ParametersFit(a) && a.ins in {SIGN_TX, GET_PUBLIC_KEY} && a.data == [])
            && (!IsSignTx(Command(a)) && !Drops(Command(a)) ==> t == s)
  {
    hide Deserialize, PathAfter, Bip44, Overwrite, FromLE, ZeroInfo;
  }

  // ---- the chunks ----

  /** Every chunk 0 succeeds if and only if it asks for an account path, whatever came before;
      otherwise the reply says which level is wrong. */
  lemma OpeningReplies(env: Env, s: DeviceState, e: Event)
    requires ValidDevice(s) && Enabled(s, e) && Opens(e)
    ensures Respond(env, s, e).1
            == if AsksAccount(e.apdu.data) then Success else PathError(Bip44(e.apdu.data))
  {
    hide PathAfter, Bip44, AsksAccount, ZeroInfo;
    PathVerdict(e.apdu.data);
  }

  /** The buffer has the length of what was taken since chunk 0, after approvals too. */
  ghost predicate Measured(s: DeviceState, log: seq<Entry>) {
    Opened(log) ==> s.ctx.union.Info? && s.ctx.union.info.rawTxLen == |Payload(log)|
  }

  /** What a step does to the length of what is in the buffer. */
  lemma StepLengthens(env: Env, s: DeviceState, e: Event)
    requires ValidDevice(s) && Enabled(s, e) && s.ctx.req == ConfirmTransaction && !Opens(e) && !Drops(e)
    ensures var (t, r) := Respond(env, s, e);
            var taken := IsTxChunk(e) && (r == Success || r.ParsingFail? || r.ReviewStarted?);
            && s.ctx.union.Info? && t.ctx.union.Info?
            && t.ctx.union.info.rawTxLen == s.ctx.union.info.rawTxLen + if taken then |e.apdu.data| else 0
  {
    hide Deserialize, PathAfter, Bip44, ZeroTx, ToLE, FromLE, Overwrite;
  }

  lemma OpeningEmpties(env: Env, s: DeviceState, e: Event)
    requires ValidDevice(s) && Enabled(s, e) && Opens(e)
    ensures var t := Respond(env, s, e).0; t.ctx.union.Info? && t.ctx.union.info.rawTxLen == 0
  {
    hide PathAfter, Bip44, ZeroTx;
  }

  lemma StepMeasures(env: Env, s: DeviceState, rest: seq<Entry>, last: Entry)
    requires ValidDevice(s) && Enabled(s, last.e) && Measured(s, rest) && Respond(env, s, last.e).1 == last.r
    requires Opened(rest) <==> s.ctx.req == ConfirmTransaction
    ensures Measured(Respond(env, s, last.e).0, rest + [last])
  {
    hide Respond, Enabled, ValidDevice, Opens, Drops, IsTxChunk;
    Snoc(rest, last);
    if Opens(last.e) {
      OpeningEmpties(env, s, last.e);
    } else if Opened(rest) && !Drops(last.e) {
      StepLengthens(env, s, last.e);
    }
  }

  lemma {:induction false} LengthKept(env: Env, scriptsAllowed: bool, log: seq<Entry>)
    requires Exec(env, scriptsAllowed, log).Some?
    ensures Measured(Exec(env, scriptsAllowed, log).value, log)
  {
    hide Respond, Enabled, ValidDevice, Measured, Opened;
    if log == [] {
      NothingMeasured(PowerOn(scriptsAllowed));
    } else {
      var (rest, last) := (log[..|log| - 1], log[|log| - 1]);
      LengthKept(env, scriptsAllowed, rest);
      UnionDiscipline(env, scriptsAllowed, rest);
      StepMeasures(env, Exec(env, scriptsAllowed, rest).value, rest, last);
      assert rest + [last] == log;
    }
  }

  lemma NothingMeasured(s: DeviceState)
    ensures Measured(s, [])
  {
  }

  /** How the other chunks of an open session are replied to in every run: the magic with success
      if and only if it is complete; a transaction chunk as too long if and only if what was
      taken before and the chunk exceed the buffer, and otherwise with success, or, if it is the
      last, with a review or a parsing error. */
  lemma ChunkReplies(env: Env, scriptsAllowed: bool, rest: seq<Entry>, last: Entry)
    requires Exec(env, scriptsAllowed, rest + [last]).Some? && Opened(rest)
    requires IsMagic(last.e) || IsTxChunk(last.e)
    ensures IsMagic(last.e) ==> last.r == if |last.e.apdu.data| >= 4 then Success else MagicParsingFail
    ensures IsTxChunk(last.e) ==>
              var fits := |Payload(rest)| + |last.e.apdu.data| <= MAX_TRANSACTION_LEN;
              && (last.r == WrongTxLength <==> !fits)
              && (last.r == Success <==> fits && last.e.apdu.p2 == P2_MORE)
              && (last.r.ReviewStarted? || last.r.ParsingFail? <==> fits && last.e.apdu.p2 == P2_LAST)
  {
    hide Respond, Enabled, ValidDevice, Opened, IsMagic, IsTxChunk, Payload;
    Snoc(rest, last);
    var s := Exec(env, scriptsAllowed, rest).value;
    UnionDiscipline(env, scriptsAllowed, rest);
    LengthKept(env, scriptsAllowed, rest);
    ChunkReply(env, s, last.e);
  }

  lemma ChunkReply(env: Env, s: DeviceState, e: Event)
    requires ValidDevice(s) && Enabled(s, e) && (IsMagic(e) || IsTxChunk(e))
    ensures var r := Respond(env, s, e).1;
            && (r == BadState <==> s.ctx.req != ConfirmTransaction)
            && (r != BadState && IsMagic(e) ==> r == if |e.apdu.data| >= 4 then Success else MagicParsingFail)
            && (r != BadState && IsTxChunk(e) ==>
                  s.ctx.union.Info? &&
                  var fits := s.ctx.union.info.rawTxLen + |e.apdu.data| <= MAX_TRANSACTION_LEN;
                  (r == WrongTxLength <==> !fits) && (r == Success <==> fits && e.apdu.p2 == P2_MORE)
                  && (r.ReviewStarted? || r.ParsingFail? <==> fits && e.apdu.p2 == P2_LAST))
  {
    hide Deserialize, PathAfter, Bip44, FromLE, Overwrite;
  }

  // ---- the path that signs ----

  /** Whether the chunk 0 that opened the session was answered with success. */
  predicate OpenedWell(log: seq<Entry>) {
    log != [] &&
    var (rest, last) := (log[..|log| - 1], log[|log| - 1]);
    if Opens(last.e) then last.r == Success else !Drops(last.e) && OpenedWell(rest)
  }

  /** What was sent with the last chunk 0, or the last request for a key. */
  function PathRequest(log: seq<Entry>): bytes {
    if log == [] then []
    else
      var (rest, last) := (log[..|log| - 1], log[|log| - 1]);
      if Opens(last.e) || Drops(last.e) then last.e.apdu.data else PathRequest(rest)
  }

  /** A session is opened with success if and only if an account path was asked for, and then
      that path signs. In every open session the path that signs is the one that was asked for,
      and an account path, only if it was opened so. */
  lemma {:induction false} PathRequested(env: Env, scriptsAllowed: bool, log: seq<Entry>)
    requires Exec(env, scriptsAllowed, log).Some? && Opened(log)
    ensures OpenedWell(log) <==> AsksAccount(PathRequest(log))
    ensures OpenedWell(log) <==>
            var data := PathRequest(log);
            |data| >= BIP44_BYTE_LENGTH && Path(log) == Requested(data) && AccountPath(Path(log))
  {
    hide Respond, Enabled, ValidDevice, PathAfter, AccountPath, Requested, Bip44;
    var (rest, last) := (log[..|log| - 1], log[|log| - 1]);
    if Opens(last.e) {
      OpeningReplies(env, Exec(env, scriptsAllowed, rest).value, last.e);
      PathStored(last.e.apdu.data);
    } else {
      PathRequested(env, scriptsAllowed, rest);
    }
  }

  /** In a session opened as documented the path that signs is an account path. */
  lemma PathChecked(env: Env, scriptsAllowed: bool, log: seq<Entry>)
    requires Exec(env, scriptsAllowed, log).Some? && OpenedWell(log)
    ensures AccountPath(Path(log))
  {
    hide Exec, Path, AccountPath, Requested;
    WellIsOpen(log);
    PathRequested(env, scriptsAllowed, log);
  }

  lemma {:induction false} WellIsOpen(log: seq<Entry>)
    requires OpenedWell(log)
    ensures Opened(log)
  {
    var (rest, last) := (log[..|log| - 1], log[|log| - 1]);
    if !Opens(last.e) { WellIsOpen(rest); }
  }

  // ---- keys ----

  /** What a request for a key does. */
  lemma KeyRequested(env: Env, s: DeviceState, e: Event)
    requires ValidDevice(s) && Enabled(s, e) && Drops(e)
    ensures var (t, r) := Respond(env, s, e);
            && (!AsksAccount(e.apdu.data) ==> r == PathError(Bip44(e.apdu.data)))
            && (AsksAccount(e.apdu.data) ==>
                  var path := Requested(e.apdu.data);
                  t.ctx.path == path && t.ctx.union == PublicKey(env.publicKey(path))
                  && r == if e.apdu.p2 == 1 then AddressShown else KeyReply(env.publicKey(path)))
  {
    hide PathAfter, Bip44, Requested, AccountPath;
    PathAccepted(e.apdu.data);
  }

  lemma KeyFrom(env: Env, s: DeviceState, e: Event)
    requires ValidDevice(s) && Enabled(s, e)
    ensures var r := Respond(env, s, e).1;
            && (r.KeyReply? || r == AddressShown ==> Drops(e) || e.AnswerAddress?)
            && (e.AnswerAddress? && s.ctx.union.PublicKey? ==>
                  r == if e.approved then KeyReply(s.ctx.union.key) else ConditionsNotSatisfied)
            && (e.AnswerAddress? ==> s.ctx.union.PublicKey?)
  {
    hide Deserialize, PathAfter, Bip44, Overwrite, ToLE;
  }

  /** Over all runs, whatever signing sessions are in between: a public key is replied exactly to
      a request for an account path without confirmation and to the approval of an address.
      It is the key of the path that was asked for. */
  lemma KeyReplied(env: Env, scriptsAllowed: bool, rest: seq<Entry>, last: Entry)
    requires Exec(env, scriptsAllowed, rest + [last]).Some?
    ensures last.r.KeyReply? <==>
            (Drops(last.e) && last.e.apdu.p2 == 0 && AsksAccount(last.e.apdu.data)) || last.e == AnswerAddress(true)
    ensures last.r.KeyReply? && Drops(last.e) ==> last.r.key == env.publicKey(Requested(last.e.apdu.data))
    ensures last.r == AddressShown <==> Drops(last.e) && last.e.apdu.p2 == 1 && AsksAccount(last.e.apdu.data)
  {
    hide Respond, Enabled, ValidDevice, AsksAccount, Requested;
    Snoc(rest, last);
    var s := Exec(env, scriptsAllowed, rest).value;
    KeyFrom(env, s, last.e);
    if Drops(last.e) { KeyRequested(env, s, last.e); }
  }

  /** An address is answered about directly after the request to show it. Approved, the key of
      the path that was asked for is replied; otherwise none is. */
  lemma AddressAnswered(env: Env, scriptsAllowed: bool, rest: seq<Entry>, request: Entry, answer: Entry)
    requires Exec(env, scriptsAllowed, rest + [request] + [answer]).Some? && answer.e.AnswerAddress?
    ensures Drops(request.e) && request.e.apdu.p2 == 1 && AsksAccount(request.e.apdu.data)
    ensures answer.r == if answer.e.approved then KeyReply(env.publicKey(Requested(request.e.apdu.data)))
                        else ConditionsNotSatisfied
  {
    hide Respond, Enabled, ValidDevice, AsksAccount, Requested;
    Snoc(rest + [request], answer);
    Snoc(rest, request);
    AnswersFollow(env, scriptsAllowed, rest + [request], answer);
    KeyReplied(env, scriptsAllowed, rest, request);
    KeyRequested(env, Exec(env, scriptsAllowed, rest).value, request.e);
    KeyFrom(env, Exec(env, scriptsAllowed, rest + [request]).value, answer.e);
  }
}
