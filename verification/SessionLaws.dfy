/** What holds over whole runs of the device, stated on the log of commands and replies that
    an observer sees. */
module SessionLaws {
  import opened Options
  import opened Bytes
  import opened Transactions
  import opened ScriptLanguages
  import opened Parsing
  import opened ParsingLaws
  import opened Wire
  import opened RoundTrip
  import opened ReviewItems
  import opened Session

  datatype Entry = Entry(e: Event, r: Reply)

  /** A step keeps the union discipline, whatever the command. */
  lemma StepKeepsValid(env: Env, s: DeviceState, e: Event)
    requires ValidDevice(s) && Enabled(s, e)
    ensures ValidDevice(Respond(env, s, e).0)
  {
    hide Deserialize, PathAfter, Bip44;
    Widths();
    if e.Command? && e.apdu.ins == SIGN_TX && |e.apdu.data| >= 4 {
      assert FromLE(e.apdu.data[..4]) < Pow256(4);
    }
  }

  // ---- runs ----

  /** The state after a log of events with the replies they got; none if no run of the
      device has this log. */
  ghost function Exec(env: Env, scriptsAllowed: bool, log: seq<Entry>): (s: Option<DeviceState>)
    ensures s.Some? ==> ValidDevice(s.value)
  {
    if log == [] then Some(PowerOn(scriptsAllowed))
    else
      var (rest, last) := (log[..|log| - 1], log[|log| - 1]);
      match Exec(env, scriptsAllowed, rest)
      case None => None
      case Some(s) =>
        if !Enabled(s, last.e) then None
        else
          StepKeepsValid(env, s, last.e);
          var (t, r) := Respond(env, s, last.e);
          if r == last.r then Some(t) else None
  }

  // ---- reading a log ----

  /** SIGN_TX commands that get past the dispatcher. */
  predicate IsSignTx(e: Event) {
    e.Command? &&
    var a := e.apdu;
    a.cla == CLA && a.ins == SIGN_TX && a.p1 <= P1_MAX && a.p2 in {P2_LAST, P2_MORE} && (a.p1 == 0 ==> a.p2 == P2_MORE)
    && a.data != []
  }

  predicate Opens(e: Event) {
    IsSignTx(e) && e.apdu.p1 == 0
  }

  predicate IsMagic(e: Event) {
    IsSignTx(e) && e.apdu.p1 == 1
  }

  predicate IsTxChunk(e: Event) {
    IsSignTx(e) && e.apdu.p1 >= 2
  }

  /** A GET_PUBLIC_KEY command that gets past the dispatcher: it ends the session. */
  predicate Drops(e: Event) {
    e.Command? && var a := e.apdu; a.cla == CLA && a.ins == GET_PUBLIC_KEY && a.p1 == 0 && a.p2 <= 1 && a.data != []
  }

  /** Whether a chunk 0 has opened a session that is still the current one. */
  predicate Opened(log: seq<Entry>) {
    log != [] &&
    var (rest, last) := (log[..|log| - 1], log[|log| - 1]);
    Opens(last.e) || (!Drops(last.e) && Opened(rest))
  }

  /** Whether the current session has seen an approval. */
  predicate Answered(log: seq<Entry>) {
    log != [] &&
    var (rest, last) := (log[..|log| - 1], log[|log| - 1]);
    !Opens(last.e) && !Drops(last.e) && (last.e.Approve? || Answered(rest))
  }

  /** The bytes of the transaction chunks that were taken since the session was opened. */
  function Payload(log: seq<Entry>): bytes {
    if log == [] then []
    else
      var (rest, last) := (log[..|log| - 1], log[|log| - 1]);
      if Opens(last.e) || Drops(last.e) then []
      else if IsTxChunk(last.e) && (last.r == Success || last.r.ParsingFail? || last.r.ReviewStarted?) then
        Payload(rest) + last.e.apdu.data
      else Payload(rest)
  }

  /** The magic of the last chunk 1 since the session was opened; zero when there was none. */
  function Magic(log: seq<Entry>): nat {
    if log == [] then 0
    else
      var (rest, last) := (log[..|log| - 1], log[|log| - 1]);
      if Opens(last.e) || Drops(last.e) then 0
      else if IsMagic(last.e) && last.r != BadState then
        if |last.e.apdu.data| < 4 then 0 else FromLE(last.e.apdu.data[..4])
      else Magic(rest)
  }

  /** The path that the last chunk 0, or the last request for a key, left. */
  function Path(log: seq<Entry>): seq<nat> {
    if log == [] then ZeroPath()
    else
      var (rest, last) := (log[..|log| - 1], log[|log| - 1]);
      if Opens(last.e) || Drops(last.e) then PathAfter(last.e.apdu.data) else Path(rest)
  }

  /** The setting in force. */
  function Setting(scriptsAllowed: bool, log: seq<Entry>): bool {
    if log == [] then scriptsAllowed
    else
      var (rest, last) := (log[..|log| - 1], log[|log| - 1]);
      if last.e.SetScriptsAllowed? then last.e.allowed else Setting(scriptsAllowed, rest)
  }

  /** The number of reviews since the session was opened. */
  function Reviews(log: seq<Entry>): nat {
    if log == [] then 0
    else
      var (rest, last) := (log[..|log| - 1], log[|log| - 1]);
      if Opens(last.e) || Drops(last.e) then 0
      else Reviews(rest) + (if last.r.ReviewStarted? then 1 else 0)
  }

  /** What had been sent when the last of them started. */
  function Reviewed(log: seq<Entry>): bytes {
    if log == [] then []
    else
      var (rest, last) := (log[..|log| - 1], log[|log| - 1]);
      if last.r.ReviewStarted? then Payload(log) else Reviewed(rest)
  }

  // ---- the invariant ----

  ghost predicate Accepted(d: bytes) {
    Deserialize(d, ZeroTx()).status == ParsingOk
  }

  /** The buffer holds the payload. */
  ghost predicate Holding(i: TxInfo, payload: bytes)
    requires ValidInfo(i)
  {
    i.rawTxLen == |payload| && i.rawTx[..i.rawTxLen] == payload
  }

  /** A pending review is about the payload, parsed as into a zeroed struct, and its hash is
      ready for signing. */
  ghost predicate UnderReview(env: Env, s: DeviceState, payload: bytes)
    requires s.ctx.union.Info? && Shape(s.ctx.union.info.tx)
  {
    var i := s.ctx.union.info;
    && s.ctx.state == Parsed && Accepted(payload)
    && i.tx == Deserialize(payload, ZeroTx()).tx && i.hash == env.sha(payload)
    && s.pending == TxReview(Allowed(i.tx, s.scriptsAllowed))
  }

  /** Before an approval: the buffer is the payload; until a review the struct is as good as
      zeroed, afterwards it remembers the one input that was reviewed. */
  ghost predicate InSession(env: Env, s: DeviceState, log: seq<Entry>)
    requires ValidDevice(s) && s.ctx.req == ConfirmTransaction
  {
    var i, payload := s.ctx.union.info, Payload(log);
    && Holding(i, payload)
    && (s.pending.TxReview? ==> Reviews(log) == 1 && Reviewed(log) == payload && UnderReview(env, s, payload))
    && (Reviews(log) == 0 ==> Clean(payload, i.tx))
    && (Reviews(log) > 0 ==> Reviews(log) == 1 && Reviewed(log) <= payload && Accepted(Reviewed(log))
                             && Remembers(Reviewed(log), i.tx))
  }

  ghost predicate Invariant(env: Env, s: DeviceState, scriptsAllowed: bool, log: seq<Entry>)
    requires ValidDevice(s)
  {
    && (Opened(log) <==> s.ctx.req == ConfirmTransaction)
    && s.ctx.magic == Magic(log) && s.ctx.path == Path(log)
    && s.scriptsAllowed == Setting(scriptsAllowed, log)
    && (Opened(log) && !Answered(log) ==> InSession(env, s, log))
  }

  // ---- it is kept ----

  lemma Snoc(rest: seq<Entry>, last: Entry)
    ensures var log := rest + [last]; log[..|log| - 1] == rest && log[|log| - 1] == last
  {
  }

  /** What a step does to request, magic, path and setting. */
  lemma HeadOfOpening(env: Env, s: DeviceState, e: Event)
    requires ValidDevice(s) && Enabled(s, e) && (Opens(e) || Drops(e))
    ensures var t := Respond(env, s, e).0;
            && t.ctx.req == (if Opens(e) then ConfirmTransaction else ConfirmAddress)
            && t.ctx.magic == 0 && t.ctx.path == PathAfter(e.apdu.data) && t.scriptsAllowed == s.scriptsAllowed
  {
    hide PathAfter, Bip44;
  }

  lemma HeadOfMagic(env: Env, s: DeviceState, e: Event)
    requires ValidDevice(s) && Enabled(s, e) && IsMagic(e)
    ensures var (t, r) := Respond(env, s, e);
            && t.ctx.req == s.ctx.req && t.ctx.path == s.ctx.path && t.scriptsAllowed == s.scriptsAllowed
            && t.ctx.magic == if r == BadState then s.ctx.magic
                              else if |e.apdu.data| < 4 then 0 else FromLE(e.apdu.data[..4])
  {
  }

  lemma HeadOfOther(env: Env, s: DeviceState, e: Event)
    requires ValidDevice(s) && Enabled(s, e) && !Opens(e) && !Drops(e) && !IsMagic(e)
    ensures var t := Respond(env, s, e).0;
            && t.ctx.req == s.ctx.req && t.ctx.path == s.ctx.path && t.ctx.magic == s.ctx.magic
            && t.scriptsAllowed == if e.SetScriptsAllowed? then e.allowed else s.scriptsAllowed
  {
    hide Deserialize, PathAfter, Bip44;
  }

  /** Request, magic, path and setting are what the log says. */
  lemma StepKeepsHead(env: Env, s: DeviceState, scriptsAllowed: bool, rest: seq<Entry>, last: Entry)
    requires ValidDevice(s) && Enabled(s, last.e) && Invariant(env, s, scriptsAllowed, rest)
    requires Respond(env, s, last.e).1 == last.r
    ensures var t, log := Respond(env, s, last.e).0, rest + [last];
            && ValidDevice(t)
            && (Opened(log) <==> t.ctx.req == ConfirmTransaction)
            && t.ctx.magic == Magic(log) && t.ctx.path == Path(log) && t.scriptsAllowed == Setting(scriptsAllowed, log)
  {
    hide Respond, PathAfter, InSession, ValidDevice, Enabled;
    StepKeepsValid(env, s, last.e);
    Snoc(rest, last);
    if Opens(last.e) || Drops(last.e) {
      HeadOfOpening(env, s, last.e);
    } else if IsMagic(last.e) {
      HeadOfMagic(env, s, last.e);
    } else {
      HeadOfOther(env, s, last.e);
    }
  }

  /** A transaction chunk that is taken. */
  lemma ChunkKeepsSession(env: Env, s: DeviceState, rest: seq<Entry>, last: Entry)
    requires ValidDevice(s) && Enabled(s, last.e) && IsTxChunk(last.e) && s.ctx.req == ConfirmTransaction
    requires InSession(env, s, rest) && Respond(env, s, last.e).1 == last.r
    ensures var t := Respond(env, s, last.e).0;
            ValidDevice(t) && t.ctx.req == ConfirmTransaction && InSession(env, t, rest + [last])
  {
    hide Deserialize, Clean, Remembers;
    StepKeepsValid(env, s, last.e);
    Snoc(rest, last);
    var data, i, payload := last.e.apdu.data, s.ctx.union.info, Payload(rest);
    if |payload| + |data| <= MAX_TRANSACTION_LEN {
      var raw := Overwrite(i.rawTx, i.rawTxLen, data);
      assert raw[..|payload| + |data|] == payload + data;
      if last.e.apdu.p2 == P2_MORE {
        LongerKeeps(payload, payload + data, i.tx);
        assert Reviewed(rest + [last]) == Reviewed(rest);
      } else {
        LastChunk(env, s, rest, last);
      }
    }
  }

  lemma LongerKeeps(d: bytes, e: bytes, tx: Tx)
    requires d <= e && Shape(tx)
    ensures Clean(d, tx) ==> Clean(e, tx)
  {
  }

  /** The last chunk: a parse of the payload, into what earlier attempts left. */
  lemma LastChunk(env: Env, s: DeviceState, rest: seq<Entry>, last: Entry)
    requires ValidDevice(s) && Enabled(s, last.e) && IsTxChunk(last.e) && s.ctx.req == ConfirmTransaction
    requires last.e.apdu.p2 == P2_LAST && |Payload(rest)| + |last.e.apdu.data| <= MAX_TRANSACTION_LEN
    requires InSession(env, s, rest) && Respond(env, s, last.e).1 == last.r
    ensures var t := Respond(env, s, last.e).0;
            ValidDevice(t) && t.ctx.req == ConfirmTransaction && InSession(env, t, rest + [last])
  {
    hide Deserialize, Clean, Remembers, Agree;
    StepKeepsValid(env, s, last.e);
    Snoc(rest, last);
    var i, payload := s.ctx.union.info, Payload(rest);
    var d := payload + last.e.apdu.data;
    var raw := Overwrite(i.rawTx, i.rawTxLen, last.e.apdu.data);
    assert raw[..|d|] == d;
    var o := Deserialize(d, i.tx);
    if Reviews(rest) > 0 {
      LongerIsRefused(Reviewed(rest), d, i.tx);
    } else if o.status == ParsingOk {
      CleanParse(payload, d, i.tx);
      RemembersItself(d);
    } else {
      RetryClean(payload, d, i.tx);
    }
  }

  lemma CleanParse(d: bytes, e: bytes, tx: Tx)
    requires Shape(tx) && Clean(d, tx) && d <= e && Deserialize(e, tx).status == ParsingOk
    ensures Deserialize(e, tx) == Deserialize(e, ZeroTx())
  {
  }

  lemma RemembersItself(d: bytes)
    ensures Remembers(d, Deserialize(d, ZeroTx()).tx)
  {
  }

  /** Everything else that is not an approval. */
  lemma OtherKeepsSession(env: Env, s: DeviceState, rest: seq<Entry>, last: Entry)
    requires ValidDevice(s) && Enabled(s, last.e) && s.ctx.req == ConfirmTransaction
    requires !Opens(last.e) && !Drops(last.e) && !IsTxChunk(last.e) && !last.e.Approve?
    requires InSession(env, s, rest) && Respond(env, s, last.e).1 == last.r
    ensures var t := Respond(env, s, last.e).0;
            ValidDevice(t) && (t.ctx.req == ConfirmTransaction ==> InSession(env, t, rest + [last]))
  {
    hide Deserialize, Clean, Remembers, PathAfter, Bip44;
    StepKeepsValid(env, s, last.e);
    Snoc(rest, last);
  }

  /** A new session starts with nothing. */
  lemma OpeningStartsSession(env: Env, s: DeviceState, rest: seq<Entry>, last: Entry)
    requires ValidDevice(s) && Enabled(s, last.e) && Opens(last.e) && Respond(env, s, last.e).1 == last.r
    ensures var t := Respond(env, s, last.e).0;
            ValidDevice(t) && t.ctx.req == ConfirmTransaction && InSession(env, t, rest + [last])
  {
    hide Deserialize, Remembers, PathAfter, Bip44, ZeroTx;
    StepKeepsValid(env, s, last.e);
    Snoc(rest, last);
  }

  lemma {:induction false} InvariantHolds(env: Env, scriptsAllowed: bool, log: seq<Entry>)
    requires Exec(env, scriptsAllowed, log).Some?
    ensures Invariant(env, Exec(env, scriptsAllowed, log).value, scriptsAllowed, log)
  {
    hide Respond, InSession, Enabled;
    if log != [] {
      var (rest, last) := (log[..|log| - 1], log[|log| - 1]);
      var s := Exec(env, scriptsAllowed, rest).value;
      InvariantHolds(env, scriptsAllowed, rest);
      assert log == rest + [last];
      StepKeepsHead(env, s, scriptsAllowed, rest, last);
      if Opens(last.e) {
        OpeningStartsSession(env, s, rest, last);
      } else if Opened(log) && !Answered(log) {
        if IsTxChunk(last.e) {
          ChunkKeepsSession(env, s, rest, last);
        } else {
          OtherKeepsSession(env, s, rest, last);
        }
      }
    }
  }

  // ---- the theorems ----

  /** In every run, power-on included: while the request is for an address the memory holds no
      transaction and no signing step has been made, so no guard lets one be touched. */
  lemma {:induction false} UnionDiscipline(env: Env, scriptsAllowed: bool, log: seq<Entry>)
    requires Exec(env, scriptsAllowed, log).Some?
    ensures var c := Exec(env, scriptsAllowed, log).value.ctx;
            && (c.req == ConfirmAddress <==> c.union.PublicKey?) && (c.req == ConfirmAddress ==> c.state == StateNone)
            && (c.req == ConfirmTransaction <==> Opened(log))
  {
    hide Exec;
    InvariantHolds(env, scriptsAllowed, log);
  }

  /** Before an approval the buffer is the concatenation of the chunks that were taken, and
      at most one review has started. */
  lemma Reassembly(env: Env, scriptsAllowed: bool, log: seq<Entry>)
    requires Exec(env, scriptsAllowed, log).Some? && Opened(log) && !Answered(log)
    ensures var s := Exec(env, scriptsAllowed, log).value;
            && s.ctx.union.Info?
            && var i := s.ctx.union.info;
               |i.rawTx| == MAX_TRANSACTION_LEN && i.rawTxLen == |Payload(log)| <= MAX_TRANSACTION_LEN
               && i.rawTx[..i.rawTxLen] == Payload(log)
    ensures Reviews(log) <= 1
  {
    hide Exec;
    InvariantHolds(env, scriptsAllowed, log);
  }

  /** Whatever attempts failed before, the transaction under review is the one that its bytes
      encode: nothing of an earlier attempt is left in it. */
  lemma RetrySound(env: Env, scriptsAllowed: bool, log: seq<Entry>) returns (w: Wire)
    requires Exec(env, scriptsAllowed, log).Some? && !Answered(log)
    requires Exec(env, scriptsAllowed, log).value.pending.TxReview?
    ensures ValidWire(w) && Payload(log) == Print(w)
    ensures var c := Exec(env, scriptsAllowed, log).value.ctx;
            c.union.Info? && Shape(c.union.info.tx)
            && Holds(Payload(log), c.union.info.tx, w) && Classified(c.union.info.tx, w.script)
  {
    hide Exec, Deserialize, Print, ValidWire, Holds, Classified, Clean, Remembers;
    InvariantHolds(env, scriptsAllowed, log);
    w := PrintOfParse(Payload(log));
  }

  /** The first approval of a session releases the signature over the network magic and the
      hash of exactly the bytes that were sent, parsed and reviewed, with the path of the
      session; the script is a transfer, a vote, or arbitrary scripts were allowed. */
  lemma SignedDigest(env: Env, scriptsAllowed: bool, rest: seq<Entry>, last: Entry) returns (w: Wire)
    requires Exec(env, scriptsAllowed, rest + [last]).Some? && last.e == Approve(Signs) && !Answered(rest)
    ensures ValidWire(w) && Payload(rest) == Print(w) && Magic(rest) < Pow256(4)
    ensures last.r == SignatureReply(env.ecdsa(Path(rest), env.sha(ToLE(Magic(rest), 4) + env.sha(Payload(rest)))))
    ensures InTransfer(w.script) || InVote(w.script) || Setting(scriptsAllowed, rest)
  {
    hide Deserialize, Print, ValidWire, Holds, Clean, Remembers;
    Snoc(rest, last);
    Widths();
    InvariantHolds(env, scriptsAllowed, rest);
    w := RetrySound(env, scriptsAllowed, rest);
    var s := Exec(env, scriptsAllowed, rest).value;
    var i := s.ctx.union.info;
    var front := ToLE(s.ctx.magic, 4) + i.hash;
    assert Overwrite(i.rawTx, 0, front)[..36] == front;
    assert Respond(env, s, last.e).1 == last.r;
  }

  lemma SignatureFrom(env: Env, s: DeviceState, e: Event)
    requires ValidDevice(s) && Enabled(s, e) && Respond(env, s, e).1.SignatureReply?
    ensures e == Approve(Signs) && s.pending == TxReview(true)
  {
    hide Deserialize, PathAfter, Bip44;
  }

  // ---- the order of the chunks ----

  /** What the guards of chunk 1 and of the transaction chunks come to: they refuse exactly
      when no session is open. They do not ask for the chunks before. */
  lemma GuardExactly(env: Env, scriptsAllowed: bool, rest: seq<Entry>, last: Entry)
    requires Exec(env, scriptsAllowed, rest + [last]).Some? && (IsMagic(last.e) || IsTxChunk(last.e))
    ensures last.r == BadState <==> !Opened(rest)
  {
    hide Deserialize, PathAfter, Bip44, Invariant;
    Snoc(rest, last);
    UnionDiscipline(env, scriptsAllowed, rest);
  }

  /** The documented order is not enforced: after a refused chunk 0, and without a chunk 1, a
      transaction is reviewed all the same. */
  lemma OrderNotEnforced(env: Env, w: Wire) returns (log: seq<Entry>)
    requires ValidWire(w) && 0 < |Print(w)| <= 255
    ensures Exec(env, true, log).Some? && Exec(env, true, log).value.pending == TxReview(true)
    ensures |log| == 2 && log[0].r == PathError(TooShort) && IsTxChunk(log[1].e)
  {
    hide Deserialize, Print, ValidWire, Holds, Classified, ZeroTx;
    var d := Print(w);
    ParseOfPrint(w);
    var first := Entry(Command(Apdu(CLA, SIGN_TX, 0, P2_MORE, [0])), PathError(TooShort));
    var second := Entry(Command(Apdu(CLA, SIGN_TX, 2, P2_LAST, d)), ReviewStarted(true));
    assert Exec(env, true, []) == Some(PowerOn(true));
    assert [first][..0] == [];
    var s := Exec(env, true, [first]).value;
    var i := s.ctx.union.info;
    assert Overwrite(i.rawTx, 0, d)[..|d|] == d;
    Snoc([first], second);
    log := [first] + [second];
  }
}
