/** What every review and every signature of every run is about: first ones and later ones,
    after which the struct is not cleared. */
module GateLaws {
  import opened Bytes
  import opened Transactions
  import opened Scripts
  import opened ScriptLanguages
  import opened Parsing
  import opened Wire
  import opened UsedStruct
  import opened ReviewItems
  import opened ReviewTexts
  import opened Naming
  import opened Session
  import opened SessionLaws

  // ---- the struct before a review ----

  function StructOf(s: DeviceState): Tx {
    if s.ctx.union.Info? then s.ctx.union.info.tx else ZeroTx()
  }

  /** The struct as it was when the last chunk of the latest review came. */
  ghost function Before(env: Env, scriptsAllowed: bool, log: seq<Entry>): Tx
    requires Exec(env, scriptsAllowed, log).Some?
  {
    if log == [] then ZeroTx()
    else
      var (rest, last) := (log[..|log| - 1], log[|log| - 1]);
      if last.r.ReviewStarted? then StructOf(Exec(env, scriptsAllowed, rest).value) else Before(env, scriptsAllowed, rest)
  }

  /** The counts in the context are within the arrays. */
  ghost predicate WithinArrays(s: DeviceState) {
    s.ctx.union.Info? ==> Bounded(s.ctx.union.info.tx)
  }

  /** A pending review is of the bytes in the buffer, parsed into `before`; their hash is ready
      for signing and that of the script for the screen, and the gate has been asked. */
  ghost predicate About(env: Env, s: DeviceState, before: Tx) {
    s.pending.TxReview? ==>
      && s.ctx.union.Info? && ValidInfo(s.ctx.union.info) && Bounded(before)
      && var i := s.ctx.union.info;
         var d := i.rawTx[..i.rawTxLen];
         && i.hash == env.sha(d) && i.scriptHash == env.sha(At(i.rawTx, i.tx.script, i.tx.scriptSize))
         && Deserialize(d, before).status == ParsingOk && Deserialize(d, before).tx == i.tx
         && s.pending == TxReview(Allowed(i.tx, s.scriptsAllowed))
  }

  lemma StepKeepsBounds(env: Env, s: DeviceState, e: Event)
    requires ValidDevice(s) && Enabled(s, e) && WithinArrays(s)
    ensures WithinArrays(Respond(env, s, e).0)
  {
    hide Deserialize, PathAfter, Bip44, Bounded, ZeroTx;
    ZeroBounded();
    if e.Command? && s.ctx.req == ConfirmTransaction {
      var i := s.ctx.union.info;
      if i.rawTxLen + |e.apdu.data| <= MAX_TRANSACTION_LEN {
        ParseKeepsBounds(Overwrite(i.rawTx, i.rawTxLen, e.apdu.data)[..i.rawTxLen + |e.apdu.data|], i.tx);
      }
    }
  }

  lemma StepKeepsAbout(env: Env, s: DeviceState, e: Event, before: Tx)
    requires ValidDevice(s) && Enabled(s, e) && WithinArrays(s) && About(env, s, before)
    ensures var (t, r) := Respond(env, s, e); About(env, t, if r.ReviewStarted? then StructOf(s) else before)
  {
    hide Deserialize, PathAfter, Bip44, Bounded, Allowed;
    StepKeepsValid(env, s, e);
  }

  lemma {:induction false} ReviewKept(env: Env, scriptsAllowed: bool, log: seq<Entry>)
    requires Exec(env, scriptsAllowed, log).Some?
    ensures var s := Exec(env, scriptsAllowed, log).value;
            WithinArrays(s) && About(env, s, Before(env, scriptsAllowed, log))
  {
    hide Respond, About, WithinArrays, ValidDevice, StructOf;
    if log == [] {
      NothingAtPowerOn(env, scriptsAllowed);
    } else {
      var (rest, last) := (log[..|log| - 1], log[|log| - 1]);
      var s := Exec(env, scriptsAllowed, rest).value;
      ReviewKept(env, scriptsAllowed, rest);
      StepKeepsBounds(env, s, last.e);
      StepKeepsAbout(env, s, last.e, Before(env, scriptsAllowed, rest));
    }
  }

  lemma NothingAtPowerOn(env: Env, scriptsAllowed: bool)
    ensures WithinArrays(PowerOn(scriptsAllowed)) && About(env, PowerOn(scriptsAllowed), ZeroTx())
  {
  }

  // ---- the theorems ----

  /** The review tells the transaction `w`: the buffer is its encoding, which was parsed into
      `before`, and everything that is shown is within bounds. */
  ghost predicate Telling(env: Env, s: DeviceState, before: Tx, w: Wire) {
    && s.ctx.union.Info? && ValidInfo(s.ctx.union.info) && Shape(before)
    && var i := s.ctx.union.info;
       && Told(i.rawTx[..i.rawTxLen], before, i.tx, w)
       && i.hash == env.sha(Print(w)) && i.scriptHash == env.sha(w.script)
       && Displayable(i.tx) && FeesFit(i.tx)
  }

  /** Why a review may offer approval: scripts are allowed, the script is in a language, or a
      flag was already set when the last chunk came, which takes an earlier answer. */
  ghost predicate Reason(env: Env, scriptsAllowed: bool, log: seq<Entry>, script: bytes)
    requires Exec(env, scriptsAllowed, log).Some?
  {
    Setting(scriptsAllowed, log) || InTransfer(script) || InVote(script)
    || (Answered(log) && Flagged(Before(env, scriptsAllowed, log)))
  }

  /** Every review of every run: what it tells, and exactly when it offers approval. */
  lemma OfferedExactly(env: Env, scriptsAllowed: bool, log: seq<Entry>) returns (w: Wire)
    requires Exec(env, scriptsAllowed, log).Some? && Exec(env, scriptsAllowed, log).value.pending.TxReview?
    ensures Telling(env, Exec(env, scriptsAllowed, log).value, Before(env, scriptsAllowed, log), w)
    ensures Exec(env, scriptsAllowed, log).value.pending.open <==> Reason(env, scriptsAllowed, log, w.script)
  {
    hide Exec, Deserialize, Print, ValidWire, Bounded, Told, ZeroTx, Displayable, FeesFit, InTransfer, InVote, Before;
    var s, before := Exec(env, scriptsAllowed, log).value, Before(env, scriptsAllowed, log);
    ReviewKept(env, scriptsAllowed, log);
    InvariantHolds(env, scriptsAllowed, log);
    var i := s.ctx.union.info;
    var d := i.rawTx[..i.rawTxLen];
    BoundedShape(before);
    ParsedIsDisplayable(d, before);
    FeesInRange(d, before);
    w := HeldFrom(d, before);
    FlagsTold(d, before, i.tx, w);
    ScriptInBuffer(i, before, w);
    if !Answered(log) {
      FirstReview(env, scriptsAllowed, log, w);
    }
  }

  lemma ScriptInBuffer(i: TxInfo, before: Tx, w: Wire)
    requires ValidInfo(i) && Shape(before) && Told(i.rawTx[..i.rawTxLen], before, i.tx, w)
    ensures At(i.rawTx, i.tx.script, i.tx.scriptSize) == w.script
  {
    hide Print, ValidWire, ShowsSigner, Holds, NoOtherLists, ClassifiedFrom;
    AtPrefix(i.rawTx, i.rawTxLen, i.tx.script, i.tx.scriptSize);
  }

  lemma FlagsTold(d: bytes, before: Tx, tx: Tx, w: Wire)
    requires Shape(before) && Shape(tx) && Told(d, before, tx, w)
    ensures Flagged(tx) <==> Flagged(before) || InTransfer(w.script) || InVote(w.script)
    ensures d == Print(w)
  {
    hide Print, ValidWire, Shows, Holds, NoOtherLists, InTransfer, InVote, IsTransferScript, IsVoteScript;
  }

  /** Before an approval nothing of earlier attempts counts. */
  lemma FirstReview(env: Env, scriptsAllowed: bool, log: seq<Entry>, w: Wire)
    requires Exec(env, scriptsAllowed, log).Some? && Exec(env, scriptsAllowed, log).value.pending.TxReview?
    requires !Answered(log)
    requires Telling(env, Exec(env, scriptsAllowed, log).value, Before(env, scriptsAllowed, log), w)
    ensures Flagged(Exec(env, scriptsAllowed, log).value.ctx.union.info.tx) <==> InTransfer(w.script) || InVote(w.script)
  {
    hide Exec, Deserialize, Print, ValidWire, ZeroTx, InTransfer, InVote, Before, IsTransferScript, IsVoteScript,
         ShowsSigner, HoldsSigner, NoOtherLists, ClassifiedFrom, Displayable, FeesFit;
    InvariantHolds(env, scriptsAllowed, log);
    var v := RetrySound(env, scriptsAllowed, log);
    var i := Exec(env, scriptsAllowed, log).value.ctx.union.info;
    assert v.script == At(Payload(log), i.tx.script, i.tx.scriptSize) == w.script;
  }

  /** Every review of every run names its script as the struct before it decides, and rightly
      as long as the session has seen no approval. */
  lemma ReviewNamed(env: Env, scriptsAllowed: bool, log: seq<Entry>) returns (w: Wire)
    requires Exec(env, scriptsAllowed, log).Some? && Exec(env, scriptsAllowed, log).value.pending.TxReview?
    ensures Telling(env, Exec(env, scriptsAllowed, log).value, Before(env, scriptsAllowed, log), w)
    ensures var tx := Exec(env, scriptsAllowed, log).value.ctx.union.info.tx;
            NamedFrom(Before(env, scriptsAllowed, log), tx, w.script) && (!Answered(log) ==> NamedRight(tx, w.script))
  {
    hide Exec, Deserialize, Print, ValidWire, ZeroTx, Before, Shows, Holds, NoOtherLists, ClassifiedFrom, Displayable,
         FeesFit, NamedFrom, NamedRight, Reason;
    w := OfferedExactly(env, scriptsAllowed, log);
    var i := Exec(env, scriptsAllowed, log).value.ctx.union.info;
    NameTold(Before(env, scriptsAllowed, log), i.tx, w.script);
    if !Answered(log) {
      InvariantHolds(env, scriptsAllowed, log);
      var v := NamedExactly(Payload(log), ZeroTx());
      NamedFromZero(i.tx, v.script);
      SameScript(Payload(log), i.tx, v, w);
    }
  }

  lemma SameScript(d: bytes, tx: Tx, v: Wire, w: Wire)
    requires Shape(tx) && Shows(d, tx, v) && Shows(d, tx, w)
    ensures v.script == w.script
  {
  }

  /** Whatever was parsed before, a pending review meets the bounds that both front ends rely
      on, and its fees neither wrap around nor overflow. */
  lemma ReviewDisplayable(env: Env, scriptsAllowed: bool, log: seq<Entry>)
    requires Exec(env, scriptsAllowed, log).Some? && Exec(env, scriptsAllowed, log).value.pending.TxReview?
    ensures var c := Exec(env, scriptsAllowed, log).value.ctx;
            c.union.Info? && Displayable(c.union.info.tx) && FeesFit(c.union.info.tx)
  {
    hide Exec, Told, Displayable, FeesFit, Reason;
    var w := OfferedExactly(env, scriptsAllowed, log);
  }

  /** Every signature of every run, a second one in a session too: it is over the magic in
      force and the hash of the encoding of a well-formed transaction, the one under review. */
  lemma SignedIsParsed(env: Env, scriptsAllowed: bool, rest: seq<Entry>, last: Entry) returns (w: Wire)
    requires Exec(env, scriptsAllowed, rest + [last]).Some? && last.r.SignatureReply?
    ensures Exec(env, scriptsAllowed, rest).Some?
    ensures Telling(env, Exec(env, scriptsAllowed, rest).value, Before(env, scriptsAllowed, rest), w)
    ensures ValidWire(w) && Magic(rest) < Pow256(4)
    ensures last.r.signature == env.ecdsa(Path(rest), env.sha(ToLE(Magic(rest), 4) + env.sha(Print(w))))
  {
    hide Deserialize, Path, Magic, Print, ValidWire, Shows, Holds, ClassifiedFrom, NoOtherLists, Displayable, FeesFit,
         Before, Reason;
    Snoc(rest, last);
    Widths();
    var s := Exec(env, scriptsAllowed, rest).value;
    SignatureFrom(env, s, last.e);
    InvariantHolds(env, scriptsAllowed, rest);
    w := OfferedExactly(env, scriptsAllowed, rest);
    var i := s.ctx.union.info;
    var front := ToLE(s.ctx.magic, 4) + i.hash;
    assert Overwrite(i.rawTx, 0, front)[..36] == front;
    assert Respond(env, s, last.e).1 == last.r;
  }

  /** A signature is released only by an approval, and the script that it signs is a transfer
      or a vote, or arbitrary scripts were allowed, or the session had been answered before
      and the flag of the earlier transaction was still set. */
  lemma SignatureNeedsGate(env: Env, scriptsAllowed: bool, rest: seq<Entry>, last: Entry) returns (w: Wire)
    requires Exec(env, scriptsAllowed, rest + [last]).Some? && last.r.SignatureReply?
    ensures last.e == Approve(Signs) && Exec(env, scriptsAllowed, rest).Some?
    ensures Telling(env, Exec(env, scriptsAllowed, rest).value, Before(env, scriptsAllowed, rest), w)
    ensures Reason(env, scriptsAllowed, rest, w.script)
  {
    hide Respond, Enabled, ValidDevice, Telling, Reason;
    Snoc(rest, last);
    SignatureFrom(env, Exec(env, scriptsAllowed, rest).value, last.e);
    w := OfferedExactly(env, scriptsAllowed, rest);
    ApprovalOffered(Exec(env, scriptsAllowed, rest).value, last.e);
  }

  lemma ApprovalOffered(s: DeviceState, e: Event)
    requires Enabled(s, e) && e.Approve?
    ensures s.pending == TxReview(true)
  {
  }
}
