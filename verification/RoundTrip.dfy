/** The parser and the printer are inverse to each other. */
module RoundTrip {
  import opened Options
  import opened Bytes
  import opened Transactions
  import opened Scripts
  import opened ScriptLanguages
  import opened Parsing
  import opened ParsingSteps
  import opened ParsingLaws
  import opened Wire
  import opened Visiting
  import opened Reading

  /** The recognisers' flags and fields are what the script says. */
  ghost predicate Classified(tx: Tx, script: bytes) {
    && (tx.isTransfer <==> InTransfer(script))
    && (tx.isTransfer ==> IsTransferScript(script, tx.amount, tx.dst, tx.isNeo))
    && (tx.isVote <==> InVote(script))
    && (tx.isVote ==> IsVoteScript(script, if tx.isRemoveVote then None else Some(tx.voteTo)))
  }

  ghost predicate Fresh(tx: Tx) {
    !tx.isTransfer && !tx.isVote && !tx.isNeo
  }

  const START: State := State(Version, 0, ZeroTx())

  /** What `BodyRead` establishes. */
  ghost predicate BodyParsed(d: bytes, s: State, ws: seq<WireSigner>, count: bytes, attributes: bytes,
                             length: bytes, script: bytes, t: State)
    requires Valid(d, s) && s.phase == Account(0) && ZeroFrom(s.tx, 0) && s.tx.attributes == [0, 0] && Fresh(s.tx)
  {
    && (|ws| == s.tx.signersSize <= MAX_TX_SIGNERS && (forall w :: w in ws ==> ValidSigner(w)))
    && Counts(count, |attributes|) && ValidAttributes(attributes)
    && Counts(length, |script|) && 0 < |script| <= 0xFFFF
    && Visits(d, s, SignersItems(ws, 0) + (AttributesOf(count, attributes) + ScriptOf(length, script)), t)
    && Valid(d, t) && t.phase == Done
    && HoldsSigners(d, t.tx, 0, ws) && DistinctPointers(d, t.tx, |ws|)
    && t.tx.attributesSize == |attributes| && t.tx.attributes[..|attributes|] == attributes
    && t.tx.scriptSize == |script| && t.tx.script + |script| <= |d| && At(d, t.tx.script, |script|) == script
    && ((t.tx.version, t.tx.nonce, t.tx.systemFee, t.tx.networkFee, t.tx.validUntil, t.tx.signersSize)
         == (s.tx.version, s.tx.nonce, s.tx.systemFee, s.tx.networkFee, s.tx.validUntil, s.tx.signersSize))
    && Classified(t.tx, script)
  }

  /** Signers, attributes and script, once the header has been read. */
  lemma BodyRead(d: bytes, s: State, want: Option<Wire>)
    returns (ws: seq<WireSigner>, count: bytes, attributes: bytes, length: bytes, script: bytes, t: State)
    requires Valid(d, s) && s.phase == Account(0) && ZeroFrom(s.tx, 0) && s.tx.attributes == [0, 0] && Fresh(s.tx)
    requires want.None? ==> Run(d, s).status == ParsingOk
    requires want.Some? ==> ValidWire(want.value) && s.tx.signersSize == |want.value.signers|
    requires want.Some? ==> Starts(d, s.off, Flatten(SignersItems(want.value.signers, 0)
                                                     + (AttributeItems(want.value) + ScriptItems(want.value))))
    ensures BodyParsed(d, s, ws, count, attributes, length, script, t)
    ensures want.Some? ==> ws == want.value.signers && count == want.value.attributeCount
                           && attributes == want.value.attributes && length == want.value.scriptLength
                           && script == want.value.script
  {
    hide Run, Judge, Visits, Flatten, Recognise, ValidSigner, HoldsSigners, DistinctPointers, Classified, At,
         SignersItems, AttributesOf, ScriptOf, Counts, ValidAttributes, AccountsBelow, DistinctAccounts;
    if want.Some? {
      BodyStarts(d, s.off, want.value);
    }
    var m, n;
    NoneYet(d, s.tx, s.off);
    ws, m := SignersRead(d, s, 0, if want.Some? then Some(want.value.signers) else None);
    VisitsRun(d, s, SignersItems(ws, 0), m);
    count, attributes, n := AttributesRead(d, m, want);
    VisitsRun(d, m, AttributesOf(count, attributes), n);
    length, script, t := ScriptRead(d, n, want);
    VisitsAppend(d, m, AttributesOf(count, attributes), n, ScriptOf(length, script), t);
    VisitsAppend(d, s, SignersItems(ws, 0), m, AttributesOf(count, attributes) + ScriptOf(length, script), t);
    var x := n.tx.(script := t.off - |script|, scriptSize := |script|);
    Classify(script, x);
    KeptSigners(d, m.tx, t.tx, ws);
  }

  lemma NoneYet(d: bytes, tx: Tx, off: nat)
    ensures AccountsBelow(tx, 0, off) && DistinctPointers(d, tx, 0)
    ensures forall ws :: DistinctAccounts(ws) ==> DistinctFrom(d, tx, 0, ws)
  {
  }

  lemma Classify(script: bytes, x: Tx)
    requires |script| == x.scriptSize && Fresh(x)
    ensures Classified(Recognise(script, x), script)
  {
    hide Recognise, IsTransferScript, IsVoteScript;
    var t := Recognise(script, x);
    RecogniseExact(script, x);
    NotBoth(script);
    if t.isTransfer {
      var a, dst, neo :| IsTransferScript(script, a, dst, neo);
    }
    if t.isVote {
      var key :| IsVoteScript(script, key);
      assert key == if t.isRemoveVote then None else Some(t.voteTo);
    }
  }

  lemma KeptSigners(d: bytes, x: Tx, y: Tx, ws: seq<WireSigner>)
    requires Shape(x) && Shape(y) && x.signers == y.signers && |ws| <= MAX_TX_SIGNERS
    requires HoldsSigners(d, x, 0, ws) && DistinctPointers(d, x, |ws|)
    ensures HoldsSigners(d, y, 0, ws) && DistinctPointers(d, y, |ws|)
  {
  }

  lemma BodyStarts(d: bytes, off: nat, w: Wire)
    requires ValidWire(w)
    requires Starts(d, off, Flatten(SignersItems(w.signers, 0) + (AttributeItems(w) + ScriptItems(w))))
    ensures Starts(d, off, Flatten(SignersItems(w.signers, 0)))
    ensures var a := off + |Flatten(SignersItems(w.signers, 0))|;
            Starts(d, a, Flatten(AttributesOf(w.attributeCount, w.attributes)))
            && Starts(d, a + |Flatten(AttributesOf(w.attributeCount, w.attributes))|,
                      Flatten(ScriptOf(w.scriptLength, w.script)))
  {
    hide Flatten, Starts;
    StartsBoth(d, off, SignersItems(w.signers, 0), AttributeItems(w) + ScriptItems(w));
    var a := off + |Flatten(SignersItems(w.signers, 0))|;
    StartsBoth(d, a, AttributeItems(w), ScriptItems(w));
    assert AttributeItems(w) == AttributesOf(w.attributeCount, w.attributes);
    assert ScriptItems(w) == ScriptOf(w.scriptLength, w.script);
  }

  /** The parse reads `d` as the transaction `w`, and ends at `t`. */
  ghost predicate ReadAs(d: bytes, w: Wire, t: State) {
    && ValidWire(w) && Valid(d, START) && Visits(d, START, Items(w), t) && Valid(d, t) && t.phase == Done
    && Holds(d, t.tx, w) && Classified(t.tx, w.script)
  }

  /** The parse of an accepted input, or of a printed transaction, reads a well-formed
      transaction field by field. */
  lemma Reads(d: bytes, want: Option<Wire>) returns (w: Wire, t: State)
    requires want.None? ==> Run(d, START).status == ParsingOk
    requires want.Some? ==> ValidWire(want.value) && d == Print(want.value)
    ensures want.Some? ==> w == want.value
    ensures ReadAs(d, w, t)
  {
    hide Run, Judge, Visits, Flatten, Classified, HeaderOf, SignersItems, HoldsSigner, ValidSigner, AttributesOf,
         ScriptOf,
         HoldsSigners, DistinctPointers, Holds, At;
    if want.Some? {
      PrintStarts(want.value);
    }
    var nonce, systemFee, networkFee, validUntil, signerCount, m := HeaderAllRead(d, want);
    var header := HeaderOf(nonce, systemFee, networkFee, validUntil, signerCount);
    VisitsRun(d, START, header, m);
    if want.Some? {
      HeaderOfWire(want.value);
    }
    var ws, count, attributes, length, script;
    ws, count, attributes, length, script, t := BodyRead(d, m, want);
    w := Wire(nonce, systemFee, networkFee, validUntil, signerCount, ws, count, attributes, length, script);
    Assemble(d, t.tx, w);
    assert HeaderItems(w) == header by { HeaderOfWire(w); }
    SameParts(w);
    VisitsAppend(d, START, header, m, SignersItems(ws, 0) + (AttributeItems(w) + ScriptItems(w)), t);
  }

  /** A printed transaction starts with its header, and goes on with its body. */
  lemma PrintStarts(w: Wire)
    requires ValidWire(w)
    ensures var d, header := Print(w), Flatten(HeaderItems(w));
            && Starts(d, 0, header)
            && Starts(d, |header|, Flatten(SignersItems(w.signers, 0) + (AttributeItems(w) + ScriptItems(w))))
  {
    hide Flatten, HeaderItems, SignersItems, AttributeItems, ScriptItems;
    var d := Print(w);
    assert Starts(d, 0, Flatten(Items(w))) by { assert d[0..|d|] == d; }
    StartsBoth(d, 0, HeaderItems(w), SignersItems(w.signers, 0) + (AttributeItems(w) + ScriptItems(w)));
  }

  lemma SameParts(w: Wire)
    requires w.script != []
    ensures AttributeItems(w) == AttributesOf(w.attributeCount, w.attributes)
    ensures ScriptItems(w) == ScriptOf(w.scriptLength, w.script)
  {
  }

  lemma Assemble(d: bytes, tx: Tx, w: Wire)
    requires Shape(tx) && HoldsSigners(d, tx, 0, w.signers) && DistinctPointers(d, tx, |w.signers|)
    requires MIN_TX_SIGNERS <= |w.signers| <= MAX_TX_SIGNERS && Counts(w.signerCount, |w.signers|)
    requires forall s :: s in w.signers ==> ValidSigner(s)
    requires w.nonce < Limit(Nonce) && w.systemFee < Limit(SystemFee) && w.networkFee < Limit(NetworkFee)
    requires w.validUntil < Limit(ValidUntil)
    requires Counts(w.attributeCount, |w.attributes|) && ValidAttributes(w.attributes)
    requires Counts(w.scriptLength, |w.script|) && 0 < |w.script| <= 0xFFFF
    requires (tx.version, tx.nonce, tx.systemFee, tx.networkFee, tx.validUntil, tx.signersSize)
          == (0, w.nonce, w.systemFee, w.networkFee, w.validUntil, |w.signers|)
    requires tx.attributesSize == |w.attributes| && tx.attributes[..|w.attributes|] == w.attributes
    requires tx.scriptSize == |w.script| && tx.script + |w.script| <= |d| && At(d, tx.script, |w.script|) == w.script
    ensures ValidWire(w) && Holds(d, tx, w)
  {
    hide PointTo, ValidSigner;
    forall k | 0 <= k < |w.signers| ensures HoldsSigner(d, tx.signers[k], w.signers[k]) {
      assert HoldsSigner(d, tx.signers[0 + k], w.signers[k]);
    }
  }

  // ---- the theorems ----

  /** Printing and parsing back: every well-formed transaction of at most 1024 bytes is
      accepted, in whichever forms its counts are written, and is what the struct holds. */
  lemma ParseOfPrint(w: Wire)
    requires ValidWire(w) && |Print(w)| <= MAX_TRANSACTION_LEN
    ensures var o := Deserialize(Print(w), ZeroTx());
            o.status == ParsingOk && Holds(Print(w), o.tx, w) && Classified(o.tx, w.script)
  {
    hide Run, Judge, Visits, Items, Flatten, Holds, Classified, ValidWire;
    var d := Print(w);
    var _, t := Reads(d, Some(w));
    VisitsRun(d, START, Items(w), t);
    Unfold(d, t);
  }

  /** Parsing and printing back: every accepted input is the encoding of the well-formed
      transaction that the struct then holds. */
  lemma PrintOfParse(d: bytes) returns (w: Wire)
    requires Deserialize(d, ZeroTx()).status == ParsingOk
    ensures ValidWire(w) && d == Print(w) && |d| <= MAX_TRANSACTION_LEN
    ensures var tx := Deserialize(d, ZeroTx()).tx; Holds(d, tx, w) && Classified(tx, w.script)
  {
    hide Run, Judge, Visits, Items, Flatten, Holds, Classified, ValidWire;
    var t;
    w, t := Reads(d, None);
    VisitsRun(d, START, Items(w), t);
    Unfold(d, t);
    assert d[0..|d|] == d;
  }

  /** The accepted inputs are exactly the encodings that fit. */
  lemma AcceptedExactly(d: bytes)
    ensures Deserialize(d, ZeroTx()).status == ParsingOk
       <==> |d| <= MAX_TRANSACTION_LEN && exists w :: ValidWire(w) && d == Print(w)
  {
    hide Deserialize, Print, ValidWire;
    if Deserialize(d, ZeroTx()).status == ParsingOk {
      var w := PrintOfParse(d);
    }
    if |d| <= MAX_TRANSACTION_LEN && exists w :: ValidWire(w) && d == Print(w) {
      var w :| ValidWire(w) && d == Print(w);
      ParseOfPrint(w);
    }
  }

  /** The walk over an encoding of any length. */
  lemma RunOfPrint(w: Wire) returns (t: State)
    requires ValidWire(w)
    ensures Visits(Print(w), START, Items(w), t) && Valid(Print(w), t) && t.off == |Print(w)|
    ensures Run(Print(w), START) == Outcome(ParsingOk, false, t.tx) && Holds(Print(w), t.tx, w)
  {
    hide Run, Judge, Visits, Items, Flatten, Holds, Classified, ValidWire;
    var d := Print(w);
    var v;
    v, t := Reads(d, Some(w));
    VisitsRun(d, START, Items(w), t);
    Unfold(d, t);
  }

  /** What an encoding cut short is rejected with, if the device can hold what is left: the
      status of the field with the cut. */
  lemma Truncation(w: Wire, k: nat)
    requires ValidWire(w) && k < |Print(w)| && k <= MAX_TRANSACTION_LEN
    ensures var o := Deserialize(Print(w)[..k], ZeroTx());
            o.status == CutStatus(ItemAt(Items(w), k).phase) != ParsingOk
            && forall status :: ReportsCut(status, ItemAt(Items(w), k).phase) <==> status == o.status
  {
    hide Run, Judge, Visits, Items, Flatten, Holds, ValidWire;
    var d := Print(w);
    var t := RunOfPrint(w);
    VisitsRun(d, START, Items(w), t);
    VisitsCut(d, START, Items(w), t, k);
    CutIsNotOk(d[..k], START);
    var p := ItemAt(Items(w), k).phase;
    forall status ensures ReportsCut(status, p) <==> status == CutStatus(p) {
      CutReported(p, status);
    }
  }

  /** A different transaction has a different encoding; what differs only in the form of its
      counts is the same transaction. */
  lemma PrintInjective(v: Wire, w: Wire)
    requires ValidWire(v) && ValidWire(w) && Print(v) == Print(w)
    ensures (v.nonce, v.systemFee, v.networkFee, v.validUntil, v.attributes, v.script)
         == (w.nonce, w.systemFee, w.networkFee, w.validUntil, w.attributes, w.script)
    ensures |v.signers| == |w.signers|
    ensures forall k :: 0 <= k < |v.signers| ==>
              var a, b := v.signers[k], w.signers[k];
              a.account == b.account && a.scope == b.scope && a.contracts == b.contracts && a.groups == b.groups
  {
    hide Run, Print, ValidWire;
    var t := RunOfPrint(v);
    var u := RunOfPrint(w);
    SameHeld(Print(v), t.tx, v, w);
  }

  lemma SameHeld(d: bytes, tx: Tx, v: Wire, w: Wire)
    requires Shape(tx) && Holds(d, tx, v) && Holds(d, tx, w)
    ensures (v.nonce, v.systemFee, v.networkFee, v.validUntil, v.attributes, v.script)
         == (w.nonce, w.systemFee, w.networkFee, w.validUntil, w.attributes, w.script)
    ensures |v.signers| == |w.signers|
    ensures forall k :: 0 <= k < |v.signers| ==>
              var a, b := v.signers[k], w.signers[k];
              a.account == b.account && a.scope == b.scope && a.contracts == b.contracts && a.groups == b.groups
  {
    hide PointTo;
    forall k | 0 <= k < |v.signers|
      ensures var a, b := v.signers[k], w.signers[k];
              a.account == b.account && a.scope == b.scope && a.contracts == b.contracts && a.groups == b.groups
    {
      var a, b := v.signers[k], w.signers[k];
      assert HoldsSigner(d, tx.signers[k], a) && HoldsSigner(d, tx.signers[k], b);
      SamePointed(d, tx.signers[k].contracts, a.contracts, b.contracts, UINT160_LEN);
      SamePointed(d, tx.signers[k].groups, a.groups, b.groups, ECPOINT_LEN);
    }
  }

  lemma SamePointed(d: bytes, pointers: seq<nat>, cs: seq<bytes>, es: seq<bytes>, n: nat)
    requires PointTo(d, pointers, 0, cs, n) && PointTo(d, pointers, 0, es, n) && |cs| == |es|
    ensures cs == es
  {
    forall k | 0 <= k < |cs| ensures cs[k] == es[k] {
      assert At(d, pointers[k], n) == cs[k - 0];
    }
  }
}
