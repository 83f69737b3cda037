/** Parsing into a struct that held something before. A session clears the struct only when
    it is opened, so all reviews after an approval are about such a parse: this module says
    what is then accepted, what is shown, and what is left from before. */
module UsedStruct {
  import opened Bytes
  import opened Transactions
  import opened Scripts
  import opened ScriptLanguages
  import opened Parsing
  import opened ParsingSteps
  import opened ParsingLaws
  import opened Wire
  import opened RoundTrip

  // ---- the locations that a transaction has ----

  /** A transaction with these counts and scopes fills the location of `q`. */
  ghost predicate Present(q: Phase, x: Tx)
    requires Shape(x)
  {
    match q
    case Account(i) => i < MAX_TX_SIGNERS && i < x.signersSize
    case Scope(i) => i < MAX_TX_SIGNERS && i < x.signersSize
    case ContractCount(i) => i < MAX_TX_SIGNERS && i < x.signersSize && HasFlag(x.signers[i].scope, CUSTOM_CONTRACTS)
    case Contract(i, j) =>
      i < MAX_TX_SIGNERS && i < x.signersSize && HasFlag(x.signers[i].scope, CUSTOM_CONTRACTS)
      && j < MAX_SIGNER_ALLOWED_CONTRACTS && j < x.signers[i].contractsSize
    case GroupCount(i) => i < MAX_TX_SIGNERS && i < x.signersSize && HasFlag(x.signers[i].scope, CUSTOM_GROUPS)
    case Group(i, j) =>
      i < MAX_TX_SIGNERS && i < x.signersSize && HasFlag(x.signers[i].scope, CUSTOM_GROUPS)
      && j < MAX_SIGNER_ALLOWED_GROUPS && j < x.signers[i].groupsSize
    case Attribute(i) => i < MAX_ATTRIBUTES && i < x.attributesSize
    case Script(_) => false
    case Done => false
    case _ => true
  }

  /** `x` and `y` hold the same wherever a parse that is now at `p` has been. */
  ghost predicate Alike(p: Phase, x: Tx, y: Tx)
    requires Shape(x) && Shape(y)
  {
    forall q :: Rank(q) < Rank(p) && Present(q, x) ==> Cell(q, x) == Cell(q, y)
  }

  /** A field does not change which locations before it there are. */
  lemma PresentKept(p: Phase, q: Phase, v: int, x: Tx)
    requires ValidAt(p, x) && InRange(p, v) && Rank(q) < Rank(p) && Present(q, Write(p, v, x))
    ensures Present(q, x)
  {
  }

  predicate OfSigner(p: Phase) {
    p.Account? || p.Scope? || p.ContractCount? || p.Contract? || p.GroupCount? || p.Group?
  }

  /** Between a field and the next one there is no location. */
  lemma NothingBetween(p: Phase, q: Phase, n: nat, x: Tx)
    requires ValidAt(p, x) && Present(p, x) && Present(q, x) && Rank(p) <= Rank(q) < Rank(Following(p, n, x))
    ensures q == p
  {
    if OfSigner(p) {
      hide *;
      NothingInSigner(p, q, n, x);
    } else {
      hide HasFlag, Shape;
    }
  }

  lemma NothingInSigner(p: Phase, q: Phase, n: nat, x: Tx)
    requires OfSigner(p) && ValidAt(p, x) && Present(p, x) && Present(q, x)
             && Rank(p) <= Rank(q) < Rank(Following(p, n, x))
    ensures q == p
  {
    hide HasFlag, Shape;
    if OfSigner(q) {
      assert q.i == p.i;
    }
  }

  lemma NextPresent(p: Phase, n: nat, x: Tx)
    requires ValidAt(p, x) && Present(p, x)
    requires p.SignerCount? ==> MIN_TX_SIGNERS <= x.signersSize <= MAX_TX_SIGNERS
    requires p.ContractCount? ==> x.signers[p.i].contractsSize <= MAX_SIGNER_ALLOWED_CONTRACTS
    requires p.GroupCount? ==> x.signers[p.i].groupsSize <= MAX_SIGNER_ALLOWED_GROUPS
    requires p.AttributeCount? ==> x.attributesSize <= MAX_ATTRIBUTES
    ensures var q := Following(p, n, x); Present(q, x) || q.Script? || q.Done?
    ensures Rank(p) <= Rank(AttributeCount) ==> Present(Following(p, n, x), x)
  {
  }

  /** The field itself is among the locations once it is stored. */
  lemma PresentStored(p: Phase, v: int, x: Tx)
    requires ValidAt(p, x) && InRange(p, v) && Present(p, x)
    ensures Present(p, Write(p, v, x))
  {
  }

  lemma AlikeValid(p: Phase, x: Tx, y: Tx)
    requires ValidAt(p, x) && Present(p, x) && Shape(y) && Alike(p, x, y)
    ensures ValidAt(p, y)
  {
    assert Rank(SignerCount) < Rank(p) ==> Cell(SignerCount, x) == Cell(SignerCount, y);
    if p.Contract? { assert Cell(ContractCount(p.i), x) == Cell(ContractCount(p.i), y); }
    if p.Group? { assert Cell(GroupCount(p.i), x) == Cell(GroupCount(p.i), y); }
    if p.Attribute? { assert Cell(AttributeCount, x) == Cell(AttributeCount, y); }
  }

  /** The same field goes into both, and both go on to the same next one. */
  lemma StepAlike(p: Phase, v: int, n: nat, x: Tx, y: Tx)
    requires ValidAt(p, x) && ValidAt(p, y) && Present(p, x) && InRange(p, v) && WithinLimits(p, v) && Alike(p, x, y)
    ensures ValidIndex(p)
    ensures var (t, u) := (Write(p, v, x), Write(p, v, y));
            Following(p, n, u) == Following(p, n, t) && Alike(Following(p, n, t), t, u)
  {
    var t, u := Write(p, v, x), Write(p, v, y);
    CellWrite(p, v, x);
    CellWrite(p, v, y);
    PresentStored(p, v, x);
    FollowingValid(p, v, n, x);
    forall q | Rank(q) < Rank(Following(p, n, t)) && Present(q, t) ensures Cell(q, t) == Cell(q, u) {
      if Rank(q) < Rank(p) {
        PresentKept(p, q, v, x);
      } else {
        WrittenValid(p, v, x);
        NothingBetween(p, q, n, t);
      }
    }
    SameNext(p, n, t, u);
  }

  lemma WrittenValid(p: Phase, v: int, x: Tx)
    requires ValidAt(p, x) && InRange(p, v) && WithinLimits(p, v)
    ensures ValidAt(p, Write(p, v, x))
  {
  }

  lemma SameNext(p: Phase, n: nat, t: Tx, u: Tx)
    requires ValidIndex(p) && Shape(u) && Shape(t) && Present(p, t)
    requires forall q :: Rank(q) < Rank(Following(p, n, t)) && Present(q, t) ==> Cell(q, t) == Cell(q, u)
    ensures Following(p, n, u) == Following(p, n, t)
  {
    FollowingForward(p, n, t);
    if p.Account? || p.Scope? || p.ContractCount? || p.Contract? || p.GroupCount? || p.Group? {
      hide Following, HasFlag;
      SignerCells(p, Rank(Following(p, n, t)), t, u);
      SameFollowing(p, p.i, n, t, u);
    } else if p.AttributeCount? || p.Attribute? {
      assert Cell(AttributeCount, t) == Cell(AttributeCount, u);
    }
  }

  lemma SignerCells(p: Phase, rank: nat, t: Tx, u: Tx)
    requires p.Account? || p.Scope? || p.ContractCount? || p.Contract? || p.GroupCount? || p.Group?
    requires Shape(u) && Shape(t) && Present(p, t) && Rank(p) < rank
    requires forall q :: Rank(q) < rank && Present(q, t) ==> Cell(q, t) == Cell(q, u)
    ensures t.signersSize == u.signersSize && p.i < MAX_TX_SIGNERS
    ensures !p.Account? ==> t.signers[p.i].scope == u.signers[p.i].scope
    ensures p.ContractCount? || p.Contract? ==> t.signers[p.i].contractsSize == u.signers[p.i].contractsSize
    ensures p.GroupCount? || p.Group? ==> t.signers[p.i].groupsSize == u.signers[p.i].groupsSize
  {
    hide HasFlag;
    assert Cell(SignerCount, t) == Cell(SignerCount, u);
    assert !p.Account? ==> Cell(Scope(p.i), t) == Cell(Scope(p.i), u);
    assert p.ContractCount? || p.Contract? ==> Cell(ContractCount(p.i), t) == Cell(ContractCount(p.i), u);
    assert p.GroupCount? || p.Group? ==> Cell(GroupCount(p.i), t) == Cell(GroupCount(p.i), u);
  }

  // ---- the parse ----

  /** Before the attributes a field is judged by what was read alone. */
  lemma ObjectionAlike(p: Phase, n: int, d: bytes, off: nat, x: Tx, y: Tx)
    requires ValidAt(p, x) && ValidAt(p, y) && InRange(p, n) && !p.Attribute? && Alike(p, x, y)
    ensures Objection(p, n, d, off, x) == Objection(p, n, d, off, y)
  {
    if p.Account? {
      forall s | 0 <= s < p.i ensures x.signers[s].account == y.signers[s].account {
        assert Cell(Account(s), x) == Cell(Account(s), y);
      }
    }
  }

  lemma AcceptAlike(p: Phase, d: bytes, off: nat, x: Tx, y: Tx)
    requires ValidAt(p, x) && ValidAt(p, y) && Present(p, x) && Complete(p, d, off) && Alike(p, x, y)
    requires Rank(p) <= Rank(AttributeCount)
    ensures var v, u := Accept(p, d, off, x), Accept(p, d, off, y);
            && v.Next? == u.Next?
            && (v.Next? ==> v.phase == u.phase && Alike(v.phase, v.tx, u.tx) && Present(v.phase, v.tx)
                            && v.tx.attributes == x.attributes && u.tx.attributes == y.attributes)
  {
    hide Objection, Following, Number, Stored, Present, Alike, Cell;
    var n, v := Number(p, d, off), Accept(p, d, off, x);
    ObjectionAlike(p, n, d, off, x, y);
    if v.Next? {
      AcceptedWithin(p, d, off, x);
      var stored := Stored(p, d, off);
      StepAlike(p, stored, 0, x, y);
      PresentStored(p, stored, x);
      WrittenValid(p, stored, x);
      WithinAfter(p, stored, x);
      NextPresent(p, 0, v.tx);
      AttributesKept(p, stored, x);
      AttributesKept(p, stored, y);
    }
  }

  lemma AcceptedWithin(p: Phase, d: bytes, off: nat, x: Tx)
    requires ValidAt(p, x) && Complete(p, d, off) && Accept(p, d, off, x).Next? && !p.Script?
    ensures WithinLimits(p, Stored(p, d, off))
  {
  }

  lemma WithinAfter(p: Phase, v: int, x: Tx)
    requires ValidAt(p, x) && InRange(p, v) && WithinLimits(p, v)
    ensures var t := Write(p, v, x);
            && (p.SignerCount? ==> MIN_TX_SIGNERS <= t.signersSize <= MAX_TX_SIGNERS)
            && (p.ContractCount? ==> t.signers[p.i].contractsSize <= MAX_SIGNER_ALLOWED_CONTRACTS)
            && (p.GroupCount? ==> t.signers[p.i].groupsSize <= MAX_SIGNER_ALLOWED_GROUPS)
            && (p.AttributeCount? ==> t.attributesSize <= MAX_ATTRIBUTES)
  {
  }

  lemma AttributesKept(p: Phase, v: int, x: Tx)
    requires ValidAt(p, x) && InRange(p, v) && !p.Attribute?
    ensures Write(p, v, x).attributes == x.attributes
  {
  }

  /** How the parse into `before` ends, given how the parse into zeroes ends. */
  ghost predicate EndsAlike(o: Outcome, r: Outcome, before: Tx)
    requires Shape(o.tx) && Shape(r.tx) && Shape(before)
  {
    && (r.status == ParsingOk <==>
        o.status == ParsingOk && (o.tx.attributesSize > 0 ==> before.attributes[0] != HIGH_PRIORITY))
    && (r.status == ParsingOk ==> Alike(Done, o.tx, r.tx) && o.tx.scriptSize == r.tx.scriptSize)
  }

  /** From `off` on the input is a length and a script, and nothing more. */
  predicate ScriptFits(d: bytes, off: nat) {
    var k := CountLen(d, off);
    off + k < |d| && |d| - (off + k) <= 0xFFFF && VarintValue(d[off..off + k]) == |d| - (off + k)
  }

  /** The struct after such a script. */
  function WithScript(d: bytes, off: nat, x: Tx): (t: Tx)
    requires ScriptFits(d, off)
    ensures Shape(x) ==> Shape(t)
  {
    var a := off + CountLen(d, off);
    Recognise(d[a..], x.(script := a, scriptSize := |d| - a))
  }

  lemma ScriptSection(d: bytes, s: State)
    requires Valid(d, s) && s.phase == ScriptLength
    ensures Run(d, s).status == ParsingOk <==> ScriptFits(d, s.off)
    ensures Run(d, s).status == ParsingOk ==> Run(d, s).tx == WithScript(d, s.off, s.tx)
  {
    hide Run, Judge, Accept, Recognise;
    Unfold(d, s);
    CutIsNotOk(d, s);
    if !IsCut(d, s) {
      CountIs(d, s);
      var n := VarintValue(Content(d, s));
      ScriptLengthVerdict(d, s, n);
      if 0 < n <= 0xFFFF {
        ScriptTail(d, State(Script(n), Judge(d, s).tx.script, Judge(d, s).tx), n);
      }
    }
  }

  /** The script is the last field, whatever it is. */
  lemma ScriptTail(d: bytes, s: State, n: pos)
    requires Valid(d, s) && s.phase == Script(n)
    ensures Run(d, s).status == ParsingOk <==> s.off + n == |d|
    ensures Run(d, s).status == ParsingOk ==> Run(d, s).tx == Recognise(d[s.off..], s.tx.(scriptSize := n))
  {
    hide Run, Judge, Recognise;
    Unfold(d, s);
    CutIsNotOk(d, s);
    if !IsCut(d, s) {
      var x := ScriptDone(d, s, n);
      assert s.off + n == |d| ==> Content(d, s) == d[s.off..];
    }
  }

  lemma TailAlike(d: bytes, off: nat, x: Tx, y: Tx)
    requires Shape(x) && Shape(y) && Alike(ScriptLength, x, y) && ScriptFits(d, off)
    ensures var t, u := WithScript(d, off, x), WithScript(d, off, y);
            Alike(Done, t, u) && t.scriptSize == u.scriptSize && t.attributesSize == x.attributesSize
  {
    hide Recognise, Alike;
    var a := off + CountLen(d, off);
    AlikeAfterScript(x, y, a, |d| - a, WithScript(d, off, x), WithScript(d, off, y));
  }

  lemma AlikeAfterScript(x: Tx, y: Tx, at: nat, n: nat, t: Tx, u: Tx)
    requires Shape(x) && Shape(y) && Alike(ScriptLength, x, y)
    requires t == WithClass(x.(script := at, scriptSize := n), t)
             && u == WithClass(y.(script := at, scriptSize := n), u)
    ensures Shape(t) && Shape(u) && Alike(Done, t, u) && t.scriptSize == u.scriptSize
            && t.attributesSize == x.attributesSize
  {
    forall q | Rank(q) < Rank(Done) && Present(q, t) ensures Cell(q, t) == Cell(q, u) {
      if !q.ScriptLength? {
        assert Rank(q) < Rank(ScriptLength) && Present(q, x);
        assert Cell(q, x) == Cell(q, y);
      }
    }
  }

  // ---- attributes ----

  lemma TwoAttributes(d: bytes, s: State)
    requires Valid(d, s) && s.phase == Attribute(1) && s.tx.attributesSize == 2 && s.tx.attributes[0] == HIGH_PRIORITY
    ensures Run(d, s).status != ParsingOk
  {
    hide Run, Judge;
    Unfold(d, s);
    CutIsNotOk(d, s);
    if !IsCut(d, s) {
      AttributeVerdict(d, s, 1);
      assert s.tx.attributes[..2][0] == HIGH_PRIORITY;
    }
  }

  lemma AttributeSection(d: bytes, s: State)
    requires Valid(d, s) && s.phase == Attribute(0)
    ensures Run(d, s).status == ParsingOk <==>
            s.tx.attributesSize == 1 && s.off < |d| && d[s.off] == HIGH_PRIORITY
            && s.tx.attributes[0] != HIGH_PRIORITY && ScriptFits(d, s.off + 1)
    ensures Run(d, s).status == ParsingOk ==>
            Run(d, s).tx == WithScript(d, s.off + 1, s.tx.(attributes := s.tx.attributes[0 := HIGH_PRIORITY]))
  {
    hide Run, Judge, Accept, ScriptFits, WithScript;
    Unfold(d, s);
    CutIsNotOk(d, s);
    if !IsCut(d, s) {
      AttributeVerdict(d, s, 0);
      assert s.tx.attributesSize == 1 ==> s.tx.attributes[..1] == [s.tx.attributes[0]];
      if Judge(d, s).Next? {
        var m := State(Judge(d, s).phase, s.off + 1, Judge(d, s).tx);
        if s.tx.attributesSize == 2 { TwoAttributes(d, m); } else { ScriptSection(d, m); }
      }
    }
  }

  lemma AttributesAlike(d: bytes, s: State, y: Tx)
    requires Valid(d, s) && s.phase in {Attribute(0), ScriptLength} && s.tx.attributes == [0, 0]
    requires s.phase == ScriptLength <==> s.tx.attributesSize == 0
    requires Shape(y) && Alike(s.phase, s.tx, y) && Present(s.phase, s.tx)
    ensures ValidAt(s.phase, y)
    ensures EndsAlike(Run(d, s), Run(d, State(s.phase, s.off, y)), y)
  {
    hide Run, Alike, ScriptFits, WithScript;
    AlikeValid(s.phase, s.tx, y);
    var sy := State(s.phase, s.off, y);
    if s.phase == ScriptLength {
      ScriptSection(d, s);
      ScriptSection(d, sy);
      if ScriptFits(d, s.off) { TailAlike(d, s.off, s.tx, y); }
    } else {
      AttributeSection(d, s);
      AttributeSection(d, sy);
      SameAttributeCount(s.tx, y);
      if Run(d, s).status == ParsingOk {
        StepAlike(Attribute(0), HIGH_PRIORITY, 0, s.tx, y);
        TailAlike(d, s.off + 1, Write(Attribute(0), HIGH_PRIORITY, s.tx), Write(Attribute(0), HIGH_PRIORITY, y));
      }
    }
  }

  lemma SameAttributeCount(x: Tx, y: Tx)
    requires Shape(x) && Shape(y) && Alike(Attribute(0), x, y)
    ensures x.attributesSize == y.attributesSize
  {
    assert Cell(AttributeCount, x) == Cell(AttributeCount, y);
  }

  // ---- all fields ----

  /** A parse that is alike so far ends alike, whatever else is in the struct. */
  lemma {:induction false} RunAlike(d: bytes, s: State, y: Tx)
    requires Valid(d, s) && Rank(s.phase) <= Rank(AttributeCount) && Present(s.phase, s.tx)
    requires s.tx.attributes == [0, 0] && Shape(y) && Alike(s.phase, s.tx, y)
    ensures ValidAt(s.phase, y)
    ensures EndsAlike(Run(d, s), Run(d, State(s.phase, s.off, y)), y)
    decreases |d| - s.off
  {
    hide Run, Accept, Alike, Present;
    AlikeValid(s.phase, s.tx, y);
    var sy := State(s.phase, s.off, y);
    Unfold(d, s);
    Unfold(d, sy);
    CutIsNotOk(d, s);
    CutIsNotOk(d, sy);
    if !IsCut(d, s) {
      var end := s.off + FieldLen(d, s.off, s.phase);
      AcceptAlike(s.phase, d[..end], s.off, s.tx, y);
      if Judge(d, s).Next? {
        var m := State(Judge(d, s).phase, end, Judge(d, s).tx);
        NextAlike(d, s, m, Judge(d, sy).tx);
      }
    }
  }

  lemma {:induction false} NextAlike(d: bytes, s: State, m: State, y: Tx)
    requires Valid(d, s) && Rank(s.phase) <= Rank(AttributeCount) && !IsCut(d, s) && Judge(d, s).Next?
    requires m == State(Judge(d, s).phase, s.off + FieldLen(d, s.off, s.phase), Judge(d, s).tx)
    requires Present(m.phase, m.tx) && m.tx.attributes == [0, 0] && Shape(y) && Alike(m.phase, m.tx, y)
    ensures ValidAt(m.phase, y)
    ensures EndsAlike(Run(d, m), Run(d, State(m.phase, m.off, y)), y)
    decreases |d| - s.off, 0
  {
    hide Run, Accept, Alike, Present;
    if s.phase.AttributeCount? {
      AfterAttributeCount(d, s);
      AttributesAlike(d, m, y);
    } else {
      StillBefore(d, s);
      RunAlike(d, m, y);
    }
  }

  lemma AfterAttributeCount(d: bytes, s: State)
    requires Valid(d, s) && s.phase.AttributeCount? && !IsCut(d, s) && Judge(d, s).Next?
    ensures Judge(d, s).phase == if Judge(d, s).tx.attributesSize == 0 then ScriptLength else Attribute(0)
  {
    hide Judge;
    CountIs(d, s);
    AttributeCountVerdict(d, s, VarintValue(Content(d, s)));
  }

  lemma StillBefore(d: bytes, s: State)
    requires Valid(d, s) && Rank(s.phase) < Rank(AttributeCount) && !IsCut(d, s) && Judge(d, s).Next?
    ensures Rank(Judge(d, s).phase) <= Rank(AttributeCount)
  {
    hide Objection, Number, Stored, Write;
  }

  // ---- what stays from before ----

  lemma WriteClass(p: Phase, v: int, t: Tx, x: Tx)
    requires ValidAt(p, x) && InRange(p, v) && !p.Script?
    ensures WithClass(t, Write(p, v, x)) == WithClass(t, x)
  {
  }

  lemma AcceptClass(p: Phase, d: bytes, off: nat, t: Tx, x: Tx)
    requires ValidAt(p, x) && Complete(p, d, off) && Accept(p, d, off, x).Next? && !p.Script?
    ensures WithClass(t, Accept(p, d, off, x).tx) == WithClass(t, x)
  {
    hide Objection, Following, Number, Stored, Write;
    WriteClass(p, Stored(p, d, off), t, x);
  }

  /** The recognisers' fields come from the script and from the fields before. */
  lemma {:induction false} RunClass(d: bytes, s: State)
    requires Valid(d, s) && Rank(s.phase) <= Rank(ScriptLength) && Run(d, s).status == ParsingOk
    ensures var t := Run(d, s).tx;
            && t.script + t.scriptSize == |d| && t.scriptSize > 0
            && t == Recognise(d[t.script..], WithClass(t, s.tx))
    decreases |d| - s.off
  {
    hide Run, Accept, Recognise;
    if s.phase == ScriptLength {
      ScriptSection(d, s);
    } else {
      Unfold(d, s);
      CutIsNotOk(d, s);
      var end := s.off + FieldLen(d, s.off, s.phase);
      AcceptClass(s.phase, d[..end], s.off, Run(d, s).tx, s.tx);
      BeforeScript(d, s);
      RunClass(d, State(Judge(d, s).phase, end, Judge(d, s).tx));
    }
  }

  lemma BeforeScript(d: bytes, s: State)
    requires Valid(d, s) && Rank(s.phase) < Rank(ScriptLength) && !IsCut(d, s) && Judge(d, s).Next?
    ensures Rank(Judge(d, s).phase) <= Rank(ScriptLength)
  {
    hide Objection, Number, Stored, Write;
  }

  /** The size of a list that the scope does not ask for. */
  lemma {:induction false} CountKept(d: bytes, s: State, q: Phase)
    requires q.ContractCount? || q.GroupCount?
    requires q.i < MAX_TX_SIGNERS && Valid(d, s) && Rank(s.phase) < Rank(q) && Run(d, s).status == ParsingOk
    requires !HasFlag(Run(d, s).tx.signers[q.i].scope, if q.ContractCount? then CUSTOM_CONTRACTS else CUSTOM_GROUPS)
    ensures Cell(q, Run(d, s).tx) == Cell(q, s.tx)
    decreases |d| - s.off
  {
    hide Run, Accept, HasFlag, Cell;
    Unfold(d, s);
    CutIsNotOk(d, s);
    var end := s.off + FieldLen(d, s.off, s.phase);
    var m := State(Judge(d, s).phase, end, Judge(d, s).tx);
    StepOther(s.phase, d[..end], s.off, s.tx, q);
    RunKeeps(d, m);
    if m.phase == q {
      FlagRead(s.phase, d[..end], s.off, s.tx, q);
      ScopeKept(q, m.tx, Run(d, s).tx);
    } else {
      if Rank(m.phase) == Rank(q) { RankApart(m.phase, q, m.tx); }
      if Rank(m.phase) < Rank(q) {
        CountKept(d, m, q);
      }
    }
  }

  lemma StepOther(p: Phase, d: bytes, off: nat, x: Tx, q: Phase)
    requires ValidAt(p, x) && Complete(p, d, off) && Accept(p, d, off, x).Next?
             && Rank(p) < Rank(q) < Rank(AttributeCount)
    ensures Cell(q, Accept(p, d, off, x).tx) == Cell(q, x)
  {
    hide Objection, Following, Number, Stored, Write, Cell;
    CellWrite(p, Stored(p, d, off), x);
  }

  lemma FlagRead(p: Phase, d: bytes, off: nat, x: Tx, q: Phase)
    requires ValidAt(p, x) && Complete(p, d, off) && Accept(p, d, off, x).Next? && Accept(p, d, off, x).phase == q
    requires (q.ContractCount? || q.GroupCount?) && q.i < MAX_TX_SIGNERS
    ensures HasFlag(Accept(p, d, off, x).tx.signers[q.i].scope,
                    if q.ContractCount? then CUSTOM_CONTRACTS else CUSTOM_GROUPS)
  {
    hide Objection, Number, Stored, Write, HasFlag;
  }

  lemma ScopeKept(q: Phase, x: Tx, y: Tx)
    requires (q.ContractCount? || q.GroupCount?) && q.i < MAX_TX_SIGNERS && Shape(x) && Shape(y)
    requires Agree(Rank(q), x, y)
    ensures x.signers[q.i].scope == y.signers[q.i].scope
  {
    assert Cell(Scope(q.i), x) == Cell(Scope(q.i), y);
  }

  lemma RankApart(p: Phase, q: Phase, x: Tx)
    requires (q.ContractCount? || q.GroupCount?) && q.i < MAX_TX_SIGNERS && ValidAt(p, x) && Rank(p) == Rank(q)
    ensures p == q
  {
  }

  // ---- bounds ----

  /** The counts are within the arrays, used or not. A cleared struct is like that. */
  ghost predicate Bounded(tx: Tx) {
    && Shape(tx) && tx.signersSize <= MAX_TX_SIGNERS && tx.attributesSize <= MAX_ATTRIBUTES
    && forall i :: 0 <= i < MAX_TX_SIGNERS ==>
         tx.signers[i].contractsSize <= MAX_SIGNER_ALLOWED_CONTRACTS && tx.signers[i].groupsSize <= MAX_SIGNER_ALLOWED_GROUPS
  }

  lemma WriteBounded(p: Phase, v: int, x: Tx)
    requires Bounded(x) && ValidAt(p, x) && InRange(p, v) && WithinLimits(p, v)
    ensures Bounded(Write(p, v, x))
  {
  }

  lemma JudgeBounded(p: Phase, d: bytes, off: nat, x: Tx)
    requires Bounded(x) && ValidAt(p, x) && Complete(p, d, off)
    ensures Bounded(Accept(p, d, off, x).tx)
  {
    hide Following, Number, Stored, Write, Recognise;
    var stored := Stored(p, d, off);
    if StoredFirst(p) || p.Script? {
      WriteBounded(p, stored, x);
    } else if Accept(p, d, off, x).Next? {
      AcceptedWithin(p, d, off, x);
      WriteBounded(p, stored, x);
    }
  }

  lemma CutBounded(p: Phase, off: nat, x: Tx)
    requires Bounded(x) && ValidAt(p, x)
    ensures Bounded(OnCut(p, off, x))
  {
    if p in {Version, Nonce, SystemFee, NetworkFee, ValidUntil} {
      WriteBounded(p, 0, x);
    } else if p.Account? || p.Contract? || p.Group? {
      WriteBounded(p, off, x);
    }
  }

  /** Every parse keeps the bounds, accepted or refused, whatever the input. */
  lemma {:induction false} RunBounded(d: bytes, s: State)
    requires Valid(d, s) && Bounded(s.tx)
    ensures Bounded(Run(d, s).tx)
    decreases |d| - s.off
  {
    hide Run, Accept, OnCut, Bounded;
    Unfold(d, s);
    if s.phase.Done? {
    } else if IsCut(d, s) {
      CutBounded(s.phase, s.off, s.tx);
    } else {
      var end := s.off + FieldLen(d, s.off, s.phase);
      JudgeBounded(s.phase, d[..end], s.off, s.tx);
      if Judge(d, s).Next? {
        RunBounded(d, State(Judge(d, s).phase, end, Judge(d, s).tx));
      }
    }
  }

  lemma ParseKeepsBounds(d: bytes, before: Tx)
    requires Bounded(before)
    ensures Bounded(Deserialize(d, before).tx)
  {
    hide Run, Bounded;
    assert Shape(before) by { BoundedShape(before); }
    if |d| <= MAX_TRANSACTION_LEN { RunBounded(d, State(Version, 0, before)); }
  }

  lemma BoundedShape(tx: Tx)
    requires Bounded(tx)
    ensures Shape(tx)
  {
  }

  lemma ZeroBounded()
    ensures Bounded(ZeroTx())
  {
  }

  // ---- what the struct says about the bytes ----

  /** A signer, apart from the lists that its scope does not ask for. */
  ghost predicate ShowsSigner(d: bytes, s: Signer, w: WireSigner)
    requires SignerShape(s)
  {
    && s.account + UINT160_LEN <= |d| && At(d, s.account, UINT160_LEN) == w.account
    && s.scope == w.scope
    && (HasFlag(w.scope, CUSTOM_CONTRACTS) ==>
          s.contractsSize == |w.contracts| && PointTo(d, s.contracts, 0, w.contracts, UINT160_LEN))
    && (HasFlag(w.scope, CUSTOM_GROUPS) ==>
          s.groupsSize == |w.groups| && PointTo(d, s.groups, 0, w.groups, ECPOINT_LEN))
  }

  /** The struct holds the transaction, except that it may list contracts or groups that the
      scope does not ask for. */
  ghost predicate Shows(d: bytes, tx: Tx, w: Wire)
    requires Shape(tx)
  {
    && tx.version == 0 && tx.nonce == w.nonce && tx.systemFee == w.systemFee && tx.networkFee == w.networkFee
    && tx.validUntil == w.validUntil
    && tx.signersSize == |w.signers| <= MAX_TX_SIGNERS
    && (forall k {:trigger w.signers[k]} :: 0 <= k < |w.signers| ==> ShowsSigner(d, tx.signers[k], w.signers[k]))
    && tx.attributesSize == |w.attributes| <= MAX_ATTRIBUTES && tx.attributes[..|w.attributes|] == w.attributes
    && tx.scriptSize == |w.script| && tx.script + |w.script| <= |d| && At(d, tx.script, |w.script|) == w.script
  }

  ghost predicate EmptyIfAbsent(s: Signer, w: WireSigner) {
    && (!HasFlag(w.scope, CUSTOM_CONTRACTS) ==> s.contractsSize == 0)
    && (!HasFlag(w.scope, CUSTOM_GROUPS) ==> s.groupsSize == 0)
  }

  /** The lists that the scopes do not ask for are empty. */
  ghost predicate NoOtherLists(tx: Tx, w: Wire)
    requires Shape(tx)
  {
    forall k {:trigger w.signers[k]} :: 0 <= k < |w.signers| && k < MAX_TX_SIGNERS ==> EmptyIfAbsent(tx.signers[k], w.signers[k])
  }

  /** What the recognisers' fields say of the script, given what they said before; for a
      script in no language too. */
  ghost predicate ClassifiedFrom(before: Tx, tx: Tx, script: bytes) {
    && (tx.isTransfer <==> before.isTransfer || InTransfer(script))
    && (tx.isVote <==> before.isVote || (!before.isTransfer && InVote(script)))
    && (forall a, dst, neo :: IsTransferScript(script, a, dst, neo) ==>
          tx.amount == a && tx.dst == dst && tx.isNeo == (before.isNeo || neo))
    && (forall key :: IsVoteScript(script, key) && !before.isTransfer ==>
          tx.isRemoveVote == key.None? && (key.Some? ==> tx.voteTo == key.value))
    && LeftFrom(before, tx, script)
  }

  lemma PointersAlike(d: bytes, x: seq<nat>, y: seq<nat>, cs: seq<bytes>, n: nat)
    requires PointTo(d, x, 0, cs, n) && |y| == |x| && forall k :: 0 <= k < |cs| ==> y[k] == x[k]
    ensures PointTo(d, y, 0, cs, n)
  {
  }

  lemma SignerAlike(d: bytes, x: Tx, y: Tx, i: nat, w: WireSigner)
    requires Shape(x) && Shape(y) && i < x.signersSize && i < MAX_TX_SIGNERS && Alike(Done, x, y)
    requires HoldsSigner(d, x.signers[i], w)
    ensures ShowsSigner(d, y.signers[i], w)
  {
    hide PointTo, HasFlag;
    var a, b := x.signers[i], y.signers[i];
    assert Cell(Account(i), x) == Cell(Account(i), y) && Cell(Scope(i), x) == Cell(Scope(i), y);
    assert |w.contracts| <= MAX_SIGNER_ALLOWED_CONTRACTS && |w.groups| <= MAX_SIGNER_ALLOWED_GROUPS by {
      Pointed(d, a.contracts, w.contracts, UINT160_LEN);
      Pointed(d, a.groups, w.groups, ECPOINT_LEN);
    }
    if HasFlag(w.scope, CUSTOM_CONTRACTS) {
      assert Cell(ContractCount(i), x) == Cell(ContractCount(i), y);
      forall k | 0 <= k < |w.contracts| ensures b.contracts[k] == a.contracts[k] {
        assert Cell(Contract(i, k), x) == Cell(Contract(i, k), y);
      }
      PointersAlike(d, a.contracts, b.contracts, w.contracts, UINT160_LEN);
    }
    if HasFlag(w.scope, CUSTOM_GROUPS) {
      assert Cell(GroupCount(i), x) == Cell(GroupCount(i), y);
      forall k | 0 <= k < |w.groups| ensures b.groups[k] == a.groups[k] {
        assert Cell(Group(i, k), x) == Cell(Group(i, k), y);
      }
      PointersAlike(d, a.groups, b.groups, w.groups, ECPOINT_LEN);
    }
  }

  lemma Pointed(d: bytes, pointers: seq<nat>, cs: seq<bytes>, n: nat)
    requires PointTo(d, pointers, 0, cs, n)
    ensures |cs| <= |pointers|
  {
  }

  lemma ShownAlike(d: bytes, x: Tx, y: Tx, w: Wire)
    requires Shape(x) && Shape(y) && Holds(d, x, w) && Alike(Done, x, y) && x.scriptSize == y.scriptSize
    ensures Shows(d, y, w)
  {
    hide HoldsSigner, ShowsSigner;
    NumbersAlike(x, y);
    forall k | 0 <= k < |w.signers| ensures ShowsSigner(d, y.signers[k], w.signers[k]) {
      assert HoldsSigner(d, x.signers[k], w.signers[k]);
      SignerAlike(d, x, y, k, w.signers[k]);
    }
  }

  lemma NumbersAlike(x: Tx, y: Tx)
    requires Shape(x) && Shape(y) && Alike(Done, x, y) && x.attributesSize <= MAX_ATTRIBUTES
    ensures (x.version, x.nonce, x.systemFee, x.networkFee, x.validUntil, x.signersSize, x.attributesSize, x.script)
         == (y.version, y.nonce, y.systemFee, y.networkFee, y.validUntil, y.signersSize, y.attributesSize, y.script)
    ensures x.attributes[..x.attributesSize] == y.attributes[..x.attributesSize]
  {
    assert Cell(Version, x) == Cell(Version, y) && Cell(Nonce, x) == Cell(Nonce, y);
    assert Cell(SystemFee, x) == Cell(SystemFee, y) && Cell(NetworkFee, x) == Cell(NetworkFee, y);
    assert Cell(ValidUntil, x) == Cell(ValidUntil, y) && Cell(SignerCount, x) == Cell(SignerCount, y);
    assert Cell(AttributeCount, x) == Cell(AttributeCount, y) && Cell(ScriptLength, x) == Cell(ScriptLength, y);
    forall k | 0 <= k < x.attributesSize ensures x.attributes[k] == y.attributes[k] {
      assert Cell(Attribute(k), x) == Cell(Attribute(k), y);
    }
  }

  /** What is held is exactly the transaction when the other lists are empty. */
  lemma HoldsWhenEmpty(d: bytes, tx: Tx, w: Wire)
    requires Shape(tx) && ValidWire(w) && Shows(d, tx, w)
    ensures Holds(d, tx, w) <==> NoOtherLists(tx, w)
  {
    hide PointTo;
    forall k | 0 <= k < |w.signers|
      ensures HoldsSigner(d, tx.signers[k], w.signers[k]) <==> EmptyIfAbsent(tx.signers[k], w.signers[k])
    {
      assert ShowsSigner(d, tx.signers[k], w.signers[k]) && ValidSigner(w.signers[k]);
      NonePointed(d, tx.signers[k].contracts, UINT160_LEN);
      NonePointed(d, tx.signers[k].groups, ECPOINT_LEN);
    }
  }

  lemma NonePointed(d: bytes, pointers: seq<nat>, n: nat)
    ensures PointTo(d, pointers, 0, [], n)
  {
  }

  // ---- the theorems ----

  /** A parse from any struct ends as the parse from zeroes, but for the attribute. */
  lemma EndsFrom(d: bytes, before: Tx)
    requires Shape(before)
    ensures EndsAlike(Deserialize(d, ZeroTx()), Deserialize(d, before), before)
  {
    hide Run;
    if |d| <= MAX_TRANSACTION_LEN { RunAlike(d, START, before); }
  }

  /** The accepted inputs, whatever the struct held: the encodings that fit, except that an
      attribute is refused when its slot holds one from before. */
  lemma AcceptedInto(d: bytes, before: Tx)
    requires Shape(before)
    ensures Deserialize(d, before).status == ParsingOk <==>
            |d| <= MAX_TRANSACTION_LEN
            && exists w :: ValidWire(w) && d == Print(w) && (w.attributes == [] || before.attributes[0] != HIGH_PRIORITY)
  {
    hide Deserialize, Print, ValidWire, Classified;
    EndsFrom(d, before);
    if Deserialize(d, ZeroTx()).status == ParsingOk {
      var w := PrintOfParse(d);
    }
    if |d| <= MAX_TRANSACTION_LEN
       && exists w :: ValidWire(w) && d == Print(w) && (w.attributes == [] || before.attributes[0] != HIGH_PRIORITY) {
      var w :| ValidWire(w) && d == Print(w) && (w.attributes == [] || before.attributes[0] != HIGH_PRIORITY);
      ParseOfPrint(w);
    }
  }

  /** What a parse into `before` tells. */
  ghost predicate Told(d: bytes, before: Tx, tx: Tx, w: Wire)
    requires Shape(before) && Shape(tx)
  {
    && ValidWire(w) && d == Print(w) && |d| <= MAX_TRANSACTION_LEN
    && Shows(d, tx, w) && (Holds(d, tx, w) <==> NoOtherLists(before, w))
    && ClassifiedFrom(before, tx, w.script)
  }

  /** Every accepted input is an encoding, and its transaction is what is shown. It is exactly
      what is held if and only if no list from before stands where the scope asks for none.
      The recognisers' flags from before stay set. */
  lemma HeldFrom(d: bytes, before: Tx) returns (w: Wire)
    requires Shape(before) && Deserialize(d, before).status == ParsingOk
    ensures Told(d, before, Deserialize(d, before).tx, w)
  {
    hide Run, Print, ValidWire, Classified, Holds, Shows, NoOtherLists, Recognise, ClassifiedFrom, Alike;
    var tx := Deserialize(d, before).tx;
    EndsFrom(d, before);
    w := PrintOfParse(d);
    ShownAlike(d, Deserialize(d, ZeroTx()).tx, tx, w);
    HoldsWhenEmpty(d, tx, w);
    OthersKept(d, before, tx, w);
    var s := State(Version, 0, before);
    RunClass(d, s);
    assert d[tx.script..] == w.script by { ScriptHeld(d, tx, w); }
    var x := WithClass(tx, before);
    RecogniseExact(w.script, x);
    Reclassified(before, x, w.script);
  }

  lemma ScriptHeld(d: bytes, tx: Tx, w: Wire)
    requires Shape(tx) && Shows(d, tx, w) && tx.script + tx.scriptSize == |d|
    ensures d[tx.script..] == w.script && tx.scriptSize == |w.script|
  {
  }

  lemma Reclassified(before: Tx, x: Tx, script: bytes)
    requires x == WithClass(x, before) && |script| == x.scriptSize
    ensures ClassifiedFrom(before, Recognise(script, x), script)
  {
    hide Recognise, InTransfer, InVote, IsTransferScript, IsVoteScript, LeftFrom;
    RecogniseExact(script, x);
    RecogniseLeaves(script, before, x);
  }

  /** The sizes of lists that are not asked for are those from before. */
  lemma OthersKept(d: bytes, before: Tx, tx: Tx, w: Wire)
    requires Shape(before) && Deserialize(d, before).status == ParsingOk && tx == Deserialize(d, before).tx
    requires Shows(d, tx, w)
    ensures NoOtherLists(tx, w) <==> NoOtherLists(before, w)
  {
    hide Run, HasFlag;
    var s := State(Version, 0, before);
    forall k | 0 <= k < |w.signers| && k < MAX_TX_SIGNERS
      ensures EmptyIfAbsent(tx.signers[k], w.signers[k]) <==> EmptyIfAbsent(before.signers[k], w.signers[k])
    {
      assert ShowsSigner(d, tx.signers[k], w.signers[k]);
      if !HasFlag(w.signers[k].scope, CUSTOM_CONTRACTS) { CountKept(d, s, ContractCount(k)); }
      if !HasFlag(w.signers[k].scope, CUSTOM_GROUPS) { CountKept(d, s, GroupCount(k)); }
    }
  }
}
