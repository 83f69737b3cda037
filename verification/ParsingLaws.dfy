/** Laws of the parse that hold for every input: more bytes never change a verdict that was
    reached, accepted inputs are prefix-free, and parsing again into the struct that failed
    attempts left behind is as good as parsing into a zeroed one. */
module ParsingLaws {
  import opened Bytes
  import opened Transactions
  import opened Scripts
  import opened Parsing
  import opened ParsingSteps

  // ---- more bytes ----

  lemma FieldExtends(d: bytes, D: bytes, s: State)
    requires d <= D && Valid(d, s) && !IsCut(d, s)
    ensures !IsCut(D, s) && FieldLen(D, s.off, s.phase) == FieldLen(d, s.off, s.phase)
    ensures Judge(D, s) == Judge(d, s)
  {
    hide Accept;
    var end := s.off + FieldLen(d, s.off, s.phase);
    assert D[..end] == d[..end];
  }

  /** A parse that did not run out of bytes ends the same way when bytes are appended,
      except that an accepted input is no longer accepted. */
  lemma {:induction false} RunExtends(d: bytes, D: bytes, s: State)
    requires d <= D && Valid(d, s) && !Run(d, s).cut
    ensures Run(D, s).tx == Run(d, s).tx && !Run(D, s).cut
    ensures Run(D, s).status
         == if Run(d, s).status == ParsingOk && |d| < |D| then InvalidLengthError else Run(d, s).status
    decreases |d| - s.off
  {
    hide Run;
    Unfold(d, s);
    Unfold(D, s);
    if !s.phase.Done? {
      FieldExtends(d, D, s);
      match Judge(d, s)
      case Refuse(_, _) =>
      case Next(p, t) => RunExtends(d, D, State(p, s.off + FieldLen(d, s.off, s.phase), t));
    }
  }

  lemma {:induction false} CutIsNotOk(d: bytes, s: State)
    requires Valid(d, s)
    ensures Run(d, s).cut ==> Run(d, s).status != ParsingOk
    decreases |d| - s.off
  {
    hide Run;
    Unfold(d, s);
    if !s.phase.Done? && !IsCut(d, s) && Judge(d, s).Next? {
      CutIsNotOk(d, State(Judge(d, s).phase, s.off + FieldLen(d, s.off, s.phase), Judge(d, s).tx));
    }
  }

  // ---- bytes that are left over ----

  lemma FieldShrinks(d: bytes, k: nat, s: State)
    requires k <= |d| && Valid(d, s) && !IsCut(d, s) && s.off + FieldLen(d, s.off, s.phase) <= k
    ensures !IsCut(d[..k], s) && FieldLen(d[..k], s.off, s.phase) == FieldLen(d, s.off, s.phase)
    ensures Judge(d[..k], s) == Judge(d, s)
  {
    hide Accept;
    var end := s.off + FieldLen(d, s.off, s.phase);
    assert d[..k][..end] == d[..end];
  }

  lemma NoLengthError(d: bytes, s: State)
    requires Valid(d, s) && !IsCut(d, s)
    ensures Judge(d, s).Refuse? ==> Judge(d, s).status != InvalidLengthError
  {
  }

  lemma {:induction false} LeftOver(d: bytes, s: State) returns (k: nat)
    requires Valid(d, s) && Run(d, s).status == InvalidLengthError
    ensures s.off <= k < |d| && Run(d[..k], s).status == ParsingOk
    decreases |d| - s.off
  {
    hide Run, Judge;
    Unfold(d, s);
    if s.phase.Done? {
      k := s.off;
      Unfold(d[..k], s);
    } else {
      NoLengthError(d, s);
      var m := State(Judge(d, s).phase, s.off + FieldLen(d, s.off, s.phase), Judge(d, s).tx);
      k := LeftOver(d, m);
      FieldShrinks(d, k, s);
      Unfold(d[..k], s);
    }
  }

  /** An input is refused for its length if and only if it is too long, or a proper prefix of it
      is a whole transaction. */
  lemma LengthErrorExactly(d: bytes, tx: Tx)
    requires Shape(tx)
    ensures Deserialize(d, tx).status == InvalidLengthError <==>
            |d| > MAX_TRANSACTION_LEN || exists k :: 0 <= k < |d| && Deserialize(d[..k], tx).status == ParsingOk
  {
    hide Run;
    var s := State(Version, 0, tx);
    if |d| <= MAX_TRANSACTION_LEN {
      if Run(d, s).status == InvalidLengthError {
        var k := LeftOver(d, s);
        assert Deserialize(d[..k], tx).status == ParsingOk;
      }
      forall k | 0 <= k < |d| && Deserialize(d[..k], tx).status == ParsingOk
        ensures Run(d, s).status == InvalidLengthError
      {
        CutIsNotOk(d[..k], s);
        RunExtends(d[..k], d, s);
      }
    }
  }

  /** No accepted input is a proper prefix of another, whatever the struct held before. */
  lemma PrefixFree(d: bytes, D: bytes, tx: Tx)
    requires Shape(tx) && d <= D
    requires Deserialize(d, tx).status == ParsingOk && Deserialize(D, tx).status == ParsingOk
    ensures d == D
  {
    hide Run;
    var s := State(Version, 0, tx);
    CutIsNotOk(d, s);
    RunExtends(d, D, s);
  }

  // ---- the order in which locations are written ----

  /** The place of a field in the order of reading; every place is written by one field. */
  function Rank(p: Phase): nat {
    match p
    case Version => 0 case Nonce => 1 case SystemFee => 2 case NetworkFee => 3 case ValidUntil => 4
    case SignerCount => 5
    case Account(i) => 1000 * (i + 1)
    case Scope(i) => 1000 * (i + 1) + 1
    case ContractCount(i) => 1000 * (i + 1) + 2
    case Contract(i, j) => 1000 * (i + 1) + 3 + j
    case GroupCount(i) => 1000 * (i + 1) + 500
    case Group(i, j) => 1000 * (i + 1) + 501 + j
    case AttributeCount => 1_000_000
    case Attribute(i) => 1_000_001 + i
    case ScriptLength => 2_000_000
    case Script(_) => 2_000_001
    case Done => 2_000_002
  }

  /** The location that the field `p` fills. */
  ghost function Cell(p: Phase, tx: Tx): int
    requires Shape(tx)
  {
    match p
    case Version => tx.version
    case Nonce => tx.nonce
    case SystemFee => tx.systemFee
    case NetworkFee => tx.networkFee
    case ValidUntil => tx.validUntil
    case SignerCount => tx.signersSize
    case Account(i) => if i < MAX_TX_SIGNERS then tx.signers[i].account else 0
    case Scope(i) => if i < MAX_TX_SIGNERS then tx.signers[i].scope else 0
    case ContractCount(i) => if i < MAX_TX_SIGNERS then tx.signers[i].contractsSize else 0
    case Contract(i, j) =>
      if i < MAX_TX_SIGNERS && j < MAX_SIGNER_ALLOWED_CONTRACTS then tx.signers[i].contracts[j] else 0
    case GroupCount(i) => if i < MAX_TX_SIGNERS then tx.signers[i].groupsSize else 0
    case Group(i, j) =>
      if i < MAX_TX_SIGNERS && j < MAX_SIGNER_ALLOWED_GROUPS then tx.signers[i].groups[j] else 0
    case AttributeCount => tx.attributesSize
    case Attribute(i) => if i < MAX_ATTRIBUTES then tx.attributes[i] else 0
    case ScriptLength => tx.script
    case Script(_) => 0
    case Done => 0
  }

  /** `x` and `y` hold the same at every location below the rank. */
  ghost predicate Agree(rank: nat, x: Tx, y: Tx)
    requires Shape(x) && Shape(y)
  {
    forall q :: Rank(q) < rank ==> Cell(q, x) == Cell(q, y)
  }

  lemma CellWrite(p: Phase, v: int, tx: Tx)
    requires ValidAt(p, tx) && InRange(p, v) && !p.Script? && !p.Done?
    ensures Cell(p, Write(p, v, tx)) == v
    ensures forall q :: q != p ==> Cell(q, Write(p, v, tx)) == Cell(q, tx)
  {
    forall q | q != p ensures Cell(q, Write(p, v, tx)) == Cell(q, tx) {
      OtherCell(p, q, v, tx);
    }
  }

  lemma OtherCell(p: Phase, q: Phase, v: int, tx: Tx)
    requires ValidAt(p, tx) && InRange(p, v) && !p.Script? && !p.Done? && q != p
    ensures Cell(q, Write(p, v, tx)) == Cell(q, tx)
  {
  }

  /** Storing what is already there changes nothing. */
  lemma WriteSame(p: Phase, tx: Tx)
    requires ValidAt(p, tx) && InRange(p, Cell(p, tx)) && !p.Script?
    ensures Write(p, Cell(p, tx), tx) == tx
  {
    var t := Write(p, Cell(p, tx), tx);
    match p
    case Account(i) => assert t.signers == tx.signers;
    case Scope(i) => assert t.signers == tx.signers;
    case ContractCount(i) => assert t.signers == tx.signers;
    case Contract(i, j) => assert t.signers[i].contracts == tx.signers[i].contracts; assert t.signers == tx.signers;
    case GroupCount(i) => assert t.signers == tx.signers;
    case Group(i, j) => assert t.signers[i].groups == tx.signers[i].groups; assert t.signers == tx.signers;
    case Attribute(i) => assert t.attributes == tx.attributes;
    case _ =>
  }

  /** The second store to a location is the one that counts. */
  lemma WriteTwice(p: Phase, v: int, w: int, tx: Tx)
    requires InRange(p, v) && InRange(p, w) && ValidAt(p, tx) && ValidAt(p, Write(p, w, tx))
    ensures Write(p, v, Write(p, w, tx)) == Write(p, v, tx)
  {
    var t, u := Write(p, v, Write(p, w, tx)), Write(p, v, tx);
    match p
    case Contract(i, j) => assert t.signers[i].contracts == u.signers[i].contracts; assert t.signers == u.signers;
    case Group(i, j) => assert t.signers[i].groups == u.signers[i].groups; assert t.signers == u.signers;
    case Attribute(i) => assert t.attributes == u.attributes;
    case _ => assert t.signers == u.signers;
  }

  /** A step moves forward. */
  lemma FollowingForward(p: Phase, n: nat, tx: Tx)
    requires Shape(tx) && ValidIndex(p) && !p.Done?
    ensures Rank(p) < Rank(Following(p, n, tx))
  {
  }

  /** A step writes no location before its field. */
  lemma StepWrites(p: Phase, d: bytes, off: nat, tx: Tx)
    requires ValidAt(p, tx) && Complete(p, d, off) && !p.Done?
    ensures Agree(Rank(p), tx, Accept(p, d, off, tx).tx)
    ensures Accept(p, d, off, tx).Next? ==> Rank(p) < Rank(Accept(p, d, off, tx).phase)
  {
    hide Objection, Following, Shape, Recognise;
    if !p.Script? {
      CellWrite(p, Stored(p, d, off), tx);
    }
    var v := Accept(p, d, off, tx);
    if v.Next? && !p.Script? {
      FollowingForward(p, if p.ScriptLength? then Number(p, d, off) else 0, v.tx);
    }
  }

  lemma CutWrites(p: Phase, off: nat, tx: Tx)
    requires ValidAt(p, tx)
    ensures Agree(Rank(p), tx, OnCut(p, off, tx))
  {
    if p in {Version, Nonce, SystemFee, NetworkFee, ValidUntil} {
      CellWrite(p, 0, tx);
    } else if p.Account? || p.Contract? || p.Group? {
      CellWrite(p, off, tx);
    }
  }

  /** What was written before the current field is still there when the parse ends. */
  lemma {:induction false} RunKeeps(d: bytes, s: State)
    requires Valid(d, s)
    ensures Agree(Rank(s.phase), s.tx, Run(d, s).tx)
    decreases |d| - s.off
  {
    hide Run, Accept, OnCut;
    Unfold(d, s);
    if s.phase.Done? {
    } else if IsCut(d, s) {
      CutWrites(s.phase, s.off, s.tx);
    } else {
      var end := s.off + FieldLen(d, s.off, s.phase);
      StepWrites(s.phase, d[..end], s.off, s.tx);
      match Judge(d, s)
      case Refuse(_, _) =>
      case Next(p, t) => RunKeeps(d, State(p, end, t));
    }
  }

  // ---- parsing again ----

  lemma Uses(rank: nat, i: nat, x: Tx, y: Tx)
    requires Shape(x) && Shape(y) && Agree(rank, x, y) && rank >= 6 && i < MAX_TX_SIGNERS
    ensures x.signersSize == y.signersSize
    ensures rank > Rank(Scope(i)) ==> x.signers[i].scope == y.signers[i].scope
    ensures rank > Rank(ContractCount(i)) ==> x.signers[i].contractsSize == y.signers[i].contractsSize
    ensures rank > Rank(GroupCount(i)) ==> x.signers[i].groupsSize == y.signers[i].groupsSize
    ensures rank > Rank(AttributeCount) ==> x.attributesSize == y.attributesSize
  {
    assert Cell(SignerCount, x) == Cell(SignerCount, y);
    assert rank > Rank(Scope(i)) ==> Cell(Scope(i), x) == Cell(Scope(i), y);
    assert rank > Rank(ContractCount(i)) ==> Cell(ContractCount(i), x) == Cell(ContractCount(i), y);
    assert rank > Rank(GroupCount(i)) ==> Cell(GroupCount(i), x) == Cell(GroupCount(i), y);
    assert rank > Rank(AttributeCount) ==> Cell(AttributeCount, x) == Cell(AttributeCount, y);
  }

  lemma SameValidity(p: Phase, x: Tx, y: Tx)
    requires ValidAt(p, x) && ValidIndex(p) && Shape(y) && !p.Done? && Agree(Rank(p) + 1, x, y)
    ensures ValidAt(p, y)
  {
    hide Agree;
    if p.Attribute? || p.AttributeCount? {
      Uses(Rank(p) + 1, 0, x, y);
    } else if p.Account? || p.Scope? || p.ContractCount? || p.Contract? || p.GroupCount? || p.Group? {
      Uses(Rank(p) + 1, p.i, x, y);
    }
  }

  /** What follows a signer's field depends on that signer's flags and counts. */
  lemma SameFollowing(p: Phase, i: nat, n: nat, x: Tx, y: Tx)
    requires Shape(x) && Shape(y) && i < MAX_TX_SIGNERS && ValidIndex(p)
    requires p.Account? || p.Scope? || p.ContractCount? || p.Contract? || p.GroupCount? || p.Group?
    requires p.i == i && x.signersSize == y.signersSize
    requires !p.Account? ==> x.signers[i].scope == y.signers[i].scope
    requires p.ContractCount? || p.Contract? ==> x.signers[i].contractsSize == y.signers[i].contractsSize
    requires p.GroupCount? || p.Group? ==> x.signers[i].groupsSize == y.signers[i].groupsSize
    ensures Following(p, n, x) == Following(p, n, y)
  {
    hide HasFlag, Shape;
  }

  /** Where the parser is, and where it goes next, depends on earlier locations only. */
  lemma SamePlace(p: Phase, n: nat, x: Tx, y: Tx)
    requires ValidAt(p, x) && ValidIndex(p) && Shape(y) && !p.Done? && Agree(Rank(p) + 1, x, y)
    ensures ValidAt(p, y) && Following(p, n, x) == Following(p, n, y)
  {
    hide Agree, Following, HasFlag, InRange, SignerShape, ValidIndex;
    SameValidity(p, x, y);
    if p.Account? || p.Scope? || p.ContractCount? || p.Contract? || p.GroupCount? || p.Group? {
      SamePlaceInSigner(p, n, x, y);
    } else {
      SamePlaceElsewhere(p, n, x, y);
    }
  }

  lemma SamePlaceInSigner(p: Phase, n: nat, x: Tx, y: Tx)
    requires ValidAt(p, x) && ValidIndex(p) && Shape(y) && Agree(Rank(p) + 1, x, y)
    requires p.Account? || p.Scope? || p.ContractCount? || p.Contract? || p.GroupCount? || p.Group?
    ensures Following(p, n, x) == Following(p, n, y)
  {
    hide Agree, HasFlag, Shape, InRange, Following;
    Uses(Rank(p) + 1, p.i, x, y);
    SameFollowing(p, p.i, n, x, y);
  }

  lemma SamePlaceElsewhere(p: Phase, n: nat, x: Tx, y: Tx)
    requires Shape(x) && ValidIndex(p) && Shape(y) && Agree(Rank(p) + 1, x, y)
    requires !(p.Account? || p.Scope? || p.ContractCount? || p.Contract? || p.GroupCount? || p.Group?)
    ensures Following(p, n, x) == Following(p, n, y)
  {
    hide Agree, HasFlag, Shape, InRange;
    if p.AttributeCount? || p.Attribute? {
      Uses(Rank(p) + 1, 0, x, y);
    }
  }

  /** So does the verdict, attributes apart. */
  lemma SameObjection(p: Phase, n: int, d: bytes, off: nat, x: Tx, y: Tx)
    requires ValidAt(p, x) && ValidAt(p, y) && InRange(p, n) && !p.Attribute? && Agree(Rank(p), x, y)
    ensures Objection(p, n, d, off, x) == Objection(p, n, d, off, y)
  {
    if p.Account? {
      forall s | 0 <= s < p.i ensures x.signers[s].account == y.signers[s].account {
        assert Cell(Account(s), x) == Cell(Account(s), y);
      }
    }
  }

  /** A field that was accepted, replayed on a struct that already holds what it stores:
      nothing changes, except that an attribute that is already there is refused. */
  lemma Replay(p: Phase, d: bytes, off: nat, x: Tx, y: Tx)
    requires ValidAt(p, x) && Complete(p, d, off) && !p.Done? && !p.Script?
    requires Accept(p, d, off, x).Next? && Shape(y)
    requires Agree(Rank(Accept(p, d, off, x).phase), Accept(p, d, off, x).tx, y)
    ensures ValidAt(p, y)
    ensures var v := Accept(p, d, off, y);
            if p.Attribute? then v.Refuse? else v == Next(Accept(p, d, off, x).phase, y)
  {
    var n, v := Number(p, d, off), Accept(p, d, off, x);
    StepWrites(p, d, off, x);
    CellWrite(p, Stored(p, d, off), x);
    SamePlace(p, if p.ScriptLength? then n else 0, v.tx, y);
    assert Cell(p, y) == Stored(p, d, off);
    if p.Attribute? {
      assert y.attributes[p.i] in y.attributes[..y.attributesSize];
    } else {
      WriteSame(p, y);
      SameObjection(p, n, d, off, x, y);
    }
  }

  /** A refused field is refused again. */
  lemma RefusedAgain(p: Phase, d: bytes, off: nat, x: Tx)
    requires ValidAt(p, x) && Complete(p, d, off) && !p.Done?
    requires Accept(p, d, off, x).Refuse? && ValidAt(p, Accept(p, d, off, x).tx)
    ensures Accept(p, d, off, Accept(p, d, off, x).tx).Refuse?
  {
    var n, y := Number(p, d, off), Accept(p, d, off, x).tx;
    StepWrites(p, d, off, x);
    if !p.Attribute? {
      SameObjection(p, n, d, off, x, y);
    }
  }

  /** A field that was cut before leaves no trace once it is complete. */
  lemma CutForgotten(p: Phase, d: bytes, off: nat, x: Tx)
    requires ValidAt(p, x) && ValidAt(p, OnCut(p, off, x)) && Complete(p, d, off) && !p.Done?
    requires Accept(p, d, off, OnCut(p, off, x)).Next?
    ensures Accept(p, d, off, OnCut(p, off, x)) == Accept(p, d, off, x)
  {
    var y := OnCut(p, off, x);
    if y != x {
      CutWrites(p, off, x);
      SameObjection(p, Number(p, d, off), d, off, x, y);
      if p in {Version, Nonce, SystemFee, NetworkFee, ValidUntil} {
        WriteTwice(p, Stored(p, d, off), 0, x);
      } else {
        WriteTwice(p, Stored(p, d, off), off, x);
      }
    }
  }

  /** After a failed parse of `d`, a successful parse of a longer input into the struct it
      left gives what it would have given without the failed attempt. */
  lemma {:induction false} RunRetry(d: bytes, D: bytes, s: State)
    requires d <= D && Valid(d, s) && Run(d, s).status != ParsingOk
    requires ValidAt(s.phase, Run(d, s).tx)
    requires Run(D, State(s.phase, s.off, Run(d, s).tx)).status == ParsingOk
    ensures Run(D, State(s.phase, s.off, Run(d, s).tx)) == Run(D, s)
    decreases |d| - s.off
  {
    hide Run, Accept, OnCut;
    var y := Run(d, s).tx;
    var sy := State(s.phase, s.off, y);
    Unfold(d, s);
    Unfold(D, s);
    Unfold(D, sy);
    if !s.phase.Done? && IsCut(d, s) {
      CutIsNotOk(D, sy);
      CutForgotten(s.phase, D[..s.off + FieldLen(D, s.off, s.phase)], s.off, s.tx);
    } else if !s.phase.Done? {
      RetryStep(d, D, s);
    }
  }

  /** The case of `RunRetry` in which the failed attempt had the whole field. */
  lemma {:induction false} RetryStep(d: bytes, D: bytes, s: State)
    requires d <= D && Valid(d, s) && Run(d, s).status != ParsingOk && !s.phase.Done? && !IsCut(d, s)
    requires ValidAt(s.phase, Run(d, s).tx)
    requires Run(D, State(s.phase, s.off, Run(d, s).tx)).status == ParsingOk
    ensures Run(D, State(s.phase, s.off, Run(d, s).tx)) == Run(D, s)
    decreases |d| - s.off, 0
  {
    hide Run, Accept;
    var p, end, y := s.phase, s.off + FieldLen(d, s.off, s.phase), Run(d, s).tx;
    var sy := State(p, s.off, y);
    FieldExtends(d, D, s);
    FieldExtends(d, D, sy);
    Unfold(d, s);
    Unfold(D, s);
    Unfold(D, sy);
    if p.Script? {
      ScriptEnds(d[..end], s.off, s.tx, p.len);
      ScriptEnds(d[..end], s.off, y, p.len);
      Unfold(d, State(Done, end, Judge(d, s).tx));
      Unfold(D, State(Done, end, Judge(D, sy).tx));
    } else if Judge(d, s).Refuse? {
      RefusedAgain(p, d[..end], s.off, s.tx);
    } else {
      var next := State(Judge(d, s).phase, end, Judge(d, s).tx);
      RunKeeps(d, next);
      Replay(p, d[..end], s.off, s.tx, y);
      RunRetry(d, D, next);
    }
  }

  lemma ScriptEnds(d: bytes, off: nat, tx: Tx, len: pos)
    requires ValidAt(Script(len), tx) && Complete(Script(len), d, off)
    ensures Accept(Script(len), d, off, tx).Next? && Accept(Script(len), d, off, tx).phase == Done
  {
  }

  lemma Retry(d: bytes, D: bytes, tx: Tx)
    requires d <= D && Shape(tx) && Deserialize(d, tx).status != ParsingOk
    requires Deserialize(D, Deserialize(d, tx).tx).status == ParsingOk
    ensures Deserialize(D, Deserialize(d, tx).tx) == Deserialize(D, tx)
  {
    if |d| <= MAX_TRANSACTION_LEN {
      RunRetry(d, D, State(Version, 0, tx));
    }
  }

  /** Any later success that extends `d` is the success of a parse into a zeroed struct. */
  ghost predicate Clean(d: bytes, tx: Tx)
    requires Shape(tx)
  {
    forall D :: d <= D && Deserialize(D, tx).status == ParsingOk ==> Deserialize(D, tx) == Deserialize(D, ZeroTx())
  }

  /** Failed attempts on growing inputs keep the struct clean. */
  lemma RetryClean(d: bytes, e: bytes, tx: Tx)
    requires Shape(tx) && Clean(d, tx) && d <= e && Deserialize(e, tx).status != ParsingOk
    ensures Clean(e, Deserialize(e, tx).tx)
  {
    hide Deserialize;
    var y := Deserialize(e, tx).tx;
    forall D | e <= D && Deserialize(D, y).status == ParsingOk
      ensures Deserialize(D, y) == Deserialize(D, ZeroTx())
    {
      Retry(e, D, tx);
    }
  }

  /** The struct still holds, at every location, what an accepted input stored. */
  ghost predicate Remembers(d: bytes, tx: Tx)
    requires Shape(tx)
  {
    Agree(Rank(Done), Deserialize(d, ZeroTx()).tx, tx)
  }

  /** Longer inputs are refused by a struct that remembers an accepted input, and it goes on
      remembering it. */
  lemma {:induction false} RunRemembers(d: bytes, D: bytes, s: State, y: Tx)
    requires d <= D && |d| < |D| && Valid(d, s) && Run(d, s).status == ParsingOk
    requires ValidAt(s.phase, y) && Agree(Rank(Done), Run(d, s).tx, y)
    ensures var o := Run(D, State(s.phase, s.off, y));
            o.status != ParsingOk && Agree(Rank(Done), Run(d, s).tx, o.tx)
    decreases |d| - s.off
  {
    hide Run, Judge, Accept, Agree;
    var p, sy := s.phase, State(s.phase, s.off, y);
    Unfold(d, s);
    Unfold(D, sy);
    CutIsNotOk(d, s);
    if p.Script? {
      ScriptRemembers(d, D, s, y);
    } else if !p.Done? {
      var end := s.off + FieldLen(d, s.off, p);
      var next := State(Judge(d, s).phase, end, Judge(d, s).tx);
      RunKeeps(d, next);
      FieldRemembers(d, D, s, y);
      if !p.Attribute? {
        RunRemembers(d, D, next, y);
      }
    }
  }

  /** The field is replayed without effect, or refused without effect. */
  lemma FieldRemembers(d: bytes, D: bytes, s: State, y: Tx)
    requires d <= D && Valid(d, s) && !s.phase.Script? && !s.phase.Done? && !IsCut(d, s) && Judge(d, s).Next?
    requires ValidAt(s.phase, y)
    requires var v := Judge(d, s);
             var end := Run(d, State(v.phase, s.off + FieldLen(d, s.off, s.phase), v.tx)).tx;
             Agree(Rank(v.phase), v.tx, end) && Agree(Rank(Done), end, y)
    ensures var sy := State(s.phase, s.off, y);
            && !IsCut(D, sy) && FieldLen(D, s.off, s.phase) == FieldLen(d, s.off, s.phase)
            && (if s.phase.Attribute? then Judge(D, sy).Refuse? && Judge(D, sy).tx == y
                else Judge(D, sy) == Next(Judge(d, s).phase, y))
  {
    hide Run, Accept, FieldLen, Agree, Rank, SignerShape;
    var p, sy := s.phase, State(s.phase, s.off, y);
    var end := s.off + FieldLen(d, s.off, p);
    FieldExtends(d, D, s);
    FieldExtends(d, D, sy);
    ContentIs(d, s);
    var v := Judge(d, s);
    RankBelowDone(v.phase, v.tx);
    AgreeChain(Rank(v.phase), v.tx, Run(d, State(v.phase, end, v.tx)).tx, y);
    Replay(p, d[..end], s.off, s.tx, y);
    if p.Attribute? {
      RefusedAttribute(d[..end], s.off, y, p.i);
    }
  }

  lemma ScriptRemembers(d: bytes, D: bytes, s: State, y: Tx)
    requires d <= D && |d| < |D| && Valid(d, s) && Run(d, s).status == ParsingOk
    requires s.phase.Script? && !IsCut(d, s) && ValidAt(s.phase, y) && Agree(Rank(Done), Run(d, s).tx, y)
    ensures var o := Run(D, State(s.phase, s.off, y));
            o.status != ParsingOk && Agree(Rank(Done), Run(d, s).tx, o.tx)
  {
    hide *;
    var sy, n := State(s.phase, s.off, y), s.phase.len;
    ScriptThere(d, D, s, y);
    var x := ScriptDone(d, s, n);
    var z := ScriptDone(D, sy, n);
    RecogniseCells(Content(D, sy), y.(scriptSize := n), y);
    AgreeChain(Rank(Done), x, y, z);
  }

  lemma ScriptThere(d: bytes, D: bytes, s: State, y: Tx)
    requires d <= D && Valid(d, s) && s.phase.Script? && !IsCut(d, s) && ValidAt(s.phase, y)
    ensures Valid(D, State(s.phase, s.off, y)) && !IsCut(D, State(s.phase, s.off, y))
    ensures s.off + s.phase.len <= |d| && Shape(y) && Shape(y.(scriptSize := s.phase.len))
  {
  }

  /** Reading the script ends the parse. */
  lemma ScriptDone(d: bytes, s: State, n: pos) returns (tx: Tx)
    requires Valid(d, s) && s.phase == Script(n) && !IsCut(d, s)
    ensures tx == Recognise(Content(d, s), s.tx.(scriptSize := n)) && Shape(tx)
    ensures Run(d, s).tx == tx
    ensures Run(d, s).status == if s.off + n == |d| then ParsingOk else InvalidLengthError
  {
    hide Run, Judge, Recognise;
    ScriptVerdict(d, s, n);
    tx := Judge(d, s).tx;
    Unfold(d, s);
    Unfold(d, State(Done, s.off + n, tx));
  }

  lemma AgreeChain(rank: nat, x: Tx, y: Tx, z: Tx)
    requires Shape(x) && Shape(y) && Shape(z) && rank <= Rank(Done) && Agree(rank, x, y) && Agree(Rank(Done), y, z)
    ensures Agree(rank, x, z)
  {
    hide Cell;
    forall q | Rank(q) < rank ensures Cell(q, x) == Cell(q, z) {
      assert Cell(q, x) == Cell(q, y) && Cell(q, y) == Cell(q, z);
    }
  }

  lemma RankBelowDone(p: Phase, tx: Tx)
    requires ValidAt(p, tx)
    ensures Rank(p) <= Rank(Done)
  {
  }

  lemma RecogniseCells(script: bytes, x: Tx, y: Tx)
    requires Shape(x) && Shape(y) && x == y.(scriptSize := x.scriptSize)
    ensures Agree(Rank(Done), y, Recognise(script, x))
  {
    hide Recognise;
  }

  lemma RefusedAttribute(d: bytes, off: nat, tx: Tx, i: nat)
    requires ValidAt(Attribute(i), tx) && Complete(Attribute(i), d, off)
    requires Accept(Attribute(i), d, off, tx).Refuse?
    ensures Accept(Attribute(i), d, off, tx).tx == tx
  {
  }

  lemma LongerIsRefused(d: bytes, D: bytes, y: Tx)
    requires d <= D && |d| < |D| && Deserialize(d, ZeroTx()).status == ParsingOk && Shape(y) && Remembers(d, y)
    ensures Deserialize(D, y).status != ParsingOk && Remembers(d, Deserialize(D, y).tx)
  {
    hide Run;
    if |D| <= MAX_TRANSACTION_LEN {
      RunRemembers(d, D, State(Version, 0, ZeroTx()), y);
    }
  }
}
