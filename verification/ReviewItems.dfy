/** The signer screens of a review, as one flat list, and the local moves on it. */
module ReviewItems {
  import opened Bytes
  import opened Transactions
  import opened Parsing
  import opened Wire
  import opened UsedStruct

  /** A place in the list. `Begin` and `Finish` are the places before and after the items of
      a signer; only those before the first and after the last signer are stops of the list. */
  datatype Stop =
    | Begin(s: nat)
    | SignerStop(s: nat) | AccountStop(s: nat) | ScopeStop(s: nat)
    | ContractStop(s: nat, j: nat) | GroupStop(s: nat, j: nat)
    | Finish(s: nat)

  /** Whether the transaction may be put to approval at all: both front ends ask this. */
  predicate Allowed(tx: Tx, scriptsAllowed: bool) {
    tx.isTransfer || tx.isVote || scriptsAllowed
  }

  /** What is put on the screen: which of how many, and the bytes that are shown. */
  datatype Text =
    | NoText
    | SignerText(number: nat, of: nat)
    | AccountText(account: nat)
    | ScopeText(scope: u8)
    | ContractText(number: nat, of: nat, contract: nat)
    | GroupText(number: nat, of: nat, group: nat)

  /** What the screens rely on: at least one signer, and counts within the arrays. */
  ghost predicate Displayable(tx: Tx) {
    && Shape(tx) && 1 <= tx.signersSize <= MAX_TX_SIGNERS
    && forall s :: 0 <= s < tx.signersSize ==>
         tx.signers[s].contractsSize <= MAX_SIGNER_ALLOWED_CONTRACTS
         && tx.signers[s].groupsSize <= MAX_SIGNER_ALLOWED_GROUPS
  }

  /** Every accepted transaction can be displayed, whatever the struct held before, as long as
      its counts were within the arrays. */
  lemma ParsedIsDisplayable(d: bytes, before: Tx)
    requires Bounded(before) && Deserialize(d, before).status == ParsingOk
    ensures Displayable(Deserialize(d, before).tx)
  {
    hide Deserialize, Print, ShowsSigner, ClassifiedFrom, Holds;
    ParseKeepsBounds(d, before);
    var w := HeldFrom(d, before);
  }

  ghost predicate ValidStop(tx: Tx, p: Stop)
    requires Displayable(tx)
  {
    p.s < tx.signersSize &&
    match p
    case Begin(s) => s == 0
    case ContractStop(s, j) => j < tx.signers[s].contractsSize
    case GroupStop(s, j) => j < tx.signers[s].groupsSize
    case Finish(s) => s == tx.signersSize - 1
    case _ => true
  }

  predicate IsItem(p: Stop) {
    !p.Begin? && !p.Finish?
  }

  // ---- the flat list ----

  function Block(tx: Tx, s: nat): (b: seq<Stop>)
    requires s < |tx.signers|
    ensures |b| == 3 + tx.signers[s].contractsSize + tx.signers[s].groupsSize
  {
    [SignerStop(s), AccountStop(s), ScopeStop(s)]
    + (seq(tx.signers[s].contractsSize, (j: nat) => ContractStop(s, j))
       + seq(tx.signers[s].groupsSize, (j: nat) => GroupStop(s, j)))
  }

  /** The items of the first `n` signers. */
  function FirstItems(tx: Tx, n: nat): seq<Stop>
    requires n <= |tx.signers|
  {
    if n == 0 then [] else FirstItems(tx, n - 1) + Block(tx, n - 1)
  }

  function AllItems(tx: Tx): seq<Stop>
    requires tx.signersSize <= |tx.signers|
  {
    FirstItems(tx, tx.signersSize)
  }

  function Stops(tx: Tx): seq<Stop>
    requires 1 <= tx.signersSize <= |tx.signers|
  {
    [Begin(0)] + AllItems(tx) + [Finish(tx.signersSize - 1)]
  }

  /** The index of a stop in the list. */
  function Position(tx: Tx, p: Stop): nat
    requires 1 <= tx.signersSize <= |tx.signers| && p.s < tx.signersSize
  {
    var base := 1 + |FirstItems(tx, p.s)|;
    match p
    case Begin(_) => 0
    case SignerStop(_) => base
    case AccountStop(_) => base + 1
    case ScopeStop(_) => base + 2
    case ContractStop(s, j) => base + 3 + j
    case GroupStop(s, j) => base + 3 + tx.signers[s].contractsSize + j
    case Finish(_) => 1 + |AllItems(tx)|
  }

  lemma {:induction false} ItemsMonotone(tx: Tx, m: nat, n: nat)
    requires m <= n <= |tx.signers|
    ensures FirstItems(tx, m) <= FirstItems(tx, n)
  {
    if m < n {
      ItemsMonotone(tx, m, n - 1);
    }
  }

  lemma InBlock(tx: Tx, p: Stop)
    requires Displayable(tx) && ValidStop(tx, p) && IsItem(p)
    ensures var k := Position(tx, p) - 1 - |FirstItems(tx, p.s)|; 0 <= k < |Block(tx, p.s)| && Block(tx, p.s)[k] == p
  {
  }

  /** The item at its position. */
  lemma StopAtPosition(tx: Tx, p: Stop)
    requires Displayable(tx) && ValidStop(tx, p)
    ensures Position(tx, p) < |Stops(tx)| && Stops(tx)[Position(tx, p)] == p
  {
    if IsItem(p) {
      InBlock(tx, p);
      ItemsMonotone(tx, p.s + 1, tx.signersSize);
      Located(tx, p, Position(tx, p) - 1 - |FirstItems(tx, p.s)|);
    }
  }

  lemma Located(tx: Tx, p: Stop, k: nat)
    requires Displayable(tx) && p.s < tx.signersSize && k < |Block(tx, p.s)| && Block(tx, p.s)[k] == p
    requires FirstItems(tx, p.s + 1) <= AllItems(tx)
    ensures 1 + |FirstItems(tx, p.s)| + k < |Stops(tx)| - 1 && Stops(tx)[1 + |FirstItems(tx, p.s)| + k] == p
  {
    assert FirstItems(tx, p.s + 1)[|FirstItems(tx, p.s)| + k] == p;
    assert AllItems(tx)[|FirstItems(tx, p.s)| + k] == p;
  }

  lemma {:induction false} ListedItem(tx: Tx, n: nat, k: nat)
    requires Displayable(tx) && n <= tx.signersSize && k < |FirstItems(tx, n)|
    ensures var p := FirstItems(tx, n)[k]; IsItem(p) && ValidStop(tx, p) && Position(tx, p) == k + 1
  {
    if k < |FirstItems(tx, n - 1)| {
      ListedItem(tx, n - 1, k);
    }
  }

  /** Every index of the list is the position of the stop it holds. */
  lemma PositionOfStop(tx: Tx, k: nat)
    requires Displayable(tx) && k < |Stops(tx)|
    ensures ValidStop(tx, Stops(tx)[k]) && Position(tx, Stops(tx)[k]) == k
    ensures 0 < k < |Stops(tx)| - 1 <==> IsItem(Stops(tx)[k])
  {
    if 0 < k < |Stops(tx)| - 1 {
      assert Stops(tx)[k] == AllItems(tx)[k - 1];
      ListedItem(tx, tx.signersSize, k - 1);
    }
  }

  /** The list holds the items of the transaction, and nothing else. */
  lemma ListedExactly(tx: Tx, p: Stop)
    requires Displayable(tx)
    ensures p in AllItems(tx) <==> p.s < tx.signersSize && IsItem(p) && ValidStop(tx, p)
  {
    hide IsItem, ValidStop, Position, Stops;
    if p in AllItems(tx) {
      var k :| 0 <= k < |AllItems(tx)| && AllItems(tx)[k] == p;
      ListedItem(tx, tx.signersSize, k);
      ValidWithin(tx, p);
    }
    if p.s < tx.signersSize && IsItem(p) && ValidStop(tx, p) {
      StopAtPosition(tx, p);
      ItemInside(tx, p);
    }
  }

  lemma ValidWithin(tx: Tx, p: Stop)
    requires Displayable(tx) && ValidStop(tx, p)
    ensures p.s < tx.signersSize
  {
  }

  lemma ItemInside(tx: Tx, p: Stop)
    requires Displayable(tx) && ValidStop(tx, p) && IsItem(p)
    requires Position(tx, p) < |Stops(tx)| && Stops(tx)[Position(tx, p)] == p
    ensures p in AllItems(tx)
  {
    var k := Position(tx, p);
    PositionOfStop(tx, k);
    assert Stops(tx)[k] == AllItems(tx)[k - 1];
  }

  // ---- the order of the list ----

  function Kind(p: Stop): nat {
    match p
    case Begin(_) => 0 case SignerStop(_) => 1 case AccountStop(_) => 2 case ScopeStop(_) => 3
    case ContractStop(_, _) => 4 case GroupStop(_, _) => 5 case Finish(_) => 6
  }

  /** By signer, then by kind, then by number. */
  predicate Precedes(p: Stop, q: Stop) {
    || p.s < q.s
    || (p.s == q.s && Kind(p) < Kind(q))
    || (p.s == q.s && ((p.ContractStop? && q.ContractStop?) || (p.GroupStop? && q.GroupStop?)) && p.j < q.j)
  }

  lemma {:induction false} SignersBelow(tx: Tx, n: nat, k: nat)
    requires n <= |tx.signers| && k < |FirstItems(tx, n)|
    ensures FirstItems(tx, n)[k].s < n
  {
    if k < |FirstItems(tx, n - 1)| {
      SignersBelow(tx, n - 1, k);
    }
  }

  /** The list is in strict order, so everything in it is there once. */
  lemma {:induction false} ItemsOrdered(tx: Tx, n: nat, i: nat, k: nat)
    requires n <= |tx.signers| && i < k < |FirstItems(tx, n)|
    ensures Precedes(FirstItems(tx, n)[i], FirstItems(tx, n)[k])
  {
    hide Precedes;
    var m := |FirstItems(tx, n - 1)|;
    if k < m {
      ItemsOrdered(tx, n - 1, i, k);
    } else if i < m {
      SignersBelow(tx, n - 1, i);
      assert FirstItems(tx, n)[k] == Block(tx, n - 1)[k - m];
      EarlierSigner(FirstItems(tx, n)[i], FirstItems(tx, n)[k]);
    } else {
      BlockOrdered(tx, n - 1, i - m, k - m);
    }
  }

  lemma EarlierSigner(p: Stop, q: Stop)
    requires p.s < q.s
    ensures Precedes(p, q)
  {
  }

  lemma BlockOrdered(tx: Tx, s: nat, i: nat, k: nat)
    requires s < |tx.signers| && i < k < |Block(tx, s)|
    ensures Precedes(Block(tx, s)[i], Block(tx, s)[k])
  {
  }

  // ---- the local moves ----

  function StopAfterGroups(tx: Tx, s: nat): Stop {
    if s + 1 < tx.signersSize then SignerStop(s + 1) else Finish(s)
  }

  function StopAfterContracts(tx: Tx, s: nat): Stop
    requires s < |tx.signers|
  {
    if tx.signers[s].groupsSize > 0 then GroupStop(s, 0) else StopAfterGroups(tx, s)
  }

  function Successor(tx: Tx, p: Stop): Stop
    requires Displayable(tx) && p.s < tx.signersSize
  {
    match p
    case Begin(s) => SignerStop(s)
    case SignerStop(s) => AccountStop(s)
    case AccountStop(s) => ScopeStop(s)
    case ScopeStop(s) => if tx.signers[s].contractsSize > 0 then ContractStop(s, 0) else StopAfterContracts(tx, s)
    case ContractStop(s, j) =>
      if j + 1 < tx.signers[s].contractsSize then ContractStop(s, j + 1) else StopAfterContracts(tx, s)
    case GroupStop(s, j) => if j + 1 < tx.signers[s].groupsSize then GroupStop(s, j + 1) else StopAfterGroups(tx, s)
    case Finish(s) => StopAfterGroups(tx, s)
  }

  function BeforeGroups(tx: Tx, s: nat): Stop
    requires s < |tx.signers|
  {
    if tx.signers[s].contractsSize > 0 then ContractStop(s, tx.signers[s].contractsSize - 1) else ScopeStop(s)
  }

  function BeforeFinish(tx: Tx, s: nat): Stop
    requires s < |tx.signers|
  {
    if tx.signers[s].groupsSize > 0 then GroupStop(s, tx.signers[s].groupsSize - 1) else BeforeGroups(tx, s)
  }

  function Predecessor(tx: Tx, p: Stop): Stop
    requires Displayable(tx) && p.s < tx.signersSize
  {
    match p
    case Begin(s) => p
    case SignerStop(s) => if s == 0 then Begin(0) else BeforeFinish(tx, s - 1)
    case AccountStop(s) => SignerStop(s)
    case ScopeStop(s) => AccountStop(s)
    case ContractStop(s, j) => if j > 0 then ContractStop(s, j - 1) else ScopeStop(s)
    case GroupStop(s, j) => if j > 0 then GroupStop(s, j - 1) else BeforeGroups(tx, s)
    case Finish(s) => BeforeFinish(tx, s)
  }

  lemma BlockLength(tx: Tx, s: nat)
    requires s < |tx.signers|
    ensures |FirstItems(tx, s + 1)| == |FirstItems(tx, s)| + 3 + tx.signers[s].contractsSize + tx.signers[s].groupsSize
  {
  }

  lemma SuccessorStep(tx: Tx, p: Stop)
    requires Displayable(tx) && ValidStop(tx, p) && !p.Finish?
    ensures ValidStop(tx, Successor(tx, p)) && Position(tx, Successor(tx, p)) == Position(tx, p) + 1
  {
    hide FirstItems;
    BlockLength(tx, p.s);
    assert |FirstItems(tx, 0)| == 0 by { NoItems(tx); }
  }

  lemma NoItems(tx: Tx)
    ensures |FirstItems(tx, 0)| == 0
  {
  }

  lemma PredecessorStep(tx: Tx, p: Stop)
    requires Displayable(tx) && ValidStop(tx, p) && !p.Begin?
    ensures ValidStop(tx, Predecessor(tx, p)) && Position(tx, Predecessor(tx, p)) == Position(tx, p) - 1
  {
    hide FirstItems;
    BlockLength(tx, p.s);
    if p.s > 0 {
      BlockLength(tx, p.s - 1);
    } else {
      NoItems(tx);
    }
  }

  /** The local moves are the steps by one along the list. */
  lemma MovesAreSteps(tx: Tx, p: Stop)
    requires Displayable(tx) && ValidStop(tx, p)
    ensures !p.Finish? ==> ValidStop(tx, Successor(tx, p)) && Position(tx, Successor(tx, p)) == Position(tx, p) + 1
    ensures !p.Begin? ==> ValidStop(tx, Predecessor(tx, p)) && Position(tx, Predecessor(tx, p)) == Position(tx, p) - 1
  {
    if !p.Finish? { SuccessorStep(tx, p); }
    if !p.Begin? { PredecessorStep(tx, p); }
  }

  /** Going forward and back, or back and forward, returns to the same stop. */
  lemma MovesInverse(tx: Tx, p: Stop)
    requires Displayable(tx) && ValidStop(tx, p)
    ensures !p.Finish? ==> Predecessor(tx, Successor(tx, p)) == p
    ensures !p.Begin? ==> Successor(tx, Predecessor(tx, p)) == p
  {
    hide Position, Stops;
    MovesAreSteps(tx, p);
    StopAtPosition(tx, p);
    if !p.Finish? {
      MovesAreSteps(tx, Successor(tx, p));
      StopAtPosition(tx, Predecessor(tx, Successor(tx, p)));
    }
    if !p.Begin? {
      MovesAreSteps(tx, Predecessor(tx, p));
      StopAtPosition(tx, Successor(tx, Predecessor(tx, p)));
    }
  }

  /** What a stop shows. */
  function Render(tx: Tx, p: Stop): Text
    requires Displayable(tx) && p.s < tx.signersSize
    requires p.ContractStop? ==> p.j < tx.signers[p.s].contractsSize
    requires p.GroupStop? ==> p.j < tx.signers[p.s].groupsSize
  {
    match p
    case SignerStop(s) => SignerText(s + 1, tx.signersSize)
    case AccountStop(s) => AccountText(tx.signers[s].account)
    case ScopeStop(s) => ScopeText(tx.signers[s].scope)
    case ContractStop(s, j) => ContractText(j + 1, tx.signers[s].contractsSize, tx.signers[s].contracts[j])
    case GroupStop(s, j) => GroupText(j + 1, tx.signers[s].groupsSize, tx.signers[s].groups[j])
    case _ => NoText
  }
}
