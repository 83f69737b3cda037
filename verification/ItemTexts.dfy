/** What the texts of the signer items tell about the bytes that are signed. */
module ItemTexts {
  import opened Bytes
  import opened Transactions
  import opened Wire
  import opened UsedStruct
  import opened ReviewItems

  /** The bytes `b` stand in `d` at `a`. */
  predicate LeadsTo(d: bytes, a: nat, b: bytes) {
    a + |b| <= |d| && d[a..a + |b|] == b
  }

  /** The items that the transaction has: three for every signer, and one for every contract
      and every group. */
  predicate ItemOf(w: Wire, p: Stop) {
    p.s < |w.signers| &&
    match p
    case SignerStop(_) => true
    case AccountStop(_) => true
    case ScopeStop(_) => true
    case ContractStop(s, j) => j < |w.signers[s].contracts|
    case GroupStop(s, j) => j < |w.signers[s].groups|
    case _ => false
  }

  /** The text tells that item: the numbers are the item's own, and the bytes that are shown,
      which are those of `d` at the place in the text, are the item's. */
  predicate TextTells(d: bytes, w: Wire, p: Stop, text: Text)
    requires ItemOf(w, p)
  {
    var g := w.signers[p.s];
    match p
    case SignerStop(s) => text == SignerText(s + 1, |w.signers|)
    case AccountStop(_) => text.AccountText? && LeadsTo(d, text.account, g.account)
    case ScopeStop(_) => text == ScopeText(g.scope)
    case ContractStop(_, j) =>
      text.ContractText? && text.number == j + 1 && text.of == |g.contracts|
      && LeadsTo(d, text.contract, g.contracts[j])
    case GroupStop(_, j) =>
      text.GroupText? && text.number == j + 1 && text.of == |g.groups| && LeadsTo(d, text.group, g.groups[j])
    case _ => false
  }

  lemma ListsShown(d: bytes, tx: Tx, w: Wire, s: nat)
    requires Displayable(tx) && ValidWire(w) && Shows(d, tx, w) && s < |w.signers|
    ensures |w.signers| == tx.signersSize
    ensures var g, t := w.signers[s], tx.signers[s];
            && LeadsTo(d, t.account, g.account) && t.scope == g.scope
            && (g.contracts != [] ==> t.contractsSize == |g.contracts|)
            && (g.groups != [] ==> t.groupsSize == |g.groups|)
            && (forall j :: 0 <= j < |g.contracts| ==> LeadsTo(d, t.contracts[j], g.contracts[j]))
            && (forall j :: 0 <= j < |g.groups| ==> LeadsTo(d, t.groups[j], g.groups[j]))
  {
    hide HasFlag;
    var g, t := w.signers[s], tx.signers[s];
    assert ValidSigner(g) && ShowsSigner(d, t, g);
    if g.contracts != [] { PointersLead(d, t.contracts, g.contracts, UINT160_LEN); }
    if g.groups != [] { PointersLead(d, t.groups, g.groups, ECPOINT_LEN); }
  }

  lemma PointersLead(d: bytes, pointers: seq<nat>, cs: seq<bytes>, n: nat)
    requires PointTo(d, pointers, 0, cs, n) && AllOfLength(cs, n)
    ensures forall j :: 0 <= j < |cs| ==> LeadsTo(d, pointers[j], cs[j])
  {
    forall j | 0 <= j < |cs| ensures LeadsTo(d, pointers[j], cs[j]) {
      assert At(d, pointers[j], n) == cs[j - 0];
    }
  }

  /** Every item of the transaction is a stop of the list, and its text tells that item. */
  lemma RenderTells(d: bytes, tx: Tx, w: Wire, p: Stop)
    requires Displayable(tx) && ValidWire(w) && Shows(d, tx, w) && ItemOf(w, p)
    ensures p.s < tx.signersSize && ValidStop(tx, p) && IsItem(p) && TextTells(d, w, p, Render(tx, p))
  {
    hide ValidWire, Shows, LeadsTo;
    ListsShown(d, tx, w, p.s);
  }

  /** Whatever transaction the bytes are, and wherever the struct says that they are: if it has
      this item, the text tells it. */
  ghost predicate TellsItem(tx: Tx, p: Stop, text: Text)
    requires Shape(tx)
  {
    forall d, w | ValidWire(w) && Shows(d, tx, w) && ItemOf(w, p) :: TextTells(d, w, p, text)
  }

  lemma RenderTellsItem(tx: Tx, p: Stop)
    requires Displayable(tx) && ValidStop(tx, p)
    ensures TellsItem(tx, p, Render(tx, p))
  {
    hide ValidWire, Shows, ItemOf, TextTells, Render;
    forall d, w | ValidWire(w) && Shows(d, tx, w) && ItemOf(w, p) ensures TextTells(d, w, p, Render(tx, p)) {
      RenderTells(d, tx, w, p);
    }
  }

  /** The list has every item of the transaction; and no other one, unless the size of a list
      from before stands where the scope asks for none. */
  lemma ListTells(d: bytes, tx: Tx, w: Wire, p: Stop)
    requires Displayable(tx) && ValidWire(w) && Shows(d, tx, w)
    ensures ItemOf(w, p) ==> p in AllItems(tx)
    ensures NoOtherLists(tx, w) ==> (p in AllItems(tx) <==> ItemOf(w, p))
  {
    hide AllItems, Shows, ValidSigner, LeadsTo, Render, TextTells;
    ListedExactly(tx, p);
    if ItemOf(w, p) { RenderTells(d, tx, w, p); }
    if NoOtherLists(tx, w) && p in AllItems(tx) {
      SizesKnown(d, tx, w, p.s);
    }
  }

  lemma SizesKnown(d: bytes, tx: Tx, w: Wire, s: nat)
    requires Displayable(tx) && ValidWire(w) && Shows(d, tx, w) && NoOtherLists(tx, w) && s < tx.signersSize
    ensures s < |w.signers| && tx.signers[s].contractsSize == |w.signers[s].contracts|
            && tx.signers[s].groupsSize == |w.signers[s].groups|
  {
    hide HasFlag, PointTo;
    assert ValidSigner(w.signers[s]) && ShowsSigner(d, tx.signers[s], w.signers[s]);
    assert EmptyIfAbsent(tx.signers[s], w.signers[s]);
  }
}
