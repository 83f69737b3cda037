/** The review of the touch front end: all items in one array, and a few text slots that are
    used over again as the pages are turned. */
module NbglReview {
  import opened Options
  import opened Transactions
  import opened ReviewItems
  import opened ItemTexts
  import opened BaglReview

  const DYN_ITEMS: nat := MAX_TX_SIGNERS * (3 + MAX_SIGNER_ALLOWED_CONTRACTS * 1 + MAX_SIGNER_ALLOWED_GROUPS * 1)

  datatype Label = To | Token | Network | SystemFee | NetworkFee | TotalFees | ValidUntil | ScriptHash

  const COMMON_LABELS: seq<Label> := [Network, SystemFee, NetworkFee, TotalFees, ValidUntil, ScriptHash]

  /** The pairs before the signer items. */
  function StaticLabels(tx: Tx): (r: seq<Label>)
    ensures |r| <= 8
  {
    (if !tx.isVote && tx.isTransfer then [To, Token] else []) + COMMON_LABELS
  }

  /** Every fixed pair is there exactly once, and so are the two of a transfer that is named as
      one. */
  lemma LabelsOnce(tx: Tx, caption: Label)
    ensures multiset(StaticLabels(tx))[caption]
            == if caption in {Network, SystemFee, NetworkFee, TotalFees, ValidUntil, ScriptHash}
                  || (!tx.isVote && tx.isTransfer) then 1 else 0
  {
    hide COMMON_LABELS;
    LabelInCommon(caption);
    assert multiset([To, Token])[caption] == if caption in {To, Token} then 1 else 0;
    if !tx.isVote && tx.isTransfer {
      assert multiset([To, Token] + COMMON_LABELS) == multiset([To, Token]) + multiset(COMMON_LABELS);
    } else {
      assert StaticLabels(tx) == COMMON_LABELS;
    }
  }

  lemma LabelInCommon(caption: Label)
    ensures multiset(COMMON_LABELS)[caption]
            == if caption in {Network, SystemFee, NetworkFee, TotalFees, ValidUntil, ScriptHash} then 1 else 0
    ensures caption in {To, Token} <==>
            caption !in {Network, SystemFee, NetworkFee, TotalFees, ValidUntil, ScriptHash}
  {
  }

  /** What the review is headed, and what the long press at its end asks. */
  datatype Prompt = RetractVote | CastVote | SendNeo | SendGas | SignScript

  /** The vote flag is asked first. */
  predicate Asks(prompt: Prompt, tx: Tx) {
    && (prompt.SignScript? <==> !tx.isVote && !tx.isTransfer)
    && (tx.isVote <==> prompt.CastVote? || prompt.RetractVote?)
    && (prompt.RetractVote? <==> tx.isVote && tx.isRemoveVote)
    && (prompt.SendNeo? <==> !tx.isVote && tx.isTransfer && tx.isNeo)
  }

  /** What is shown for pair number `index`. */
  datatype Pair = StaticPair(caption: Label) | ItemPair(text: Text)

  ghost function PairAt(tx: Tx, index: nat): Pair
    requires Displayable(tx) && index < |StaticLabels(tx)| + |AllItems(tx)|
  {
    var n := |StaticLabels(tx)|;
    if index < n then StaticPair(StaticLabels(tx)[index])
    else
      ItemHere(tx, index - n);
      ItemPair(Render(tx, AllItems(tx)[index - n]))
  }

  /** The item behind pair number `index`. */
  function ItemAt(tx: Tx, index: nat): Stop
    requires tx.signersSize <= |tx.signers| && |StaticLabels(tx)| <= index < |StaticLabels(tx)| + |AllItems(tx)|
  {
    AllItems(tx)[index - |StaticLabels(tx)|]
  }

  /** The pair of an item has a text that tells it. */
  lemma PairTells(tx: Tx, index: nat)
    requires Displayable(tx) && |StaticLabels(tx)| <= index < |StaticLabels(tx)| + |AllItems(tx)|
    ensures Shape(tx) && PairAt(tx, index).ItemPair? && TellsItem(tx, ItemAt(tx, index), PairAt(tx, index).text)
  {
    hide TellsItem, Render, AllItems, StaticLabels;
    ItemHere(tx, index - |StaticLabels(tx)|);
    RenderTellsItem(tx, ItemAt(tx, index));
  }

  class Review {
    const tx: Tx
    const slotCount: nat
    const dynItems: array<Stop>
    var dynItemsNb: nat
    var staticItems: seq<Label>
    const prompt: Prompt  // title and final text
    var slots: seq<Option<Text>>

    ghost predicate Valid()
      reads this, dynItems
    {
      && Displayable(tx) && dynItems.Length == DYN_ITEMS && slotCount > 0 && |slots| == slotCount
      && staticItems == StaticLabels(tx) && Asks(prompt, tx)
      && dynItemsNb <= DYN_ITEMS && dynItems[..dynItemsNb] == AllItems(tx)
    }

    /** Builds the list; the array is never exceeded. */
    constructor (tx: Tx, slotCount: nat)
      requires Displayable(tx) && slotCount > 0
      ensures Valid() && this.tx == tx && this.slotCount == slotCount && fresh(dynItems)
      ensures forall k :: 0 <= k < slotCount ==> slots[k] == None
    {
      this.tx, this.slotCount := tx, slotCount;
      dynItems := new Stop[DYN_ITEMS](_ => Begin(0));
      slots := seq(slotCount, _ => None);
      staticItems := [];
      if tx.isVote {
        prompt := if tx.isRemoveVote then RetractVote else CastVote;
      } else if tx.isTransfer {
        staticItems := staticItems + [To, Token];
        prompt := if tx.isNeo then SendNeo else SendGas;
      } else {
        prompt := SignScript;
      }
      staticItems := staticItems + [Network, SystemFee, NetworkFee, TotalFees, ValidUntil, ScriptHash];
      dynItemsNb := 0;
      new;
      for i := 0 to tx.signersSize
        invariant dynItems.Length == DYN_ITEMS && fresh(dynItems)
        invariant dynItemsNb <= i * 21 && dynItemsNb <= DYN_ITEMS && dynItems[..dynItemsNb] == FirstItems(tx, i)
        invariant slots == seq(slotCount, _ => None) && staticItems == StaticLabels(tx)
      {
        AddSigner(i);
      }
    }

    method Add(item: Stop)
      requires dynItemsNb < dynItems.Length
      modifies this`dynItemsNb, dynItems
      ensures dynItemsNb == old(dynItemsNb) + 1
      ensures dynItems[..dynItemsNb] == old(dynItems[..dynItemsNb]) + [item]
    {
      dynItems[dynItemsNb] := item;
      dynItemsNb := dynItemsNb + 1;
    }

    /** The items of one signer. */
    method AddSigner(i: nat)
      requires Displayable(tx) && i < tx.signersSize && dynItems.Length == DYN_ITEMS && dynItemsNb <= i * 21
      modifies this`dynItemsNb, dynItems
      ensures dynItemsNb <= (i + 1) * 21 && dynItemsNb <= dynItems.Length
      ensures dynItems[..dynItemsNb] == old(dynItems[..dynItemsNb]) + Block(tx, i)
    {
      ghost var before := dynItems[..dynItemsNb];
      Add(SignerStop(i));
      Add(AccountStop(i));
      Add(ScopeStop(i));
      AddContracts(i);
      AddGroups(i);
      var s := tx.signers[i];
      assert dynItems[..dynItemsNb] == before + [SignerStop(i)] + [AccountStop(i)] + [ScopeStop(i)]
                                       + ContractStops(i, s.contractsSize) + GroupStops(i, s.groupsSize);
      assert Block(tx, i) == [SignerStop(i)] + [AccountStop(i)] + [ScopeStop(i)]
                             + ContractStops(i, s.contractsSize) + GroupStops(i, s.groupsSize);
    }

    ghost function ContractStops(i: nat, n: nat): seq<Stop> {
      seq(n, (k: nat) => ContractStop(i, k))
    }

    ghost function GroupStops(i: nat, n: nat): seq<Stop> {
      seq(n, (k: nat) => GroupStop(i, k))
    }

    method AddContracts(i: nat)
      requires i < |tx.signers| && dynItemsNb + tx.signers[i].contractsSize <= dynItems.Length
      modifies this`dynItemsNb, dynItems
      ensures dynItemsNb == old(dynItemsNb) + tx.signers[i].contractsSize
      ensures dynItems[..dynItemsNb] == old(dynItems[..dynItemsNb]) + ContractStops(i, tx.signers[i].contractsSize)
    {
      ghost var before := dynItems[..dynItemsNb];
      for j := 0 to tx.signers[i].contractsSize
        invariant dynItemsNb == |before| + j && dynItems[..dynItemsNb] == before + ContractStops(i, j)
      {
        Add(ContractStop(i, j));
        assert ContractStops(i, j + 1) == ContractStops(i, j) + [ContractStop(i, j)];
      }
    }

    method AddGroups(i: nat)
      requires i < |tx.signers| && dynItemsNb + tx.signers[i].groupsSize <= dynItems.Length
      modifies this`dynItemsNb, dynItems
      ensures dynItemsNb == old(dynItemsNb) + tx.signers[i].groupsSize
      ensures dynItems[..dynItemsNb] == old(dynItems[..dynItemsNb]) + GroupStops(i, tx.signers[i].groupsSize)
    {
      ghost var before := dynItems[..dynItemsNb];
      for j := 0 to tx.signers[i].groupsSize
        invariant dynItemsNb == |before| + j && dynItems[..dynItemsNb] == before + GroupStops(i, j)
      {
        Add(GroupStop(i, j));
        assert GroupStops(i, j + 1) == GroupStops(i, j) + [GroupStop(i, j)];
      }
    }

    /** Formats an item, by its kind. */
    method FormatTagValue(item: Stop) returns (text: Text)
      requires Displayable(tx) && ValidStop(tx, item) && IsItem(item)
      ensures text == Render(tx, item)
    {
      var s := tx.signers[item.s];
      match item
      case SignerStop(i) => text := SignerText(i + 1, tx.signersSize);
      case AccountStop(_) => text := AccountText(s.account);
      case ScopeStop(_) => text := ScopeText(s.scope);
      case ContractStop(_, j) => text := ContractText(j + 1, s.contractsSize, s.contracts[j]);
      case GroupStop(_, j) => text := GroupText(j + 1, s.groupsSize, s.groups[j]);
      case _ => text := NoText;
    }

    /** The call-back for pair `index`; a signer item is put into the slot of its index. */
    method GetPair(index: nat) returns (pair: Pair)
      requires Valid() && index < |staticItems| + dynItemsNb
      modifies this`slots
      ensures Valid() && pair == PairAt(tx, index)
      ensures pair.ItemPair? <==> index >= |staticItems|
      ensures pair.ItemPair? ==> Shape(tx) && TellsItem(tx, ItemAt(tx, index), pair.text)
      ensures slots == Fetched(tx, old(slots), index)
    {
      hide TellsItem, AllItems, StaticLabels;
      if index < |staticItems| {
        pair := StaticPair(staticItems[index]);
      } else {
        var item := dynItems[index - |staticItems|];
        assert item == dynItems[..dynItemsNb][index - |staticItems|];
        ItemHere(tx, index - |staticItems|);
        var text := FormatTagValue(item);
        slots := slots[index % slotCount := Some(text)];
        pair := ItemPair(text);
        PairTells(tx, index);
      }
    }
  }

  // ---- the ring of slots ----

  ghost predicate IsPair(tx: Tx, index: nat)
    requires Displayable(tx)
  {
    index < |StaticLabels(tx)| + |AllItems(tx)|
  }

  ghost function Fetched(tx: Tx, slots: seq<Option<Text>>, index: nat): (r: seq<Option<Text>>)
    requires Displayable(tx) && IsPair(tx, index) && |slots| > 0
    ensures |r| == |slots|
  {
    match PairAt(tx, index)
    case StaticPair(_) => slots
    case ItemPair(text) => slots[index % |slots| := Some(text)]
  }

  ghost function FetchedAll(tx: Tx, slots: seq<Option<Text>>, indices: seq<nat>): (r: seq<Option<Text>>)
    requires Displayable(tx) && (forall k :: 0 <= k < |indices| ==> IsPair(tx, indices[k])) && |slots| > 0
    ensures |r| == |slots|
  {
    if indices == [] then slots
    else Fetched(tx, FetchedAll(tx, slots, indices[..|indices| - 1]), indices[|indices| - 1])
  }

  /** Within a window of `n` indices each has a slot of its own. */
  lemma SameSlot(i: nat, j: nat, start: nat, n: nat)
    requires n > 0 && start <= i < start + n && start <= j < start + n && i % n == j % n
    ensures i == j
  {
    var p, q := i / n, j / n;
    assert i == n * p + i % n && j == n * q + j % n;
    if p < q { Apart(p, q, n); } else if q < p { Apart(q, p, n); }
  }

  lemma {:induction false} Apart(p: nat, q: nat, n: nat)
    requires p < q
    ensures n * p + n <= n * q
    decreases q
  {
    assert n * q == n * (q - 1) + n;
    if p < q - 1 {
      Apart(p, q - 1, n);
    }
  }

  /** For any window of as many consecutive pairs as there are slots, fetched in any order
      and any number of times: every fetched item still stands in its own slot, with a text
      that tells it. */
  lemma {:induction false} WindowKept(tx: Tx, slots: seq<Option<Text>>, indices: seq<nat>, start: nat, i: nat)
    requires Displayable(tx) && |slots| > 0
    requires forall k :: 0 <= k < |indices| ==> IsPair(tx, indices[k]) && start <= indices[k] < start + |slots|
    requires i in indices && |StaticLabels(tx)| <= i && IsPair(tx, i)
    ensures PairAt(tx, i).ItemPair?
    ensures FetchedAll(tx, slots, indices)[i % |slots|] == Some(PairAt(tx, i).text)
    ensures Shape(tx) && TellsItem(tx, ItemAt(tx, i), PairAt(tx, i).text)
  {
    hide TellsItem;
    PairTells(tx, i);
    var last := indices[|indices| - 1];
    if last != i {
      WindowKept(tx, slots, indices[..|indices| - 1], start, i);
      if last % |slots| == i % |slots| {
        SameSlot(last, i, start, |slots|);
      }
    }
  }
}
