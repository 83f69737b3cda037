/** What a review says the script is, on both front ends, and when that is what it is. */
module Naming {
  import opened Options
  import opened Bytes
  import opened Transactions
  import opened Scripts
  import opened ScriptLanguages
  import opened Parsing
  import opened Wire
  import opened UsedStruct
  import opened Amounts
  import opened ReviewTexts
  import BaglReview
  import NbglReview

  datatype Name = Transfer(amount: int, dst: bytes, neo: bool) | Vote(key: Option<bytes>) | Unnamed

  /** Both front ends ask the vote flag first. */
  function Named(tx: Tx): Name {
    if tx.isVote then Vote(if tx.isRemoveVote then None else Some(tx.voteTo))
    else if tx.isTransfer then Transfer(tx.amount, tx.dst, tx.isNeo)
    else Unnamed
  }

  /** A flag that the recognisers set is set. */
  predicate Flagged(tx: Tx) {
    tx.isTransfer || tx.isVote
  }

  // ---- the screens ----

  /** The button front end shows the steps of the name, and no others. */
  lemma ButtonsShow(tx: Tx, showScriptHash: bool)
    ensures var f, name := BaglReview.Front(tx, showScriptHash), Named(tx);
            && (BaglReview.DstAddressStep in f <==> name.Transfer?)
            && (BaglReview.TokenAmountStep in f <==> name.Transfer?)
            && (BaglReview.VoteToStep in f <==> name.Vote? && name.key.Some?)
            && (BaglReview.VoteRetractStep in f <==> name == Vote(None))
  {
    var f, steps := BaglReview.Front(tx, showScriptHash), BaglReview.ScriptSteps(tx);
    assert forall k :: 0 <= k < |steps| ==> f[k] == steps[k];
    assert forall k :: |steps| <= k < |f| ==>
             f[k] !in {BaglReview.DstAddressStep, BaglReview.TokenAmountStep, BaglReview.VoteToStep, BaglReview.VoteRetractStep};
    assert |steps| > 1 ==> f[1] == steps[1];
    assert |steps| > 2 ==> f[2] == steps[2];
  }

  lemma TouchLabels(tx: Tx)
    ensures var labels := NbglReview.StaticLabels(tx);
            (NbglReview.To in labels <==> Named(tx).Transfer?) && (NbglReview.Token in labels <==> Named(tx).Transfer?)
  {
    var labels := NbglReview.StaticLabels(tx);
    if !tx.isVote && tx.isTransfer {
      assert labels[0] == NbglReview.To && labels[1] == NbglReview.Token;
    }
  }

  /** The touch front end shows destination and amount of a transfer, and says in title and
      final text what is asked for. It does not show the candidate of a vote. */
  lemma TouchShows(tx: Tx, prompt: NbglReview.Prompt)
    requires NbglReview.Asks(prompt, tx)
    ensures var labels, name := NbglReview.StaticLabels(tx), Named(tx);
            && (NbglReview.To in labels <==> name.Transfer?) && (NbglReview.Token in labels <==> name.Transfer?)
            && (prompt.SignScript? <==> name.Unnamed?)
            && (prompt.SendNeo? <==> name.Transfer? && name.neo) && (prompt.SendGas? <==> name.Transfer? && !name.neo)
            && (prompt.RetractVote? <==> name == Vote(None)) && (prompt.CastVote? <==> name.Vote? && name.key.Some?)
  {
    TouchLabels(tx);
  }

  // ---- when the name is right ----

  /** A script is named for what it is. */
  ghost predicate NamedRight(tx: Tx, script: bytes) {
    && (forall a, dst, neo :: IsTransferScript(script, a, dst, neo) ==> Named(tx) == Transfer(a, dst, neo))
    && (forall key :: IsVoteScript(script, key) ==> Named(tx) == Vote(key))
    && (!InTransfer(script) && !InVote(script) ==> Named(tx) == Unnamed)
  }

  /** How the name comes about, from what was in the struct before: a transfer is named as one
      unless a vote flag stood, and rightly unless a NEO flag stood that it does not have; a
      vote is named rightly unless a transfer flag stood; any other script is unnamed unless
      one of them stood. */
  ghost predicate NamedFrom(before: Tx, tx: Tx, script: bytes) {
    && (InTransfer(script) ==> (Named(tx).Transfer? <==> !before.isVote))
    && (forall a, dst, neo :: IsTransferScript(script, a, dst, neo) ==>
          (Named(tx) == Transfer(a, dst, neo) <==> !before.isVote && (neo || !before.isNeo)))
    && (InVote(script) ==> (Named(tx).Vote? <==> before.isVote || !before.isTransfer))
    && (forall key :: IsVoteScript(script, key) ==>
          (Named(tx) == Vote(key) <==> !before.isTransfer || Named(before) == Vote(key)))
    && (!InTransfer(script) && !InVote(script) ==> (Named(tx) == Unnamed <==> !Flagged(before)))
  }

  lemma NameTold(before: Tx, tx: Tx, script: bytes)
    requires ClassifiedFrom(before, tx, script)
    ensures NamedFrom(before, tx, script)
  {
    hide InTransfer, InVote, LeftByTransfer, LeftByVote, IsTransferScript, IsVoteScript;
    NotBoth(script);
    forall a, dst, neo | IsTransferScript(script, a, dst, neo)
      ensures InTransfer(script)
              && (Named(tx) == Transfer(a, dst, neo) <==> !before.isVote && (neo || !before.isNeo))
    {
      InTransferBy(script, a, dst, neo);
    }
    forall key | IsVoteScript(script, key)
      ensures InVote(script) && (Named(tx) == Vote(key) <==> !before.isTransfer || Named(before) == Vote(key))
    {
      InVoteBy(script, key);
      KeyNotNamed(script, key, tx);
    }
  }

  /** The key of a vote is compressed, so it tells the two votes apart. */
  lemma KeyNotNamed(script: bytes, key: Option<bytes>, tx: Tx)
    requires IsVoteScript(script, key)
    ensures key.Some? ==> IsCompressedKey(key.value)
  {
  }

  lemma NamedFromZero(tx: Tx, script: bytes)
    requires NamedFrom(ZeroTx(), tx, script)
    ensures NamedRight(tx, script)
  {
  }

  /** Every accepted parse, whatever the struct held before. */
  lemma NamedExactly(d: bytes, before: Tx) returns (w: Wire)
    requires Shape(before) && Deserialize(d, before).status == ParsingOk
    ensures Told(d, before, Deserialize(d, before).tx, w) && NamedFrom(before, Deserialize(d, before).tx, w.script)
  {
    hide Deserialize, Print, ValidWire, Shows, Holds, NoOtherLists, ClassifiedFrom, NamedFrom;
    w := HeldFrom(d, before);
    NameTold(before, Deserialize(d, before).tx, w.script);
  }

  /** A transfer on screen, whatever the struct held before: destination and amount are shown
      if and only if no vote flag stood. Then they are the script's own, the amount if and only
      if it is not negative, the token if and only if it is NEO or no NEO flag stood. */
  lemma TransferShown(d: bytes, before: Tx, push: bytes, a: int, dst: bytes, src: bytes, neo: bool,
        showScriptHash: bool)
    requires Shape(before) && Deserialize(d, before).status == ParsingOk
    requires IsPush(push, a) && |dst| == UINT160_LEN && |src| == UINT160_LEN
    requires var tx := Deserialize(d, before).tx; At(d, tx.script, tx.scriptSize) == TransferScript(push, dst, src, Token(neo))
    ensures var tx := Deserialize(d, before).tx;
            && (BaglReview.DstAddressStep in BaglReview.Front(tx, showScriptHash) <==> !before.isVote)
            && (BaglReview.TokenAmountStep in BaglReview.Front(tx, showScriptHash) <==> !before.isVote)
            && (NbglReview.To in NbglReview.StaticLabels(tx) <==> !before.isVote)
            && (NbglReview.Token in NbglReview.StaticLabels(tx) <==> !before.isVote)
            && tx.isTransfer && tx.dst == dst && (tx.isNeo == neo <==> neo || !before.isNeo)
            && (ShownAmount(tx.amount, tx.isNeo) == Meant(push) as real / Pow10(if tx.isNeo then 0 else 8) as real
                <==> Meant(push) >= 0)
  {
    hide Deserialize, Print, ShowsSigner, Holds, NoOtherLists, ShownAmount, Meant, IsPush, TransferScript, Pow10,
         InVote,
         LeftFrom, BaglReview.Front, NbglReview.StaticLabels, BaglReview.ScriptSteps;
    var tx := Deserialize(d, before).tx;
    var w := NamedExactly(d, before);
    var script := At(d, tx.script, tx.scriptSize);
    assert IsTransferScript(script, a, dst, neo);
    InTransferBy(script, a, dst, neo);
    AmountShown(push, a, tx.isNeo);
    ButtonsShow(tx, showScriptHash);
    TouchLabels(tx);
  }
}
