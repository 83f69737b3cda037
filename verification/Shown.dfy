/** What the user has been told when everything was on display: the items of the transaction
    that is signed, and its amounts. */
module Shown {
  import opened Options
  import opened Bytes
  import opened Transactions
  import opened Wire
  import opened UsedStruct
  import opened Amounts
  import opened ReviewTexts
  import opened ReviewItems
  import opened ItemTexts
  import opened BaglReview
  import Nbgl = NbglReview
  import opened Session
  import opened SessionLaws
  import opened GateLaws

  // ---- the button front end ----

  /** Every item of the transaction has been on display, with a text that tells it. */
  ghost predicate ItemsTold(d: bytes, w: Wire, shown: set<Screen>) {
    forall p | ItemOf(w, p) :: exists text :: TextTells(d, w, p, text) && ItemScreen(text) in shown
  }

  lemma ItemTold(d: bytes, tx: Tx, w: Wire, showScriptHash: bool, shown: set<Screen>, p: Stop)
    requires ValidWire(w) && AllShown(tx, showScriptHash, shown) && Shows(d, tx, w) && ItemOf(w, p)
    ensures exists text :: TextTells(d, w, p, text) && ItemScreen(text) in shown
  {
    hide ValidWire, Shows, LeadsTo, FixedShown, ScriptShown;
    ListsShown(d, tx, w, p.s);
    var t := tx.signers[p.s];
    assert SignerShown(t, p.s, tx.signersSize, shown);
    var text := match p
      case SignerStop(s) => SignerText(s + 1, tx.signersSize)
      case AccountStop(_) => AccountText(t.account)
      case ScopeStop(_) => ScopeText(t.scope)
      case ContractStop(_, j) => ContractText(j + 1, t.contractsSize, t.contracts[j])
      case GroupStop(_, j) => GroupText(j + 1, t.groupsSize, t.groups[j])
      case _ => NoText;
    assert TextTells(d, w, p, text) && ItemScreen(text) in shown;
  }

  /** When every screen has been on display, the user has been told the transaction. */
  lemma AllTold(d: bytes, tx: Tx, w: Wire, showScriptHash: bool, shown: set<Screen>)
    requires ValidWire(w) && AllShown(tx, showScriptHash, shown) && Shows(d, tx, w)
    ensures FixedShown(showScriptHash, shown) && ScriptShown(tx, shown) && ItemsTold(d, w, shown)
  {
    hide ValidWire, Shows, SignerShown, FixedShown, ScriptShown, TextTells;
    forall p | ItemOf(w, p) ensures exists text :: TextTells(d, w, p, text) && ItemScreen(text) in shown {
      ItemTold(d, tx, w, showScriptHash, shown, p);
    }
  }

  /** The same for the transaction whose bytes are in the buffer, whichever it is. */
  ghost predicate BufferTold(d: bytes, tx: Tx, shown: set<Screen>)
    requires Shape(tx)
  {
    forall w | ValidWire(w) && Shows(d, tx, w) :: ItemsTold(d, w, shown)
  }

  lemma AllBufferTold(d: bytes, tx: Tx, showScriptHash: bool, shown: set<Screen>)
    requires Shape(tx) && AllShown(tx, showScriptHash, shown)
    ensures BufferTold(d, tx, shown)
  {
    hide ValidWire, Shows, ItemsTold, AllShown;
    forall w | ValidWire(w) && Shows(d, tx, w) ensures ItemsTold(d, w, shown) {
      AllTold(d, tx, w, showScriptHash, shown);
    }
  }

  /** In the linear review the items come in the order of the list, each with a text that tells
      it. */
  lemma ScreenTells(d: bytes, tx: Tx, w: Wire, scriptsAllowed: bool, showScriptHash: bool, k: nat)
    requires Displayable(tx) && ValidWire(w) && Shows(d, tx, w) && Allowed(tx, scriptsAllowed) && k < |AllItems(tx)|
    requires ItemOf(w, AllItems(tx)[k])
    ensures var at := |Front(tx, showScriptHash)| + k;
            && at < |Screens(tx, scriptsAllowed, showScriptHash)|
            && Screens(tx, scriptsAllowed, showScriptHash)[at].ItemScreen?
            && TextTells(d, w, AllItems(tx)[k], Screens(tx, scriptsAllowed, showScriptHash)[at].text)
  {
    hide ValidWire, Shows, TextTells, AllItems, Render, Front;
    RenderTells(d, tx, w, AllItems(tx)[k]);
  }

  // ---- the touch front end ----

  /** Every item of the transaction has a pair with a text that tells it. */
  lemma PairForItem(d: bytes, tx: Tx, w: Wire, p: Stop) returns (index: nat)
    requires Displayable(tx) && ValidWire(w) && Shows(d, tx, w) && ItemOf(w, p)
    ensures Nbgl.IsPair(tx, index) && Nbgl.PairAt(tx, index).ItemPair?
    ensures TextTells(d, w, p, Nbgl.PairAt(tx, index).text)
  {
    hide ValidWire, Shows, TextTells, AllItems, Render, ItemOf, Nbgl.StaticLabels, Nbgl.PairAt;
    ListTells(d, tx, w, p);
    var k :| 0 <= k < |AllItems(tx)| && AllItems(tx)[k] == p;
    index := |Nbgl.StaticLabels(tx)| + k;
    Nbgl.PairTells(tx, index);
  }

  // ---- the amounts ----

  /** The field reads as this ticker and a decimal number of this value. */
  ghost predicate ReadsAs(field: string, ticker: string, value: real) {
    CString(field).Some? &&
    var t := CString(field).value;
    |t| > |ticker| && t[..|ticker| + 1] == ticker + " " &&
    var number := t[|ticker| + 1..];
    exists point :: Reads(number, point, value)
  }

  /** Digits around one point. */
  ghost predicate Reads(text: string, point: nat, value: real) {
    && 0 < point < |text| - 1 && text[point] == '.'
    && (forall k :: 0 <= k < |text| && k != point ==> IsDigit(text[k]))
    && Denotes(text, point) == value
  }

  lemma FieldReads(field: string, ticker: string, value: nat, decimals: nat)
    requires CString(field) == Some(ticker + " " + AmountText(value, decimals))
    ensures ReadsAs(field, ticker, value as real / Pow10(decimals) as real)
  {
    hide AmountText, Denotes, Point, Pow10, CString, IsDigit;
    var t := ticker + " " + AmountText(value, decimals);
    assert t[..|ticker| + 1] == ticker + " " && t[|ticker| + 1..] == AmountText(value, decimals);
    TextShape(value, decimals);
    TextDenotes(value, decimals);
    assert Reads(t[|ticker| + 1..], Point(value, decimals), value as real / Pow10(decimals) as real);
  }

  /** The fee strings read as the fees of the transaction, in GAS, and as their sum. */
  ghost predicate FeesTold(strings: ReviewStrings, w: Wire)
    reads strings
  {
    && ReadsAs(strings.systemFee, "GAS", w.systemFee as real / Pow10(8) as real)
    && ReadsAs(strings.networkFee, "GAS", w.networkFee as real / Pow10(8) as real)
    && ReadsAs(strings.totalFees, "GAS", (w.systemFee + w.networkFee) as real / Pow10(8) as real)
  }

  lemma FeesRead(strings: ReviewStrings, tx: Tx, w: Wire)
    requires strings.Tells(tx) && FeesFit(tx) && tx.systemFee == w.systemFee && tx.networkFee == w.networkFee
    ensures FeesTold(strings, w)
  {
    hide ReadsAs, AmountText, Pow10, AsU64, CString;
    FieldReads(strings.systemFee, "GAS", w.systemFee, 8);
    FieldReads(strings.networkFee, "GAS", w.networkFee, 8);
    FieldReads(strings.totalFees, "GAS", w.systemFee + w.networkFee, 8);
  }

  /** The amount of a transfer reads as its token and what `AmountShown` is about. */
  lemma TokenAmountRead(strings: ReviewStrings, tx: Tx)
    requires strings.Tells(tx) && tx.isTransfer
    ensures ReadsAs(strings.tokenAmount, if tx.isNeo then "NEO" else "GAS", ShownAmount(tx.amount, tx.isNeo))
  {
    hide ReadsAs, AmountText, Pow10, AsU64, CString, Denotes, Point;
    var decimals := if tx.isNeo then 0 else 8;
    TextDenotes(AsU64(tx.amount), decimals);
    FieldReads(strings.tokenAmount, if tx.isNeo then "NEO" else "GAS", AsU64(tx.amount), decimals);
  }

  // ---- what was signed was shown ----

  lemma NumbersShown(d: bytes, tx: Tx, w: Wire)
    requires Shape(tx) && Shows(d, tx, w)
    ensures tx.systemFee == w.systemFee && tx.networkFee == w.networkFee
  {
  }

  lemma TellingShows(env: Env, s: DeviceState, before: Tx, w: Wire)
    requires Telling(env, s, before, w)
    ensures s.ctx.union.Info? && ValidInfo(s.ctx.union.info) && ValidWire(w)
    ensures Shape(s.ctx.union.info.tx) && Displayable(s.ctx.union.info.tx) && FeesFit(s.ctx.union.info.tx)
    ensures Shows(Print(w), s.ctx.union.info.tx, w)
  {
    hide ValidWire, Print, Shows, Holds, NoOtherLists, ClassifiedFrom, Displayable, FeesFit;
  }

  /** Every signature of every run, together with what a review of that transaction tells: if
      all screens were on display and the strings were prepared from the struct, then the user
      was told every signer, account, scope, contract and group of the transaction whose
      encoding is signed, its fees and their sum. */
  lemma SignedWasShown(env: Env, scriptsAllowed: bool, rest: seq<Entry>, last: Entry, s: DeviceState,
                       showScriptHash: bool, shown: set<Screen>, strings: ReviewStrings) returns (w: Wire)
    requires Exec(env, scriptsAllowed, rest) == Some(s) && Exec(env, scriptsAllowed, rest + [last]).Some?
    requires last.r.SignatureReply? && AllShown(StructOf(s), showScriptHash, shown) && strings.Tells(StructOf(s))
    ensures ValidWire(w) && Magic(rest) < Pow256(4)
    ensures last.r.signature == env.ecdsa(Path(rest), env.sha(ToLE(Magic(rest), 4) + env.sha(Print(w))))
    ensures FixedShown(showScriptHash, shown) && ScriptShown(StructOf(s), shown)
    ensures ItemsTold(Print(w), w, shown) && FeesTold(strings, w)
  {
    hide *;
    w := SignedIsParsed(env, scriptsAllowed, rest, last);
    TellingShows(env, s, Before(env, scriptsAllowed, rest), w);
    StructIs(s);
    var tx := s.ctx.union.info.tx;
    NumbersShown(Print(w), tx, w);
    AllTold(Print(w), tx, w, showScriptHash, shown);
    FeesRead(strings, tx, w);
  }

  lemma StructIs(s: DeviceState)
    requires s.ctx.union.Info?
    ensures StructOf(s) == s.ctx.union.info.tx
  {
  }
}
