/** The amount strings that `start_sign_tx` prepares for the review. */
module ReviewTexts {
  import opened Options
  import opened Transactions
  import opened Amounts
  import opened Bytes
  import opened Scripts
  import opened ScriptLanguages
  import opened Parsing
  import opened Wire
  import opened UsedStruct

  const AMOUNTS_MAX_SIZE: nat := 30

  datatype Failure = TokenTransferAmountFail | SystemFeeFail | NetworkFeeFail | TotalFeeFail

  /** A cast to `uint64_t`. */
  function AsU64(x: int): (v: nat)
    ensures v < TWO_64
  {
    x % TWO_64
  }

  /** `snprintf` into a zeroed field: cut so that the terminator fits. */
  function Printed(size: nat, text: string): (field: string)
    requires size > 0
    ensures |field| == size
  {
    if |text| < size then text + Nuls(size - |text|) else text[..size - 1] + [NUL]
  }

  class ReviewStrings {
    var tokenAmount: string
    var systemFee: string
    var networkFee: string
    var totalFees: string

    constructor () {
      tokenAmount, systemFee := Nuls(AMOUNTS_MAX_SIZE), Nuls(AMOUNTS_MAX_SIZE);
      networkFee, totalFees := Nuls(AMOUNTS_MAX_SIZE), Nuls(AMOUNTS_MAX_SIZE);
    }

    /** Formats one amount into a local buffer and prints it with its ticker. */
    static method FormatField(ticker: string, value: nat, decimals: nat) returns (ok: bool, field: string)
      requires value < TWO_64 && decimals in {0, 8} && ticker in {"GAS", "NEO"}
      ensures ok && CString(field) == Some(ticker + " " + AmountText(value, decimals))
      ensures |field| == AMOUNTS_MAX_SIZE
    {
      var buffer := new char[AMOUNTS_MAX_SIZE](_ => NUL);
      assert buffer[..] == Nuls(AMOUNTS_MAX_SIZE);
      ok := FormatAmount(buffer, value, decimals);
      U64Length(value);
      FormatExact(AMOUNTS_MAX_SIZE, value, decimals);
      field := Printed(AMOUNTS_MAX_SIZE, ticker + " " + CString(buffer[..]).value);
      FieldTerminated(ticker, value, decimals);
    }

    /** The amount strings are those of the transaction. */
    ghost predicate Tells(tx: Tx)
      reads this
    {
      && (tx.isTransfer ==>
            CString(tokenAmount) == Some((if tx.isNeo then "NEO" else "GAS") + " "
                                         + AmountText(AsU64(tx.amount), if tx.isNeo then 0 else 8)))
      && CString(systemFee) == Some("GAS" + " " + AmountText(AsU64(tx.systemFee), 8))
      && CString(networkFee) == Some("GAS" + " " + AmountText(AsU64(tx.networkFee), 8))
      && CString(totalFees) == Some("GAS" + " " + AmountText(AsU64(AsU64(tx.networkFee) + tx.systemFee), 8))
    }

    /** Every string is prepared: the four failure returns are never taken. */
    method StartSignTx(tx: Tx) returns (failure: Option<Failure>)
      modifies this
      ensures failure == None && Tells(tx)
    {
      var ok;
      if tx.isTransfer {
        ok, tokenAmount := FormatField(if tx.isNeo then "NEO" else "GAS", AsU64(tx.amount), if tx.isNeo then 0 else 8);
        if !ok { return Some(TokenTransferAmountFail); }
      }
      ok, systemFee := FormatField("GAS", AsU64(tx.systemFee), 8);
      if !ok { return Some(SystemFeeFail); }
      ok, networkFee := FormatField("GAS", AsU64(tx.networkFee), 8);
      if !ok { return Some(NetworkFeeFail); }
      ok, totalFees := FormatField("GAS", AsU64(AsU64(tx.networkFee) + tx.systemFee), 8);
      if !ok { return Some(TotalFeeFail); }
      failure := None;
    }
  }

  /** The ticker, the amount and the terminator fit the field. */
  lemma FieldTerminated(ticker: string, value: nat, decimals: nat)
    requires value < TWO_64 && decimals in {0, 8} && ticker in {"GAS", "NEO"}
    ensures var t := ticker + " " + AmountText(value, decimals);
            |t| < AMOUNTS_MAX_SIZE && CString(Printed(AMOUNTS_MAX_SIZE, t)) == Some(t)
  {
    hide Decimal, AmountText, IsDigit;
    var t := ticker + " " + AmountText(value, decimals);
    U64Length(value);
    TextShape(value, decimals);
    TextParts(value, decimals);
    forall k | 0 <= k < |t| ensures t[k] != NUL {
      if k >= 4 {
        assert t[k] == AmountText(value, decimals)[k - 4];
        Printable(t[k]);
      }
    }
    CStringOf(t, Nuls(AMOUNTS_MAX_SIZE - |t|));
  }

  lemma Printable(c: char)
    ensures IsDigit(c) ==> c != NUL
  {
  }

  /** For every accepted transaction, whatever the struct held before, the shown total is the
      sum of the two shown fees. */
  lemma FeeTotal(d: bytes, before: Tx)
    requires Shape(before) && Deserialize(d, before).status == ParsingOk
    ensures var tx := Deserialize(d, before).tx;
            var total := AsU64(AsU64(tx.networkFee) + tx.systemFee);
            && total == tx.networkFee + tx.systemFee
            && Point(AsU64(tx.systemFee), 8) < |AmountText(AsU64(tx.systemFee), 8)|
            && Point(AsU64(tx.networkFee), 8) < |AmountText(AsU64(tx.networkFee), 8)|
            && Point(total, 8) < |AmountText(total, 8)|
            && Denotes(AmountText(total, 8), Point(total, 8))
               == Denotes(AmountText(AsU64(tx.systemFee), 8), Point(AsU64(tx.systemFee), 8))
                  + Denotes(AmountText(AsU64(tx.networkFee), 8), Point(AsU64(tx.networkFee), 8))
  {
    hide AmountText, Denotes, Point, Pow10, Deserialize;
    var tx := Deserialize(d, before).tx;
    FeesInRange(d, before);
    TextShape(tx.systemFee, 8);
    TextShape(tx.networkFee, 8);
    TextShape(tx.systemFee + tx.networkFee, 8);
    TextDenotes(tx.systemFee, 8);
    TextDenotes(tx.networkFee, 8);
    TextDenotes(tx.systemFee + tx.networkFee, 8);
    SumOver(tx.systemFee as real, tx.networkFee as real, Pow10(8) as real);
  }

  ghost predicate FeesFit(tx: Tx) {
    && 0 <= tx.systemFee < TWO_64 / 2 && 0 <= tx.networkFee < TWO_64 / 2
    && AsU64(tx.systemFee) == tx.systemFee && AsU64(tx.networkFee) == tx.networkFee
    && AsU64(AsU64(tx.networkFee) + tx.systemFee) == tx.networkFee + tx.systemFee
  }

  lemma FeesInRange(d: bytes, before: Tx)
    requires Shape(before) && Deserialize(d, before).status == ParsingOk
    ensures FeesFit(Deserialize(d, before).tx)
  {
    hide Deserialize, Print, ShowsSigner, ClassifiedFrom, Holds, NoOtherLists;
    var w := HeldFrom(d, before);
  }

  lemma SumOver(a: real, b: real, p: real)
    requires p > 0.0
    ensures (b + a) / p == a / p + b / p
  {
  }

  // ---- the amount of a transfer ----

  /** What is shown of a pushed amount. */
  function ShownAmount(a: int, neo: bool): (r: real)
  {
    var decimals := if neo then 0 else 8;
    TextDenotes(AsU64(a), decimals);
    Denotes(AmountText(AsU64(a), decimals), Point(AsU64(a), decimals))
  }

  /** The token amount on the screen is the one that the script pushes if and only if that is
      not negative. A negative operand is shown as its unsigned view. */
  lemma AmountShown(push: bytes, a: int, neo: bool)
    requires IsPush(push, a)
    ensures ShownAmount(a, neo) == Meant(push) as real / Pow10(if neo then 0 else 8) as real <==> Meant(push) >= 0
  {
    hide AmountText, Denotes, Point, Pow10, Meant, AsU64;
    CastNegative(a);
    var decimals := if neo then 0 else 8;
    StoredAsMeant(push, a);
    TextDenotes(AsU64(a), decimals);
    if ShownAmount(a, neo) == Meant(push) as real / Pow10(decimals) as real {
      Cancel(AsU64(a) as real, Meant(push) as real, Pow10(decimals) as real);
    }
  }

  lemma CastNegative(a: int)
    ensures 0 <= a < TWO_64 ==> AsU64(a) == a
    ensures 0 - TWO_64 <= a < 0 ==> AsU64(a) == a + TWO_64
  {
  }
}
