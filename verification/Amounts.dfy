/** `format_amount`: a u64 as a decimal number with a fixed number of decimals. */
module Amounts {
  import opened Options

  const NUL: char := '\0'
  const TWO_64: nat := 0x1_0000_0000_0000_0000

  function Pow10(n: nat): (r: nat)
    ensures r > 0
  {
    if n == 0 then 1 else 10 * Pow10(n - 1)
  }

  // ---- digits ----

  function Digit(d: nat): (c: char)
    requires d < 10
    ensures '0' <= c <= '9'
  {
    '0' + d as char
  }

  predicate IsDigit(c: char) {
    '0' <= c <= '9'
  }

  /** The decimal digits of `n`, the most significant first. */
  function Decimal(n: nat): (s: string)
    ensures s != [] && forall k :: 0 <= k < |s| ==> IsDigit(s[k])
  {
    if n < 10 then [Digit(n)] else Decimal(n / 10) + [Digit(n % 10)]
  }

  function Zeros(n: nat): (s: string)
    ensures |s| == n
  {
    seq(n, _ => '0')
  }

  /** Reads digits as a number. */
  function Number(s: string): nat {
    if s == [] then 0 else 10 * Number(s[..|s| - 1]) + (if IsDigit(s[|s| - 1]) then (s[|s| - 1] - '0') as nat else 0)
  }

  lemma {:induction false} NumberOfDecimal(n: nat)
    ensures Number(Decimal(n)) == n
    ensures Decimal(n)[0] == '0' ==> n == 0
  {
    if n >= 10 {
      NumberOfDecimal(n / 10);
      assert Decimal(n)[..|Decimal(n)| - 1] == Decimal(n / 10);
    } else {
      assert Decimal(n)[..0] == [];
    }
  }

  lemma {:induction false} DecimalLength(n: nat, k: nat)
    requires n < Pow10(k) && k > 0
    ensures |Decimal(n)| <= k
  {
    if n >= 10 {
      assert Pow10(1) == 10 * Pow10(0);
      DecimalLength(n / 10, k - 1);
    }
  }

  lemma U64Length(n: nat)
    requires n < TWO_64
    ensures |Decimal(n)| <= 20
  {
    assert Pow10(20) == 100_000_000_000_000_000_000 by {
      assert Pow10(4) == 10000 && Pow10(8) == 10000 * Pow10(4) by {
        assert Pow10(8) == 10 * Pow10(7) && Pow10(7) == 10 * Pow10(6) && Pow10(6) == 10 * Pow10(5);
      }
      assert Pow10(12) == 10000 * Pow10(8) by {
        assert Pow10(12) == 10 * Pow10(11) && Pow10(11) == 10 * Pow10(10) && Pow10(10) == 10 * Pow10(9);
      }
      assert Pow10(16) == 10000 * Pow10(12) by {
        assert Pow10(16) == 10 * Pow10(15) && Pow10(15) == 10 * Pow10(14) && Pow10(14) == 10 * Pow10(13);
      }
      assert Pow10(20) == 10000 * Pow10(16) by {
        assert Pow10(20) == 10 * Pow10(19) && Pow10(19) == 10 * Pow10(18) && Pow10(18) == 10 * Pow10(17);
      }
    }
    DecimalLength(n, 20);
  }

  lemma Tenfold(x: int, p: int)
    ensures 10 * (x * p) == x * (10 * p)
  {
  }

  lemma NumberLast(s: string, c: char)
    ensures Number(s + [c]) == 10 * Number(s) + Number([c])
  {
    assert (s + [c])[..|s|] == s;
    assert [c][..0] == [];
  }

  lemma {:induction false} NumberAppend(a: string, b: string)
    ensures Number(a + b) == Number(a) * Pow10(|b|) + Number(b)
  {
    hide Number;
    if b == [] {
      assert a + b == a;
      NumberEmpty();
    } else {
      var n := |b| - 1;
      NumberAppend(a, b[..n]);
      NumberLast(a + b[..n], b[n]);
      NumberLast(b[..n], b[n]);
      assert a + b == a + b[..n] + [b[n]] && b == b[..n] + [b[n]];
      Tenfold(Number(a), Pow10(n));
    }
  }

  lemma NumberEmpty()
    ensures Number("") == 0 && Number("0") == 0
  {
    assert "0"[..0] == [];
  }

  lemma {:induction false} NumberOfZeros(n: nat)
    ensures Number(Zeros(n)) == 0
  {
    if n > 0 {
      assert Zeros(n)[..n - 1] == Zeros(n - 1);
      NumberOfZeros(n - 1);
    }
  }

  // ---- the text ----

  /** What is meant to be shown for `value` with `decimals` decimals. */
  function AmountText(value: nat, decimals: nat): string {
    var d := Decimal(value);
    if |d| <= decimals then "0." + Zeros(decimals - |d|) + d
    else d[..|d| - decimals] + "." + (if decimals == 0 then "0" else d[|d| - decimals..])
  }

  /** The number that a text with a decimal point denotes. */
  function Denotes(s: string, point: nat): real
    requires point < |s|
  {
    Number(s[..point]) as real + Number(s[point + 1..]) as real / Pow10(|s| - point - 1) as real
  }

  /** Where the point is. */
  function Point(value: nat, decimals: nat): nat {
    var n := |Decimal(value)|;
    if n <= decimals then 1 else n - decimals
  }

  /** The digits before and after the point. */
  function Whole(value: nat, decimals: nat): string {
    var d := Decimal(value);
    if |d| <= decimals then "0" else d[..|d| - decimals]
  }

  function Fraction(value: nat, decimals: nat): string {
    var d := Decimal(value);
    if |d| <= decimals then Zeros(decimals - |d|) + d
    else if decimals == 0 then "0" else d[|d| - decimals..]
  }

  lemma TextParts(value: nat, decimals: nat)
    ensures AmountText(value, decimals) == Whole(value, decimals) + "." + Fraction(value, decimals)
    ensures Point(value, decimals) == |Whole(value, decimals)|
    ensures |Fraction(value, decimals)| == if decimals == 0 then 1 else decimals
  {
    hide Decimal, Zeros;
    PointBetween(Zeros(if |Decimal(value)| <= decimals then decimals - |Decimal(value)| else 0), Decimal(value));
  }

  lemma PointBetween(zeros: string, digits: string)
    ensures "0." + zeros + digits == "0" + "." + (zeros + digits)
  {
    assert "0." == "0" + ".";
  }

  /** Digits before and after the point together are the value, scaled. */
  lemma PartsValue(value: nat, decimals: nat)
    ensures Number(Whole(value, decimals)) * Pow10(decimals)
            + (if decimals == 0 then 0 else Number(Fraction(value, decimals))) == value
    ensures decimals == 0 ==> Number(Fraction(value, decimals)) == 0
  {
    hide Number, Decimal, Pow10, Zeros;
    var d := Decimal(value);
    NumberOfDecimal(value);
    NumberEmpty();
    if |d| <= decimals {
      NumberAppend(Zeros(decimals - |d|), d);
      NumberOfZeros(decimals - |d|);
      Absorb(Pow10(decimals), Pow10(|d|));
    } else {
      NumberAppend(d[..|d| - decimals], d[|d| - decimals..]);
      assert d == d[..|d| - decimals] + d[|d| - decimals..];
      assert decimals == 0 ==> d[|d| - decimals..] == "";
    }
  }

  lemma Absorb(p: int, q: int)
    ensures 0 * p == 0 && 0 * q == 0
  {
  }

  /** The shape: digits around one point, the full number of decimals, and no superfluous
      leading zero. */
  lemma TextShape(value: nat, decimals: nat)
    ensures var s, p := AmountText(value, decimals), Point(value, decimals);
            && 0 < p < |s| - 1 && s[p] == '.' && |s| - p - 1 == (if decimals == 0 then 1 else decimals)
            && (forall k :: 0 <= k < |s| && k != p ==> IsDigit(s[k]))
            && (s[0] == '0' ==> p == 1)
            && s[..p] == Whole(value, decimals) && s[p + 1..] == Fraction(value, decimals)
  {
    hide Decimal, AmountText, Whole, Fraction, Point, IsDigit;
    var s, p := AmountText(value, decimals), Point(value, decimals);
    var w, f := Whole(value, decimals), Fraction(value, decimals);
    TextParts(value, decimals);
    PartsDigits(value, decimals);
    assert s[..p] == w && s[p + 1..] == f;
    forall k | 0 <= k < |s| && k != p ensures IsDigit(s[k]) {
      if k < p { assert s[k] == w[k]; } else { assert s[k] == f[k - p - 1]; }
    }
    assert s[0] == w[0];
  }

  lemma PartsDigits(value: nat, decimals: nat)
    ensures var w, f := Whole(value, decimals), Fraction(value, decimals);
            && (forall k :: 0 <= k < |w| ==> IsDigit(w[k])) && (forall k :: 0 <= k < |f| ==> IsDigit(f[k]))
            && w != "" && (w[0] == '0' ==> |w| == 1)
  {
    hide Decimal;
    if Decimal(value)[0] == '0' {
      LeadingZero(value, decimals);
    }
  }

  /** The text denotes exactly `value / 10^decimals`. */
  lemma TextDenotes(value: nat, decimals: nat)
    ensures var s, p := AmountText(value, decimals), Point(value, decimals);
            p < |s| && Denotes(s, p) == value as real / Pow10(decimals) as real
  {
    hide Number, Decimal, Pow10, AmountText, Whole, Fraction, Point;
    TextShape(value, decimals);
    PartsValue(value, decimals);
    Scale(value, Number(Whole(value, decimals)), Number(Fraction(value, decimals)), Pow10(decimals), decimals);
  }

  lemma LeadingZero(value: nat, decimals: nat)
    requires Decimal(value)[0] == '0'
    ensures |Decimal(value)| == 1
  {
    NumberOfDecimal(value);
  }

  lemma Scale(value: nat, w: nat, f: nat, p: nat, decimals: nat)
    requires p == Pow10(decimals) && w * p + (if decimals == 0 then 0 else f) == value && (decimals == 0 ==> f == 0)
    ensures w as real + f as real / Pow10(if decimals == 0 then 1 else decimals) as real == value as real / p as real
  {
    if decimals == 0 {
      assert p == 1;
    } else {
      Split(w as real, f as real, p as real);
      assert value as real == w as real * p as real + f as real;
    }
  }

  lemma Split(w: real, f: real, p: real)
    requires p > 0.0
    ensures (w * p + f) / p == w + f / p
  {
  }

  lemma Cancel(v: real, w: real, p: real)
    requires p > 0.0 && v / p == w / p
    ensures v == w
  {
    assert v / p * p == v && w / p * p == w;
  }

  /** Different values are shown differently. */
  lemma TextInjective(v: nat, w: nat, decimals: nat)
    requires AmountText(v, decimals) == AmountText(w, decimals)
    ensures v == w
  {
    hide AmountText, Denotes, Pow10, Decimal;
    TextShape(v, decimals);
    TextShape(w, decimals);
    TextDenotes(v, decimals);
    TextDenotes(w, decimals);
    Cancel(v as real, w as real, Pow10(decimals) as real);
  }

  // ---- the buffer ----

  function Nuls(n: nat): (s: string)
    ensures |s| == n
  {
    seq(n, _ => NUL)
  }

  /** The text up to the first NUL, if there is one. */
  function CString(s: string): Option<string> {
    if s == [] then None else if s[0] == NUL then Some([])
    else match CString(s[1..]) case None => None case Some(t) => Some([s[0]] + t)
  }

  /** The guard of the code, as it is written. */
  predicate Fits(len: nat, value: nat, decimals: nat) {
    var n := |Decimal(value)|;
    if n <= decimals then len > 2 + decimals - n else len > n + 1 + decimals
  }

  /** What the buffer holds afterwards: with leading zeros the rest is filled with NUL and
      the text may be cut; otherwise only the text's own positions are written. */
  function Written(prev: string, value: nat, decimals: nat): (s: string)
    requires |AmountText(value, decimals)| <= |prev| || |Decimal(value)| <= decimals || !Fits(|prev|, value, decimals)
    ensures |s| == |prev|
  {
    var t := AmountText(value, decimals);
    if !Fits(|prev|, value, decimals) then prev
    else if |Decimal(value)| > decimals then t + prev[|t|..]
    else if |t| <= |prev| then t + Nuls(|prev| - |t|) else t[..|prev|]
  }

  lemma TextFits(len: nat, value: nat, decimals: nat)
    requires Fits(len, value, decimals) && |Decimal(value)| > decimals
    ensures |AmountText(value, decimals)| <= len
  {
  }

  /** `strncpy`: at most `n` characters, the rest NUL. */
  method Strncpy(dst: array<char>, at: nat, src: string, n: nat)
    requires at + n <= dst.Length
    modifies dst
    ensures dst[..] == old(dst[..at])
                       + (if |src| < n then src + Nuls(n - |src|) else src[..n]) + old(dst[at + n..])
  {
    var copy := if |src| < n then src + Nuls(n - |src|) else src[..n];
    for i := 0 to n
      invariant dst[..at] == old(dst[..at]) && dst[at + n..] == old(dst[at + n..])
      invariant dst[at..at + i] == copy[..i]
    {
      dst[at + i] := copy[i];
      assert dst[at..at + i + 1] == dst[at..at + i] + [copy[i]];
    }
    assert dst[..] == dst[..at] + dst[at..at + n] + dst[at + n..];
  }

  method FormatAmount(dst: array<char>, value: nat, decimals: nat) returns (ok: bool)
    requires value < TWO_64 && decimals < 256
    modifies dst
    ensures ok == Fits(dst.Length, value, decimals)
    ensures ok && |Decimal(value)| > decimals ==> |AmountText(value, decimals)| <= dst.Length
    ensures dst[..] == Written(old(dst[..]), value, decimals)
  {
    var digits := |Decimal(value)|;
    if digits <= decimals {
      if dst.Length <= 2 + decimals - digits { return false; }
      FormatFraction(dst, value, decimals);
    } else {
      if dst.Length <= digits + 1 + decimals { return false; }
      TextFits(dst.Length, value, decimals);
      FormatWhole(dst, value, decimals);
    }
    ok := true;
  }

  /** All digits are decimals: zeros in front, then the digits. */
  method FormatFraction(dst: array<char>, value: nat, decimals: nat)
    requires |Decimal(value)| <= decimals && Fits(dst.Length, value, decimals)
    modifies dst
    ensures dst[..] == Written(old(dst[..]), value, decimals)
  {
    hide Decimal, Written, Fits;
    var buffer := Decimal(value);
    var p := 2 + decimals - |buffer|;
    assert p < dst.Length by { FitsMeans(dst.Length, value, decimals); }
    dst[0] := '0';
    dst[1] := '.';
    for i := 0 to decimals - |buffer|
      invariant dst[..2 + i] == "0." + Zeros(i)
    {
      dst[2 + i] := '0';
      assert dst[..2 + i + 1] == dst[..2 + i] + ['0'];
      assert Zeros(i + 1) == Zeros(i) + ['0'];
    }
    Strncpy(dst, p, buffer, dst.Length - p);
    assert dst[..p] == "0." + Zeros(decimals - |buffer|);
    CopiedTail(dst[..], p, value, decimals);
  }

  lemma FitsMeans(len: nat, value: nat, decimals: nat)
    requires Fits(len, value, decimals) && |Decimal(value)| <= decimals
    ensures 2 + decimals - |Decimal(value)| < len
  {
  }

  /** `s` with `x` written over it from `at` on. */
  ghost function Splice(s: string, at: nat, x: string): (r: string)
    requires at + |x| <= |s|
    ensures |r| == |s|
  {
    s[..at] + x + s[at + |x|..]
  }

  lemma SpliceNext(s: string, at: nat, x: string, y: string)
    requires at + |x| + |y| <= |s|
    ensures Splice(Splice(s, at, x), at + |x|, y) == Splice(s, at, x + y)
  {
    var t := Splice(s, at, x);
    assert t[..at + |x|] == s[..at] + x;
    assert t[at + |x| + |y|..] == s[at + |x| + |y|..];
  }

  lemma SpliceOne(s: string, at: nat, c: char)
    requires at < |s|
    ensures s[at := c] == Splice(s, at, [c])
  {
  }

  lemma SpliceFront(s: string, x: string)
    requires |x| <= |s|
    ensures Splice(s, 0, x) == x + s[|x|..]
  {
  }

  /** Some digits stand before the point. */
  method FormatWhole(dst: array<char>, value: nat, decimals: nat)
    requires |Decimal(value)| > decimals && Fits(dst.Length, value, decimals)
    requires |AmountText(value, decimals)| <= dst.Length
    modifies dst
    ensures dst[..] == Written(old(dst[..]), value, decimals)
  {
    hide Decimal, Splice, Nuls;
    var buffer := Decimal(value);
    var shift := |buffer| - decimals;
    ghost var before := dst[..];
    ghost var whole := buffer[..shift];
    PutString(dst, 0, buffer[..shift]);
    PutChar(dst, shift, '.');
    SpliceNext(before, 0, whole, ".");
    if decimals == 0 {
      PutChar(dst, shift + 1, '0');
      SpliceNext(before, 0, whole + ".", "0");
    } else {
      PutString(dst, shift + 1, buffer[shift..]);
      SpliceNext(before, 0, whole + ".", buffer[shift..]);
    }
    SpliceFront(before, AmountText(value, decimals));
  }

  method PutChar(dst: array<char>, at: nat, c: char)
    requires at < dst.Length
    modifies dst
    ensures dst[..] == Splice(old(dst[..]), at, [c])
  {
    ghost var before := dst[..];
    dst[at] := c;
    SpliceOne(before, at, c);
    assert dst[..] == before[at := c];
  }

  /** `strncpy` of as many characters as the source has. */
  method PutString(dst: array<char>, at: nat, src: string)
    requires at + |src| <= dst.Length
    modifies dst
    ensures dst[..] == Splice(old(dst[..]), at, src)
  {
    Strncpy(dst, at, src, |src|);
  }

  lemma CopiedTail(s: string, p: nat, value: nat, decimals: nat)
    requires |Decimal(value)| <= decimals && p == 2 + decimals - |Decimal(value)| < |s|
    requires s[..p] == "0." + Zeros(decimals - |Decimal(value)|)
    requires var d, n := Decimal(value), |s| - p;
             s[p..] == if |d| < n then d + Nuls(n - |d|) else d[..n]
    ensures forall prev: string :: |prev| == |s| ==> s == Written(prev, value, decimals)
  {
    var d, n, t := Decimal(value), |s| - p, AmountText(value, decimals);
    assert s == s[..p] + s[p..];
    assert t == s[..p] + d;
    if |d| < n {
      assert |s| - |t| == n - |d|;
      assert s == t + Nuls(n - |d|);
    } else {
      assert s == t[..|s|];
    }
  }

  // ---- when the result can be used ----

  lemma {:induction false} CStringOf(t: string, rest: string)
    requires forall k :: 0 <= k < |t| ==> t[k] != NUL
    requires rest != [] && rest[0] == NUL
    ensures CString(t + rest) == Some(t)
  {
    if t == [] {
      assert t + rest == rest;
    } else {
      assert (t + rest)[1..] == t[1..] + rest;
      CStringOf(t[1..], rest);
      assert [t[0]] + t[1..] == t;
    }
  }

  lemma {:induction false} NoNul(t: string)
    requires forall k :: 0 <= k < |t| ==> t[k] != NUL
    ensures CString(t) == None
  {
    if t != [] {
      NoNul(t[1..]);
    }
  }

  /** Room for the text and its terminator, and for what the guard demands. */
  function Needed(value: nat, decimals: nat): nat {
    var n := |Decimal(value)|;
    if n <= decimals then decimals + 3 else if decimals == 0 then n + 3 else n + decimals + 2
  }

  /** Into a zeroed buffer, the call succeeds and leaves a terminated string with exactly the
      amount if and only if the buffer has the needed room. When it does not the call succeeds
      all the same for exactly these lengths. */
  lemma FormatExact(len: nat, value: nat, decimals: nat)
    ensures Fits(len, value, decimals)
            && CString(Written(Nuls(len), value, decimals)) == Some(AmountText(value, decimals))
       <==> len >= Needed(value, decimals)
    ensures Fits(len, value, decimals)
            && CString(Written(Nuls(len), value, decimals)) != Some(AmountText(value, decimals))
       <==> var n := |Decimal(value)|;
            if n <= decimals then decimals + 3 - n <= len < decimals + 3 else decimals == 0 && len == n + 2
  {
    hide Decimal, AmountText, CString;
    var t, n := AmountText(value, decimals), |Decimal(value)|;
    TextShape(value, decimals);
    TextParts(value, decimals);
    if Fits(len, value, decimals) {
      var s := Written(Nuls(len), value, decimals);
      if n <= decimals && |t| >= len {
        NoNul(s);
      } else if |t| < len {
        assert s == t + Nuls(len - |t|);
        CStringOf(t, Nuls(len - |t|));
      } else {
        assert s == t;
        NoNul(s);
      }
    }
  }
}
