/** Bytes, little and big endian numbers, two's complement, and the Bitcoin style varint. */
module Bytes {
  type u8 = x: int | 0 <= x < 256
  type bytes = seq<u8>

  datatype Endian = LE | BE

  function Pow256(n: nat): (r: nat)
    ensures r > 0
  {
    if n == 0 then 1 else 256 * Pow256(n - 1)
  }

  /** The powers the code's integer widths need, as plain numbers. */
  lemma Widths()
    ensures Pow256(1) == 0x100 && Pow256(2) == 0x1_0000
    ensures Pow256(4) == 0x1_0000_0000 && Pow256(8) == 0x1_0000_0000_0000_0000
  {
    assert Pow256(4) == 256 * Pow256(3) && Pow256(3) == 256 * Pow256(2);
    assert Pow256(8) == 256 * Pow256(7) && Pow256(7) == 256 * Pow256(6);
    assert Pow256(6) == 256 * Pow256(5) && Pow256(5) == 256 * Pow256(4);
  }

  function FromLE(s: bytes): (v: nat)
    ensures v < Pow256(|s|)
  {
    if s == [] then 0 else s[0] + 256 * FromLE(s[1..])
  }

  function FromBE(s: bytes): (v: nat)
    ensures v < Pow256(|s|)
  {
    if s == [] then 0 else FromBE(s[..|s| - 1]) * 256 + s[|s| - 1]
  }

  function Decode(s: bytes, e: Endian): (v: nat)
    ensures v < Pow256(|s|)
  {
    if e == BE then FromBE(s) else FromLE(s)
  }

  /** The last byte of a big-endian number counts least, the first byte of a little-endian one. */
  lemma ByteOrder(a: u8, b: u8, c: u8, d: u8)
    ensures FromBE([a, b, c, d]) == 0x100_0000 * a + 0x1_0000 * b + 0x100 * c + d == FromLE([d, c, b, a])
  {
    assert [a, b, c, d][..3] == [a, b, c] && [a, b, c][..2] == [a, b] && [a, b][..1] == [a] && [a][..0] == [];
    assert FromBE([a]) == a && FromBE([a, b]) == FromBE([a]) * 256 + b;
    assert FromBE([a, b, c]) == FromBE([a, b]) * 256 + c;
    assert [d, c, b, a][1..] == [c, b, a] && [c, b, a][1..] == [b, a] && [b, a][1..] == [a];
    assert FromLE([a]) == a && FromLE([b, a]) == b + 256 * FromLE([a]);
    assert FromLE([c, b, a]) == c + 256 * FromLE([b, a]);
  }

  /** `v` as exactly `n` little-endian bytes. */
  function ToLE(v: nat, n: nat): (s: bytes)
    requires v < Pow256(n)
    ensures |s| == n && FromLE(s) == v
  {
    if n == 0 then [] else [v % 256] + ToLE(v / 256, n - 1)
  }

  lemma {:induction false} ToLEOfFromLE(s: bytes)
    ensures ToLE(FromLE(s), |s|) == s
  {
    if s != [] {
      ToLEOfFromLE(s[1..]);
      var v, rest := FromLE(s), FromLE(s[1..]);
      assert v % 256 == s[0] && v / 256 == rest;
    }
  }

  /** Two's complement: what a cast of an `n` byte unsigned number to the signed type gives. */
  function Signed(v: nat, n: nat): int
    requires v < Pow256(n)
  {
    if 2 * v < Pow256(n) then v else v - Pow256(n)
  }

  /** The cast changes nothing modulo the width, and gives the one such number in the signed
      range. */
  lemma SignedIsCast(v: nat, n: nat, x: int)
    requires v < Pow256(n) && n > 0
    ensures 0 <= 2 * Signed(v, n) + Pow256(n) < 2 * Pow256(n)
    ensures Signed(v, n) == v || Signed(v, n) == v - Pow256(n)
    ensures 0 <= 2 * x + Pow256(n) < 2 * Pow256(n) && (x == v || x == v - Pow256(n)) ==> x == Signed(v, n)
  {
  }

  /** `v & mask == mask` for a one-bit `mask`. */
  predicate HasFlag(v: u8, mask: nat)
    requires mask > 0
  {
    (v / mask) % 2 == 1
  }

  /** The three masks that are asked for are the bits 4, 5 and 7. */
  lemma FlagIsBit(low: nat, b4: nat, b5: nat, b6: nat, b7: nat)
    requires low < 16 && b4 < 2 && b5 < 2 && b6 < 2 && b7 < 2
    ensures var v := low + 0x10 * b4 + 0x20 * b5 + 0x40 * b6 + 0x80 * b7;
            (HasFlag(v, 0x10) <==> b4 == 1) && (HasFlag(v, 0x20) <==> b5 == 1) && (HasFlag(v, 0x80) <==> b7 == 1)
  {
    hide HasFlag;
    var v := low + 0x10 * b4 + 0x20 * b5 + 0x40 * b6 + 0x80 * b7;
    BitAt(v, 0x10, low, b4, b5 + 2 * b6 + 4 * b7);
    BitAt(v, 0x20, low + 0x10 * b4, b5, b6 + 2 * b7);
    BitAt(v, 0x80, low + 0x10 * b4 + 0x20 * b5 + 0x40 * b6, b7, 0);
  }

  lemma BitAt(v: u8, mask: nat, low: nat, bit: nat, high: nat)
    requires mask in {0x10, 0x20, 0x80} && low < mask && bit < 2
    requires mask == 0x10 ==> v == low + 0x10 * (bit + 2 * high)
    requires mask == 0x20 ==> v == low + 0x20 * (bit + 2 * high)
    requires mask == 0x80 ==> v == low + 0x80 * (bit + 2 * high)
    ensures HasFlag(v, mask) <==> bit == 1
  {
    assert v / mask == bit + 2 * high;
  }

  /** The `n` bytes at `a`; empty when they are not all there. */
  function At(d: bytes, a: nat, n: nat): (s: bytes)
    ensures |s| == n || s == []
  {
    if a + n <= |d| then d[a..a + n] else []
  }

  lemma AtPrefix(d: bytes, k: nat, a: nat, n: nat)
    requires a + n <= k <= |d|
    ensures At(d[..k], a, n) == At(d, a, n)
  {
  }

  /** `d` from `k` on is `x` followed by `rest`. */
  lemma Peel(d: bytes, k: nat, x: bytes, rest: bytes)
    requires k <= |d| && d[k..] == x + rest
    ensures k + |x| <= |d| && At(d, k, |x|) == x && d[k + |x|..] == rest
  {
    assert d[k + |x|..] == d[k..][|x|..];
    assert d[k..k + |x|] == d[k..][..|x|];
  }

  lemma Unpeel(d: bytes, i: nat, j: nat, rest: bytes)
    requires i <= j <= |d| && d[j..] == rest
    ensures d[i..] == d[i..j] + rest
  {
  }

  // ---- varint ----

  /** Number of bytes a varint with this first byte takes. */
  function VarintLen(prefix: u8): (n: nat)
    ensures n in {1, 3, 5, 9}
  {
    if prefix == 0xFD then 3 else if prefix == 0xFE then 5 else if prefix == 0xFF then 9 else 1
  }

  predicate IsVarint(s: bytes) {
    s != [] && |s| == VarintLen(s[0])
  }

  function VarintValue(s: bytes): nat
    requires IsVarint(s)
  {
    if |s| == 1 then s[0] else FromLE(s[1..])
  }

  /** The host's encoder. It leaves the one-byte form at 0xFC already, one value early;
      the three-byte form of 0xFC is read back all the same. */
  function WriteVarint(n: nat): (s: bytes)
    requires n < 0x1_0000_0000_0000_0000
  {
    Widths();
    if n < 0xFC then [n]
    else if n <= 0xFFFF then [0xFD] + ToLE(n, 2)
    else if n <= 0xFFFF_FFFF then [0xFE] + ToLE(n, 4)
    else [0xFF] + ToLE(n, 8)
  }

  /** Every u64 the host writes is read back, whatever follows it. */
  lemma VarintRoundTrip(n: nat, rest: bytes)
    requires n < 0x1_0000_0000_0000_0000
    ensures IsVarint(WriteVarint(n)) && VarintValue(WriteVarint(n)) == n
    ensures var k := VarintLen((WriteVarint(n) + rest)[0]);
            k <= |WriteVarint(n) + rest| && (WriteVarint(n) + rest)[..k] == WriteVarint(n)
  {
    Widths();
    var s := WriteVarint(n);
    if n >= 0xFC {
      var body := if n <= 0xFFFF then ToLE(n, 2) else if n <= 0xFFFF_FFFF then ToLE(n, 4) else ToLE(n, 8);
      assert s[1..] == body;
    }
    assert (s + rest)[..|s|] == s;
  }

  /** A varint has a number in one of four forms, the shortest or not. */
  lemma VarintForms(s: bytes, n: nat)
    ensures IsVarint(s) && VarintValue(s) == n <==>
            || (n < 0xFD && s == [n])
            || (n < Pow256(2) && s == [0xFD] + ToLE(n, 2))
            || (n < Pow256(4) && s == [0xFE] + ToLE(n, 4))
            || (n < Pow256(8) && s == [0xFF] + ToLE(n, 8))
  {
    hide FromLE, ToLE, Pow256;
    Widths();
    if IsVarint(s) && |s| > 1 {
      ToLEOfFromLE(s[1..]);
      assert s == [s[0]] + s[1..];
    }
    FormRead(s, 0xFD, n, 2);
    FormRead(s, 0xFE, n, 4);
    FormRead(s, 0xFF, n, 8);
  }

  lemma FormRead(s: bytes, prefix: u8, n: nat, width: nat)
    requires prefix >= 0xFD && VarintLen(prefix) == 1 + width
    ensures n < Pow256(width) && s == [prefix] + ToLE(n, width) ==> IsVarint(s) && VarintValue(s) == n
  {
    if n < Pow256(width) && s == [prefix] + ToLE(n, width) {
      assert s[1..] == ToLE(n, width);
    }
  }

  /** The host writes the shortest form of every number but 0xFC. */
  lemma ShortestVarint(n: nat)
    requires n < 0x1_0000_0000_0000_0000
    ensures (forall s :: IsVarint(s) && VarintValue(s) == n ==> |WriteVarint(n)| <= |s|) <==> n != 0xFC
  {
    hide FromLE, ToLE, Pow256, IsVarint, VarintValue;
    Widths();
    forall s | IsVarint(s) && VarintValue(s) == n ensures n != 0xFC ==> |WriteVarint(n)| <= |s| {
      VarintForms(s, n);
    }
    if n == 0xFC {
      VarintForms([n], n);
    }
  }
}
