/** Which key paths the device accepts, told from the bytes that ask for them. */
module Paths {
  import opened Bytes
  import opened Session

  /** The number that the four bytes of level `k` make. */
  function Word(data: bytes, k: nat): nat
    requires 4 * k + 4 <= |data|
  {
    0x100_0000 * (data[4 * k] as nat) + 0x1_0000 * (data[4 * k + 1] as nat)
    + 0x100 * (data[4 * k + 2] as nat) + data[4 * k + 3]
  }

  /** The levels that are asked for. */
  function Requested(data: bytes): (path: seq<nat>)
    requires |data| >= BIP44_BYTE_LENGTH
    ensures |path| == BIP44_PATH_LEN
  {
    [Word(data, 0), Word(data, 1), Word(data, 2), Word(data, 3), Word(data, 4)]
  }

  /** What level `k` of an account path may be. */
  predicate LevelFits(k: nat, v: nat) {
    if k == 0 then v == 0x8000_002C
    else if k == 1 then v == 0x8000_0378
    else if k == 2 then 0x8000_0000 <= v <= 0x8000_0010
    else if k == 3 then v in {0, 1}
    else v < 5000
  }

  /** The account paths that the app accepts. */
  predicate AccountPath(p: seq<nat>) {
    |p| == BIP44_PATH_LEN && forall k :: 0 <= k < BIP44_PATH_LEN ==> LevelFits(k, p[k])
  }

  /** A request for an account path; more bytes may follow it. */
  predicate AsksAccount(data: bytes) {
    |data| >= BIP44_BYTE_LENGTH && AccountPath(Requested(data))
  }

  /** The first level that does not fit. */
  predicate FirstBad(p: seq<nat>, k: nat) {
    k < |p| && !LevelFits(k, p[k]) && forall j :: 0 <= j < k ==> LevelFits(j, p[j])
  }

  /** The level that a status is about. */
  predicate Blames(status: Bip44Status, k: nat) {
    match k
    case 0 => status == BadPurpose
    case 1 => status == BadCoinType
    case 2 => status in {AccountNotHardened, BadAccount}
    case 3 => status == BadChange
    case 4 => status == BadAddress
    case _ => false
  }

  lemma LevelIsWord(data: bytes, k: nat)
    requires 4 * k + 4 <= |data|
    ensures Level(data, k) == Word(data, k)
  {
    var s := data[4 * k..4 * k + 4];
    ByteOrder(s[0], s[1], s[2], s[3]);
    assert s == [s[0], s[1], s[2], s[3]];
  }

  lemma LevelsAreWords(data: bytes)
    requires |data| >= BIP44_BYTE_LENGTH
    ensures forall k :: 0 <= k < BIP44_PATH_LEN ==> Level(data, k) == Requested(data)[k]
  {
    hide Level, Word;
    forall k | 0 <= k < BIP44_PATH_LEN ensures Level(data, k) == Requested(data)[k] {
      LevelIsWord(data, k);
    }
  }

  /** A path is accepted if and only if it is an account path. Otherwise the status is about
      the first level that does not fit. */
  lemma PathVerdict(data: bytes)
    ensures Bip44(data) == PathOk <==> AsksAccount(data)
    ensures Bip44(data) == TooShort <==> |data| < BIP44_BYTE_LENGTH
    ensures |data| >= BIP44_BYTE_LENGTH ==>
              forall k :: 0 <= k < BIP44_PATH_LEN ==> (Blames(Bip44(data), k) <==> FirstBad(Requested(data), k))
    ensures Bip44(data) == AccountNotHardened ==> Requested(data)[2] < 0x8000_0000
    ensures Bip44(data) == BadAccount ==> Requested(data)[2] > 0x8000_0010
  {
    hide Level, Requested;
    if |data| >= BIP44_BYTE_LENGTH {
      LevelsAreWords(data);
      var p := Requested(data);
      assert AccountPath(p) <==>
             LevelFits(0, p[0]) && LevelFits(1, p[1]) && LevelFits(2, p[2]) && LevelFits(3, p[3]) && LevelFits(4, p[4]);
    }
  }

  /** What is stored: an account path as it was asked for; of any other, the levels before the
      first one that does not fit, then zeroes. */
  lemma PathStored(data: bytes)
    ensures |data| < BIP44_BYTE_LENGTH ==> PathAfter(data) == ZeroPath()
    ensures AsksAccount(data) ==> PathAfter(data) == Requested(data)
    ensures |data| >= BIP44_BYTE_LENGTH ==>
              forall k: nat, j: nat :: FirstBad(Requested(data), k) && j < BIP44_PATH_LEN ==>
                PathAfter(data)[j] == if j < k then Requested(data)[j] else 0
  {
    hide Level, Requested, FirstBad, AccountPath, Bip44;
    PathVerdict(data);
    if |data| >= BIP44_BYTE_LENGTH {
      LevelsAreWords(data);
      forall k: nat | FirstBad(Requested(data), k) ensures k < BIP44_PATH_LEN && LevelsStored(Bip44(data)) == k {
        WithinPath(Requested(data), k);
        assert Blames(Bip44(data), k);
      }
    }
  }

  lemma PathAccepted(data: bytes)
    ensures Bip44(data) == PathOk <==> AsksAccount(data)
    ensures AsksAccount(data) ==> |data| >= BIP44_BYTE_LENGTH && PathAfter(data) == Requested(data)
  {
    hide *;
    PathVerdict(data);
    PathStored(data);
  }

  lemma WithinPath(p: seq<nat>, k: nat)
    requires FirstBad(p, k)
    ensures k < |p|
  {
  }

  /** What is stored is the path that was asked for, and an account path, exactly when it was
      accepted. It is the path that was asked for exactly when its levels from the first that
      does not fit on are zero. A bad last level leaves an account path, but another one. */
  lemma StoredExactly(data: bytes)
    requires |data| >= BIP44_BYTE_LENGTH
    ensures Bip44(data) == PathOk <==> PathAfter(data) == Requested(data) && AccountPath(PathAfter(data))
    ensures PathAfter(data) == Requested(data) <==>
            forall k: nat, j: nat :: FirstBad(Requested(data), k) && k <= j < BIP44_PATH_LEN ==> Requested(data)[j] == 0
    ensures Bip44(data) == BadAddress ==> AccountPath(PathAfter(data)) && PathAfter(data) != Requested(data)
  {
    hide Requested, PathAfter, Bip44, FirstBad;
    PathVerdict(data);
    PathStored(data);
    var p, q := PathAfter(data), Requested(data);
    if !AsksAccount(data) {
      var k := SomeBad(q);
      OneBad(q, k);
      assert p == q <==> forall j :: 0 <= j < BIP44_PATH_LEN ==> p[j] == q[j];
    }
    NoneBad(q);
    if Bip44(data) == BadAddress {
      assert Blames(Bip44(data), 4);
      LastBad(p, q);
    }
  }

  lemma SomeBad(p: seq<nat>) returns (k: nat)
    requires |p| == BIP44_PATH_LEN && !AccountPath(p)
    ensures FirstBad(p, k)
  {
    k := if !LevelFits(0, p[0]) then 0 else if !LevelFits(1, p[1]) then 1 else if !LevelFits(2, p[2]) then 2
         else if !LevelFits(3, p[3]) then 3 else 4;
  }

  lemma OneBad(p: seq<nat>, k: nat)
    requires FirstBad(p, k)
    ensures forall j: nat :: FirstBad(p, j) ==> j == k
  {
  }

  lemma NoneBad(p: seq<nat>)
    requires |p| == BIP44_PATH_LEN
    ensures AccountPath(p) ==> forall k: nat :: !FirstBad(p, k)
  {
  }

  lemma LastBad(p: seq<nat>, q: seq<nat>)
    requires |p| == |q| == BIP44_PATH_LEN && FirstBad(q, 4) && p[4] == 0
    requires forall j :: 0 <= j < 4 ==> p[j] == q[j]
    ensures AccountPath(p) && p != q
  {
  }
}
