/** The two script recognisers, and the byte languages they decide. */
module Scripts {
  import opened Options
  import opened Bytes
  import opened Buffers
  import opened Transactions

  const PUSH_HASH: bytes := [0x0C, 0x14]  // PUSHDATA1 of 20 bytes
  const PUSH_KEY: bytes := [0x0C, 0x21]   // PUSHDATA1 of 33 bytes
  const CALL_TRANSFER: bytes :=
    [0x14, 0xC0, 0x1F, 0x0C, 0x08, 0x74, 0x72, 0x61, 0x6e, 0x73, 0x66, 0x65, 0x72, 0x0C, 0x14]
  const CALL_VOTE: bytes := [0x12, 0xC0, 0x1F, 0x0C, 0x04, 0x76, 0x6f, 0x74, 0x65, 0x0C, 0x14]
  const NEO_HASH: bytes := [0xf5, 0x63, 0xea, 0x40, 0xbc, 0x28, 0x3d, 0x4d, 0x0e, 0x05,
                            0xc4, 0x8e, 0xa3, 0x05, 0xb3, 0xf2, 0xa0, 0x73, 0x40, 0xef]
  const GAS_HASH: bytes := [0xcf, 0x76, 0xe2, 0x8b, 0xd0, 0x06, 0x2c, 0x4a, 0x47, 0x8e,
                            0xe3, 0x55, 0x61, 0x01, 0x13, 0x19, 0xf3, 0xcf, 0xa4, 0xd2]
  const SYSCALL: bytes := [0x41, 0x62, 0x7d, 0x5b, 0x52]

  // ---- the languages ----

  /** `push` is an integer push the device supports and `a` is the amount it stores for it.
      The one-byte operand is taken as unsigned. */
  predicate IsPush(push: bytes, a: int) {
    || (|push| == 1 && 0x10 <= push[0] <= 0x20 && a == push[0] - 0x10)
    || (|push| == 2 && push[0] == 0 && a == push[1])
    || (|push| == 3 && push[0] == 1 && a == Signed(FromLE(push[1..]), 2))
    || (|push| == 5 && push[0] == 2 && a == Signed(FromLE(push[1..]), 4))
    || (|push| == 9 && push[0] == 3 && a == Signed(FromLE(push[1..]), 8))
  }

  function TransferTail(src: bytes, token: bytes): bytes {
    PUSH_HASH + (src + (CALL_TRANSFER + (token + SYSCALL)))
  }

  function TransferScript(push: bytes, dst: bytes, src: bytes, token: bytes): bytes {
    [0x0B] + (push + (PUSH_HASH + (dst + TransferTail(src, token))))
  }

  function Token(neo: bool): (h: bytes) {
    if neo then NEO_HASH else GAS_HASH
  }

  ghost predicate IsTransferScript(s: bytes, a: int, dst: bytes, neo: bool) {
    exists push, src :: IsPush(push, a) && |dst| == UINT160_LEN && |src| == UINT160_LEN
                        && s == TransferScript(push, dst, src, Token(neo))
  }

  /** What a vote script starts with: nothing to vote for, or a compressed key. */
  function Candidate(key: Option<bytes>): bytes {
    match key case None => [0x0B] case Some(k) => PUSH_KEY + k
  }

  predicate IsCompressedKey(k: bytes) {
    |k| == ECPOINT_LEN && (k[0] == 2 || k[0] == 3)
  }

  function VoteScript(key: Option<bytes>, src: bytes): bytes {
    Candidate(key) + (PUSH_HASH + (src + (CALL_VOTE + (NEO_HASH + SYSCALL))))
  }

  ghost predicate IsVoteScript(s: bytes, key: Option<bytes>) {
    (key.Some? ==> IsCompressedKey(key.value))
    && exists src :: |src| == UINT160_LEN && s == VoteScript(key, src)
  }

  // ---- what the recognisers leave in the transaction ----

  /** The operand of the push at `k` and where the next instruction starts. */
  function ReadPush(s: bytes, k: nat): (r: Option<(int, nat)>)
    ensures r.Some? ==> k < r.value.1 <= |s|
  {
    if k >= |s| then None
    else if 0x10 <= s[k] <= 0x20 then Some((s[k] - 0x10, k + 1))
    else
      var n := if s[k] == 0 then 1 else if s[k] == 1 then 2 else if s[k] == 2 then 4 else if s[k] == 3 then 8 else 0;
      if n == 0 || k + 1 + n > |s| then None
      else if n == 1 then Some((s[k + 1], k + 2))
      else Some((Signed(FromLE(s[k + 1..k + 1 + n]), n), k + 1 + n))
  }

  /** `tx` with the recognisers' fields of `t`. */
  function WithClass(tx: Tx, t: Tx): Tx {
    tx.(isTransfer := t.isTransfer, isNeo := t.isNeo, amount := t.amount, dst := t.dst,
        isVote := t.isVote, isRemoveVote := t.isRemoveVote, voteTo := t.voteTo)
  }

  function TransferEffect(s: bytes, tx: Tx): (t: Tx)
    ensures t == WithClass(tx, t)
  {
    if |s| < 1 || s[0] != 0x0B || ReadPush(s, 1).None? then tx
    else
      var (a, n) := ReadPush(s, 1).value;
      AfterAmount(s, n, tx.(amount := a))
  }

  function AfterAmount(s: bytes, n: nat, tx: Tx): (t: Tx)
    ensures t == WithClass(tx, t)
  {
    if At(s, n, 2) != PUSH_HASH || n + 22 > |s| then tx
    else AfterDestination(s, n + 22, tx.(dst := s[n + 2..n + 22]))
  }

  function AfterDestination(s: bytes, n: nat, tx: Tx): (t: Tx)
    ensures t == WithClass(tx, t)
  {
    if At(s, n, 2) != PUSH_HASH || n + 22 > |s| || At(s, n + 22, 15) != CALL_TRANSFER
       || (At(s, n + 37, 20) != NEO_HASH && At(s, n + 37, 20) != GAS_HASH) then tx
    else
      var u := tx.(isNeo := tx.isNeo || At(s, n + 37, 20) == NEO_HASH);
      if At(s, n + 57, 5) != SYSCALL || n + 62 != tx.scriptSize then u else u.(isTransfer := true)
  }

  function VoteEffect(s: bytes, tx: Tx): (t: Tx)
    ensures t == WithClass(tx, t)
  {
    if |s| < 1 then tx
    else if s[0] == 0x0B then AfterCandidate(s, 1, tx.(isRemoveVote := true))
    else if At(s, 0, 2) != PUSH_KEY || |s| < 35 || (s[2] != 2 && s[2] != 3) then tx
    else AfterCandidate(s, 35, tx.(voteTo := s[2..35], isRemoveVote := false))
  }

  function AfterCandidate(s: bytes, n: nat, tx: Tx): (t: Tx)
    ensures t == WithClass(tx, t)
  {
    if At(s, n, 2) == PUSH_HASH && n + 22 <= |s| && At(s, n + 22, 11) == CALL_VOTE
       && At(s, n + 33, 20) == NEO_HASH && At(s, n + 53, 5) == SYSCALL && n + 58 == tx.scriptSize
    then tx.(isVote := true)
    else tx
  }

  /** Transfer first; vote only when it is not a transfer. Only the recognisers' own fields
      change. */
  function Recognise(s: bytes, tx: Tx): (t: Tx)
    ensures t == WithClass(tx, t)
  {
    var u := TransferEffect(s, tx);
    if u.isTransfer then u else VoteEffect(s, u)
  }

  // ---- the recognisers themselves ----

  lemma TwoBytesBE(s: bytes, hi: u8, lo: u8)
    requires |s| == 2
    ensures FromBE(s) == 256 * hi + lo <==> s == [hi, lo]
  {
    assert s[..1][..0] == [];
    assert FromBE(s[..1]) == s[0];
  }

  /** Compares the bytes at the cursor and steps over them when they are the expected ones. */
  method Expect(script: Buffer, expected: bytes) returns (ok: bool)
    requires script.Valid()
    modifies script
    ensures script.Valid()
    ensures ok == (old(script.CanRead(|expected|))
                   && At(script.data, old(script.offset), |expected|) == expected)
    ensures script.offset == if ok then old(script.offset) + |expected| else old(script.offset)
  {
    ok := script.CanRead(|expected|) && script.data[script.offset..script.offset + |expected|] == expected;
    if ok {
      var _ := script.SeekCur(|expected|);
    }
  }

  /** Reads the two-byte header of a 20-byte push, then the 20 bytes. */
  method ReadHash(script: Buffer) returns (ok: bool, hash: nat)
    requires script.Valid()
    modifies script
    ensures script.Valid()
    ensures ok == (At(script.data, old(script.offset), 2) == PUSH_HASH && old(script.offset) + 22 <= |script.data|)
    ensures ok ==> hash == old(script.offset) + 2 && script.offset == old(script.offset) + 22
  {
    ok, hash := false, 0;
    var read, u16 := script.ReadUnsigned(2, BE);
    if !read { return; }
    TwoBytesBE(script.data[old(script.offset)..old(script.offset) + 2], 0x0C, 0x14);
    if u16 != 0x0C14 { return; }
    hash := script.offset;
    ok := script.SeekCur(UINT160_LEN);
  }

  /** Reads the amount operand; on an unsupported or cut push nothing is stored. */
  method ReadAmount(script: Buffer) returns (ok: bool, amount: int)
    requires script.Valid()
    modifies script
    ensures script.Valid()
    ensures ok == ReadPush(script.data, old(script.offset)).Some?
    ensures ok ==> ReadPush(script.data, old(script.offset)).value == (amount, script.offset)
  {
    amount := 0;
    var op;
    ok, op := script.ReadU8();
    if !ok { return; }
    if op >= 0x10 && op <= 0x20 {
      amount := op - 0x10;
    } else if op == 0x00 {
      ok, amount := script.ReadU8();
    } else if op == 0x01 {
      ok, amount := script.ReadSigned(2, LE);
    } else if op == 0x02 {
      ok, amount := script.ReadSigned(4, LE);
    } else if op == 0x03 {
      ok, amount := script.ReadSigned(8, LE);
    } else {
      ok := false;
    }
  }

  method TryParseTransferScript(script: Buffer, tx: Transaction)
    requires script.offset == 0
    modifies script, tx
    ensures tx.Value() == TransferEffect(script.data, old(tx.Value()))
    ensures script.Valid()
  {
    var ok, op := script.ReadU8();
    if !ok || op != 0x0B { return; }
    var amount;
    ok, amount := ReadAmount(script);
    if !ok { return; }
    tx.amount := amount;
    ParseDestination(script, tx);
  }

  /** The destination script hash, and what follows it. */
  method ParseDestination(script: Buffer, tx: Transaction)
    requires script.Valid()
    modifies script, tx
    ensures tx.Value() == AfterAmount(script.data, old(script.offset), old(tx.Value()))
    ensures script.Valid()
  {
    var ok, hash := ReadHash(script);
    if !ok { return; }
    tx.dst := script.data[hash..hash + UINT160_LEN];
    ParseTransferTail(script, tx);
  }

  /** From the source script hash to the end of the script. */
  method ParseTransferTail(script: Buffer, tx: Transaction)
    requires script.Valid()
    modifies script, tx
    ensures tx.Value() == AfterDestination(script.data, old(script.offset), old(tx.Value()))
    ensures script.Valid()
  {
    var s := script.data;
    var ok, _ := ReadHash(script);
    if !ok { return; }
    ok := Expect(script, CALL_TRANSFER);
    if !ok { return; }
    if !script.CanRead(UINT160_LEN) { return; }
    var token := s[script.offset..script.offset + UINT160_LEN];
    if token == NEO_HASH {
      tx.isNeo := true;
    } else if token != GAS_HASH {
      return;
    }
    var _ := script.SeekCur(UINT160_LEN);
    ok := Expect(script, SYSCALL);
    if !ok || script.offset != tx.scriptSize { return; }
    tx.isTransfer := true;
  }

  method TryParseVoteScript(script: Buffer, tx: Transaction)
    requires script.offset == 0
    modifies script, tx
    ensures tx.Value() == VoteEffect(script.data, old(tx.Value()))
    ensures script.Valid()
  {
    var s := script.data;
    var ok, op := script.ReadU8();
    if !ok || (op != 0x0B && op != 0x0C) { return; }
    if op == 0x0B {
      tx.isRemoveVote := true;
    } else {
      ok, op := script.ReadU8();
      if !ok || op != 0x21 { return; }
      assert s[0..2] == PUSH_KEY;
      var key := script.offset;
      ok := script.SeekCur(ECPOINT_LEN);
      if !ok || (s[key] != 0x02 && s[key] != 0x03) { return; }
      tx.voteTo := s[key..key + ECPOINT_LEN];
      tx.isRemoveVote := false;
    }

    ParseVoteTail(script, tx);
  }

  /** From the voter's script hash to the end of the script. */
  method ParseVoteTail(script: Buffer, tx: Transaction)
    requires script.Valid()
    modifies script, tx
    ensures tx.Value() == AfterCandidate(script.data, old(script.offset), old(tx.Value()))
    ensures script.Valid()
  {
    var ok, _ := ReadHash(script);
    if !ok { return; }
    ok := Expect(script, CALL_VOTE);
    if !ok { return; }
    ok := Expect(script, NEO_HASH);
    if !ok { return; }
    ok := Expect(script, SYSCALL);
    if !ok || script.offset != tx.scriptSize { return; }
    tx.isVote := true;
  }
}
