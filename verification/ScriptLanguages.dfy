/** The recognisers accept exactly their languages, and the languages are disjoint. */
module ScriptLanguages {
  import opened Options
  import opened Bytes
  import opened Transactions
  import opened Scripts

  ghost predicate InTransfer(s: bytes) {
    exists a, dst, neo :: IsTransferScript(s, a, dst, neo)
  }

  ghost predicate InVote(s: bytes) {
    exists key :: IsVoteScript(s, key)
  }

  // ---- the amount operand ----

  lemma ReadPushAt(s: bytes, push: bytes, a: int)
    requires IsPush(push, a) && At(s, 1, |push|) == push
    ensures ReadPush(s, 1) == Some((a, 1 + |push|))
  {
    assert forall k :: 0 <= k < |push| ==> s[1 + k] == push[k];
    assert s[2..1 + |push|] == push[1..];
  }

  lemma PushRead(s: bytes)
    requires |s| > 0 && ReadPush(s, 1).Some?
    ensures IsPush(s[1..ReadPush(s, 1).value.1], ReadPush(s, 1).value.0)
  {
    var n := ReadPush(s, 1).value.1;
    assert s[1..n][0] == s[1];
    assert s[1..n][1..] == s[2..n];
  }

  /** The shortest push of a non-negative amount, as script builders emit it. */
  function MinimalPush(a: nat): (push: bytes)
    requires a < 0x8000_0000_0000_0000
  {
    Widths();
    if a <= 16 then [0x10 + a]
    else if a < 0x80 then [0x00, a]
    else if a < 0x8000 then [0x01] + ToLE(a, 2)
    else if a < 0x8000_0000 then [0x02] + ToLE(a, 4)
    else [0x03] + ToLE(a, 8)
  }

  /** Every amount a transfer can carry is stored as it was pushed. */
  lemma MinimalPushAmount(a: nat)
    requires a < 0x8000_0000_0000_0000
    ensures IsPush(MinimalPush(a), a)
  {
    Widths();
    if a >= 0x80 {
      var n := if a < 0x8000 then 2 else if a < 0x8000_0000 then 4 else 8;
      assert MinimalPush(a)[1..] == ToLE(a, n);
    }
  }

  /** A one-byte operand is meant as two's complement, but its unsigned value is stored:
      the two agree exactly for operands below 0x80. */
  lemma OneByteOperand(b: u8, a: int)
    requires IsPush([0x00, b], a)
    ensures Pow256(1) == 256
    ensures a == Signed(b, 1) <==> b < 0x80
  {
    Widths();
  }

  /** The number that a push means: its operand in two's complement, at every width. */
  function Meant(push: bytes): int
    requires |push| in {1, 2, 3, 5, 9}
  {
    if |push| == 1 then push[0] - 0x10 else Signed(FromLE(push[1..]), |push| - 1)
  }

  /** A non-negative operand is stored as it was meant. A negative one is stored as another
      number only when it has one byte. */
  lemma StoredAsMeant(push: bytes, a: int)
    requires IsPush(push, a)
    ensures a == Meant(push) <==> |push| != 2 || Meant(push) >= 0
    ensures Meant(push) < 0 && |push| == 2 ==> a == Meant(push) + 256
    ensures -0x8000_0000_0000_0000 <= Meant(push) < 0x8000_0000_0000_0000
  {
    Widths();
    if |push| == 2 {
      assert push[1..] == [push[1]] && FromLE([push[1]]) == push[1] by { assert [push[1]][1..] == []; }
    }
  }

  /** It means that amount, and no shorter push that the device supports does. */
  lemma MinimalPushShortest(a: nat, push: bytes, stored: int)
    requires a < 0x8000_0000_0000_0000 && IsPush(push, stored) && Meant(push) == a
    ensures IsPush(MinimalPush(a), a) && Meant(MinimalPush(a)) == a && |MinimalPush(a)| <= |push|
  {
    Widths();
    MinimalPushAmount(a);
    StoredAsMeant(MinimalPush(a), a);
    MeantBelow(push, stored);
    if |MinimalPush(a)| == 2 { assert MinimalPush(a)[1] < 0x80; OneOperand(MinimalPush(a)); }
  }

  lemma OneOperand(push: bytes)
    requires |push| == 2
    ensures Meant(push) == if push[1] < 0x80 then push[1] else push[1] as int - 0x100
  {
    Widths();
    assert push[1..] == [push[1]] && [push[1]][1..] == [];
  }

  lemma MeantBelow(push: bytes, stored: int)
    requires IsPush(push, stored)
    ensures |push| == 1 ==> Meant(push) <= 16
    ensures |push| == 2 ==> Meant(push) < 0x80
    ensures |push| == 3 ==> Meant(push) < 0x8000
    ensures |push| == 5 ==> Meant(push) < 0x8000_0000
  {
    Widths();
  }

  // ---- transfer ----

  lemma TransferPieces(s: bytes, push: bytes, dst: bytes, src: bytes, token: bytes)
    requires |push| > 0 && |dst| == 20 && |src| == 20 && |token| == 20
    requires s == TransferScript(push, dst, src, token)
    ensures var n := 1 + |push|;
            |s| == n + 84 && s[..1] == [0x0B] && At(s, 1, |push|) == push
            && At(s, n, 2) == PUSH_HASH && At(s, n + 2, 20) == dst
            && At(s, n + 22, 2) == PUSH_HASH && At(s, n + 24, 20) == src
            && At(s, n + 44, 15) == CALL_TRANSFER && At(s, n + 59, 20) == token && At(s, n + 79, 5) == SYSCALL
  {
    var n := 1 + |push|;
    assert s[0..] == s;
    Peel(s, 0, [0x0B], push + (PUSH_HASH + (dst + TransferTail(src, token))));
    Peel(s, 1, push, PUSH_HASH + (dst + TransferTail(src, token)));
    Peel(s, n, PUSH_HASH, dst + TransferTail(src, token));
    Peel(s, n + 2, dst, TransferTail(src, token));
    Peel(s, n + 22, PUSH_HASH, src + (CALL_TRANSFER + (token + SYSCALL)));
    Peel(s, n + 24, src, CALL_TRANSFER + (token + SYSCALL));
    Peel(s, n + 44, CALL_TRANSFER, token + SYSCALL);
    Peel(s, n + 59, token, SYSCALL);
    assert SYSCALL + [] == SYSCALL;
    Peel(s, n + 79, SYSCALL, []);
  }

  lemma TransferAccepts(s: bytes, tx: Tx, a: int, dst: bytes, neo: bool)
    requires |s| == tx.scriptSize && IsTransferScript(s, a, dst, neo)
    ensures var t := TransferEffect(s, tx);
            t.isTransfer && t.amount == a && t.dst == dst && t.isNeo == (tx.isNeo || neo)
  {
    var push, src :| IsPush(push, a) && |dst| == 20 && |src| == 20 && s == TransferScript(push, dst, src, Token(neo));
    TransferPieces(s, push, dst, src, Token(neo));
    ReadPushAt(s, push, a);
    assert NEO_HASH[0] != GAS_HASH[0];
  }

  lemma TransferShape(s: bytes, tx: Tx) returns (a: int, dst: bytes, neo: bool)
    requires |s| == tx.scriptSize && !tx.isTransfer && TransferEffect(s, tx).isTransfer
    ensures IsTransferScript(s, a, dst, neo)
  {
    hide IsTransferScript, IsPush, ReadPush, TransferScript, Token;
    var n := TransferPassed(s, tx);
    a := ReadPush(s, 1).value.0;
    PushRead(s);
    dst, neo := s[n + 2..n + 22], At(s, n + 59, 20) == NEO_HASH;
    assert Token(neo) == At(s, n + 59, 20) by { TokenIs(neo); }
    TransferAssembled(s, n, s[1..n], dst, s[n + 24..n + 44], Token(neo));
    TransferBy(s, s[1..n], a, dst, s[n + 24..n + 44], neo);
  }

  /** Every comparison on the way to the flag has succeeded; `n` is where the push ends. */
  lemma TransferPassed(s: bytes, tx: Tx) returns (n: nat)
    requires |s| == tx.scriptSize && !tx.isTransfer && TransferEffect(s, tx).isTransfer
    ensures |s| > 0 && s[0] == 0x0B && ReadPush(s, 1).Some? && n == ReadPush(s, 1).value.1 && |s| == n + 84
    ensures At(s, n, 2) == PUSH_HASH && At(s, n + 22, 2) == PUSH_HASH && At(s, n + 44, 15) == CALL_TRANSFER
    ensures At(s, n + 59, 20) in {NEO_HASH, GAS_HASH} && At(s, n + 79, 5) == SYSCALL
  {
    hide At, ReadPush;
    n := ReadPush(s, 1).value.1;
  }

  lemma TokenIs(neo: bool)
    ensures Token(neo) == if neo then NEO_HASH else GAS_HASH
  {
  }

  lemma TransferBy(s: bytes, push: bytes, a: int, dst: bytes, src: bytes, neo: bool)
    requires IsPush(push, a) && |dst| == UINT160_LEN && |src| == UINT160_LEN
    requires s == TransferScript(push, dst, src, Token(neo))
    ensures IsTransferScript(s, a, dst, neo)
  {
  }

  lemma TransferAssembled(s: bytes, n: nat, push: bytes, dst: bytes, src: bytes, token: bytes)
    requires 1 < n && |s| == n + 84 && |dst| == 20 && |src| == 20 && |token| == 20
    requires s[0] == 0x0B && s[1..n] == push
    requires At(s, n, 2) == PUSH_HASH && At(s, n + 2, 20) == dst
    requires At(s, n + 22, 2) == PUSH_HASH && At(s, n + 24, 20) == src
    requires At(s, n + 44, 15) == CALL_TRANSFER && At(s, n + 59, 20) == token && At(s, n + 79, 5) == SYSCALL
    ensures s == TransferScript(push, dst, src, token)
  {
    assert s[n + 79..] == SYSCALL;
    Unpeel(s, n + 59, n + 79, SYSCALL);
    Unpeel(s, n + 44, n + 59, token + SYSCALL);
    Unpeel(s, n + 24, n + 44, CALL_TRANSFER + (token + SYSCALL));
    Unpeel(s, n + 22, n + 24, src + (CALL_TRANSFER + (token + SYSCALL)));
    Unpeel(s, n + 2, n + 22, TransferTail(src, token));
    Unpeel(s, n, n + 2, dst + TransferTail(src, token));
    Unpeel(s, 1, n, PUSH_HASH + (dst + TransferTail(src, token)));
    Unpeel(s, 0, 1, push + (PUSH_HASH + (dst + TransferTail(src, token))));
    assert s[0..1] == [0x0B];
    assert s[0..] == s;
  }

  /** The flag is set exactly for the transfer language, or was set before; the amount, the
      destination and the token are those that the script names, except that a NEO flag from
      before stays. */
  lemma TransferExact(s: bytes, tx: Tx)
    requires |s| == tx.scriptSize
    ensures TransferEffect(s, tx).isTransfer <==> tx.isTransfer || InTransfer(s)
    ensures forall a, dst, neo :: IsTransferScript(s, a, dst, neo) ==>
              var t := TransferEffect(s, tx); t.amount == a && t.dst == dst && t.isNeo == (tx.isNeo || neo)
  {
    if !tx.isTransfer && TransferEffect(s, tx).isTransfer {
      var _, _, _ := TransferShape(s, tx);
    }
    forall a, dst, neo | IsTransferScript(s, a, dst, neo)
      ensures var t := TransferEffect(s, tx);
              t.isTransfer && t.amount == a && t.dst == dst && t.isNeo == (tx.isNeo || neo)
    {
      TransferAccepts(s, tx, a, dst, neo);
    }
  }

  // ---- vote ----

  lemma VotePieces(s: bytes, key: Option<bytes>, src: bytes)
    requires (key.Some? ==> IsCompressedKey(key.value)) && |src| == 20 && s == VoteScript(key, src)
    ensures var n := |Candidate(key)|;
            |s| == n + 58 && s[..n] == Candidate(key)
            && At(s, n, 2) == PUSH_HASH && At(s, n + 2, 20) == src
            && At(s, n + 22, 11) == CALL_VOTE && At(s, n + 33, 20) == NEO_HASH && At(s, n + 53, 5) == SYSCALL
  {
    var n := |Candidate(key)|;
    assert s[0..] == s;
    Peel(s, 0, Candidate(key), PUSH_HASH + (src + (CALL_VOTE + (NEO_HASH + SYSCALL))));
    Peel(s, n, PUSH_HASH, src + (CALL_VOTE + (NEO_HASH + SYSCALL)));
    Peel(s, n + 2, src, CALL_VOTE + (NEO_HASH + SYSCALL));
    Peel(s, n + 22, CALL_VOTE, NEO_HASH + SYSCALL);
    Peel(s, n + 33, NEO_HASH, SYSCALL);
    assert SYSCALL + [] == SYSCALL;
    Peel(s, n + 53, SYSCALL, []);
  }

  lemma VoteAccepts(s: bytes, tx: Tx, key: Option<bytes>)
    requires |s| == tx.scriptSize && IsVoteScript(s, key)
    ensures var t := VoteEffect(s, tx);
            t.isVote && t.isRemoveVote == key.None? && (key.Some? ==> t.voteTo == key.value)
  {
    var src :| |src| == UINT160_LEN && s == VoteScript(key, src);
    VotePieces(s, key, src);
    if key.Some? {
      assert s[..35] == PUSH_KEY + key.value;
      assert s[0] == PUSH_KEY[0] && s[2] == s[..35][2] == key.value[0];
      assert At(s, 0, 2) == s[..35][..2] == PUSH_KEY;
      assert s[2..35] == s[..35][2..] == key.value;
    } else {
      assert s[0] == s[..1][0] == 0x0B;
    }
  }

  lemma VoteShape(s: bytes, tx: Tx) returns (key: Option<bytes>)
    requires |s| == tx.scriptSize && !tx.isVote && VoteEffect(s, tx).isVote
    ensures IsVoteScript(s, key)
  {
    key := if s[0] == 0x0B then None else Some(s[2..35]);
    assert s[..|Candidate(key)|] == Candidate(key);
    VoteAssembled(s, |Candidate(key)|, key);
  }

  lemma VoteAssembled(s: bytes, n: nat, key: Option<bytes>)
    requires (key.Some? ==> IsCompressedKey(key.value)) && n == |Candidate(key)| && |s| == n + 58
    requires s[..n] == Candidate(key) && At(s, n, 2) == PUSH_HASH
    requires At(s, n + 22, 11) == CALL_VOTE && At(s, n + 33, 20) == NEO_HASH && At(s, n + 53, 5) == SYSCALL
    ensures IsVoteScript(s, key)
  {
    var src := s[n + 2..n + 22];
    assert s[n + 53..] == SYSCALL;
    Unpeel(s, n + 33, n + 53, SYSCALL);
    Unpeel(s, n + 22, n + 33, NEO_HASH + SYSCALL);
    Unpeel(s, n + 2, n + 22, CALL_VOTE + (NEO_HASH + SYSCALL));
    Unpeel(s, n, n + 2, src + (CALL_VOTE + (NEO_HASH + SYSCALL)));
    assert s == s[..n] + s[n..];
    assert s[n..n + 2] == PUSH_HASH && s[n + 22..n + 33] == CALL_VOTE && s[n + 33..n + 53] == NEO_HASH;
    assert s == VoteScript(key, src);
  }

  /** The flag is set exactly for the vote language, or was set before; which vote it is, is
      what the script says. */
  lemma VoteExact(s: bytes, tx: Tx)
    requires |s| == tx.scriptSize
    ensures VoteEffect(s, tx).isVote <==> tx.isVote || InVote(s)
    ensures forall key :: IsVoteScript(s, key) ==>
              var t := VoteEffect(s, tx); t.isRemoveVote == key.None? && (key.Some? ==> t.voteTo == key.value)
  {
    if !tx.isVote && VoteEffect(s, tx).isVote {
      var _ := VoteShape(s, tx);
    }
    forall key | IsVoteScript(s, key)
      ensures var t := VoteEffect(s, tx);
              t.isVote && t.isRemoveVote == key.None? && (key.Some? ==> t.voteTo == key.value)
    {
      VoteAccepts(s, tx, key);
    }
  }

  // ---- together ----

  lemma TransferStart(s: bytes, a: int, dst: bytes, neo: bool)
    requires IsTransferScript(s, a, dst, neo)
    ensures |s| > 1 && s[0] == 0x0B && s[1] != 0x0C
  {
    var push, src :| IsPush(push, a) && |dst| == UINT160_LEN && |src| == UINT160_LEN
                     && s == TransferScript(push, dst, src, Token(neo));
    assert s[1] == push[0];
  }

  lemma VoteStart(s: bytes, key: Option<bytes>)
    requires IsVoteScript(s, key)
    ensures |s| > 1 && s[0] in {0x0B, 0x0C} && (s[0] == 0x0B ==> s[1] == 0x0C)
  {
    var src :| |src| == UINT160_LEN && s == VoteScript(key, src);
    VotePieces(s, key, src);
    if key.None? {
      assert s[1] == At(s, 1, 2)[0];
    } else {
      assert s[0] == s[..35][0] == PUSH_KEY[0];
    }
  }

  /** No script is both a transfer and a vote: after PUSHNULL one continues with an integer
      push and the other with a data push. */
  lemma Disjoint(s: bytes, a: int, dst: bytes, neo: bool, key: Option<bytes>)
    ensures !(IsTransferScript(s, a, dst, neo) && IsVoteScript(s, key))
  {
    if IsTransferScript(s, a, dst, neo) {
      TransferStart(s, a, dst, neo);
      if IsVoteScript(s, key) {
        VoteStart(s, key);
      }
    }
  }

  /** The fields that only their own flag makes meaningful, when the flag is set. */
  ghost predicate SameClass(x: Tx, y: Tx) {
    && x.isTransfer == y.isTransfer && x.isVote == y.isVote
    && (x.isTransfer ==> x.amount == y.amount && x.dst == y.dst && x.isNeo == y.isNeo)
    && (x.isVote ==> x.isRemoveVote == y.isRemoveVote && (!x.isRemoveVote ==> x.voteTo == y.voteTo))
  }

  function VoteFirst(s: bytes, tx: Tx): Tx {
    var t := VoteEffect(s, tx);
    if t.isVote then t else TransferEffect(s, t)
  }

  /** Neither flag stands from before, or the one that does is not joined by the other; with
      both, the recognisers leave their fields alone. */
  ghost predicate OrderFree(s: bytes, tx: Tx) {
    var t, v := TransferEffect(s, tx), VoteEffect(s, tx);
    if tx.isTransfer && tx.isVote then
      (t.amount, t.dst, t.isNeo) == (tx.amount, tx.dst, tx.isNeo)
      && v.isRemoveVote == tx.isRemoveVote && (tx.isRemoveVote || v.voteTo == tx.voteTo)
    else (tx.isTransfer ==> !InVote(s)) && (tx.isVote ==> !InTransfer(s))
  }

  lemma TransferKeepsVote(s: bytes, tx: Tx)
    ensures var t := TransferEffect(s, tx);
            (t.isVote, t.isRemoveVote, t.voteTo, t.scriptSize) == (tx.isVote, tx.isRemoveVote, tx.voteTo, tx.scriptSize)
  {
  }

  lemma VoteKeepsTransfer(s: bytes, tx: Tx)
    ensures var t := VoteEffect(s, tx);
            && (t.isTransfer, t.isNeo, t.amount, t.dst) == (tx.isTransfer, tx.isNeo, tx.amount, tx.dst)
            && t.scriptSize == tx.scriptSize
  {
  }

  ghost predicate SameTransfer(x: Tx, y: Tx) {
    x.isTransfer == y.isTransfer && x.isNeo == y.isNeo && x.amount == y.amount && x.dst == y.dst
  }

  lemma DestinationLooks(s: bytes, n: nat, x: Tx, y: Tx)
    requires SameTransfer(x, y) && x.scriptSize == y.scriptSize
    ensures SameTransfer(AfterDestination(s, n, x), AfterDestination(s, n, y))
  {
    hide At;
  }

  lemma AmountLooks(s: bytes, n: nat, x: Tx, y: Tx)
    requires SameTransfer(x, y) && x.scriptSize == y.scriptSize
    ensures SameTransfer(AfterAmount(s, n, x), AfterAmount(s, n, y))
  {
    hide At, AfterDestination;
    if At(s, n, 2) == PUSH_HASH && n + 22 <= |s| {
      var d := s[n + 2..n + 22];
      DestinationLooks(s, n + 22, x.(dst := d), y.(dst := d));
    }
  }

  /** A recogniser looks at its own fields only. */
  lemma TransferLooks(s: bytes, x: Tx, y: Tx)
    requires SameTransfer(x, y) && x.scriptSize == y.scriptSize
    ensures SameTransfer(TransferEffect(s, x), TransferEffect(s, y))
  {
    hide ReadPush, AfterAmount;
    if |s| > 0 && ReadPush(s, 1).Some? {
      var (a, n) := ReadPush(s, 1).value;
      AmountLooks(s, n, x.(amount := a), y.(amount := a));
    }
  }

  lemma VoteLooks(s: bytes, x: Tx, y: Tx)
    requires (x.isVote, x.isRemoveVote, x.voteTo, x.scriptSize) == (y.isVote, y.isRemoveVote, y.voteTo, y.scriptSize)
    ensures var t, u := VoteEffect(s, x), VoteEffect(s, y);
            (t.isVote, t.isRemoveVote, t.voteTo) == (u.isVote, u.isRemoveVote, u.voteTo)
  {
    hide At;
  }

  /** In which structs the order in which the recognisers are tried does not matter: all in
      which no flag is left from an earlier transaction, and some others. */
  lemma OrderIrrelevant(s: bytes, tx: Tx)
    requires |s| == tx.scriptSize
    ensures SameClass(Recognise(s, tx), VoteFirst(s, tx)) <==> OrderFree(s, tx)
    ensures !tx.isTransfer && !tx.isVote ==> SameClass(Recognise(s, tx), VoteFirst(s, tx))
  {
    hide TransferEffect, VoteEffect, InTransfer, InVote;
    TransferKeepsVote(s, tx);
    TransferKeepsVote(s, VoteEffect(s, tx));
    VoteKeepsTransfer(s, tx);
    VoteKeepsTransfer(s, TransferEffect(s, tx));
    TransferLooks(s, tx, VoteEffect(s, tx));
    VoteLooks(s, tx, TransferEffect(s, tx));
    TransferExact(s, tx);
    VoteExact(s, tx);
    NotBoth(s);
  }

  lemma NotBoth(s: bytes)
    ensures !(InTransfer(s) && InVote(s))
  {
    if InTransfer(s) && InVote(s) {
      var a, dst, neo :| IsTransferScript(s, a, dst, neo);
      var key :| IsVoteScript(s, key);
      Disjoint(s, a, dst, neo, key);
    }
  }

  /** What the user is told about a script, whatever the struct held before. A flag is set for
      a script of its language, and stays set from before; the vote recogniser is not asked
      when the transfer flag stands. */
  lemma RecogniseExact(s: bytes, tx: Tx)
    requires |s| == tx.scriptSize
    ensures var t := Recognise(s, tx);
            && (t.isTransfer <==> tx.isTransfer || InTransfer(s))
            && (t.isVote <==> tx.isVote || (!tx.isTransfer && InVote(s)))
    ensures forall a, dst, neo :: IsTransferScript(s, a, dst, neo) ==>
              var t := Recognise(s, tx); t.amount == a && t.dst == dst && t.isNeo == (tx.isNeo || neo)
    ensures forall key :: IsVoteScript(s, key) && !tx.isTransfer ==>
              var t := Recognise(s, tx); t.isRemoveVote == key.None? && (key.Some? ==> t.voteTo == key.value)
  {
    hide TransferEffect, VoteEffect, InTransfer, InVote;
    var u := TransferEffect(s, tx);
    TransferExact(s, tx);
    TransferKeepsVote(s, tx);
    VoteKeepsTransfer(s, u);
    VoteExact(s, u);
    NotBoth(s);
    forall a, dst, neo | IsTransferScript(s, a, dst, neo) ensures InTransfer(s) { InTransferBy(s, a, dst, neo); }
    forall key | IsVoteScript(s, key) ensures InVote(s) { InVoteBy(s, key); }
  }

  lemma InTransferBy(s: bytes, a: int, dst: bytes, neo: bool)
    requires IsTransferScript(s, a, dst, neo)
    ensures InTransfer(s)
  {
  }

  lemma InVoteBy(s: bytes, key: Option<bytes>)
    requires IsVoteScript(s, key)
    ensures InVote(s)
  {
  }

  // ---- any script ----

  function AmountHead(push: bytes): bytes {
    [0x0B] + push
  }

  function DestinationHead(push: bytes, dst: bytes): bytes {
    AmountHead(push) + PUSH_HASH + dst
  }

  function TokenHead(push: bytes, dst: bytes, src: bytes, token: bytes): bytes {
    DestinationHead(push, dst) + PUSH_HASH + src + CALL_TRANSFER + token
  }

  /** The script starts like a transfer, as far as the amount. */
  ghost predicate HasAmount(s: bytes, push: bytes, a: int) {
    IsPush(push, a) && AmountHead(push) <= s
  }

  ghost predicate HasDestination(s: bytes, push: bytes, a: int, dst: bytes) {
    IsPush(push, a) && |dst| == UINT160_LEN && DestinationHead(push, dst) <= s
  }

  ghost predicate NamesNeo(s: bytes, push: bytes, a: int, dst: bytes, src: bytes) {
    IsPush(push, a) && |dst| == UINT160_LEN && |src| == UINT160_LEN && TokenHead(push, dst, src, NEO_HASH) <= s
  }

  /** What the transfer recogniser leaves in its fields: what the script starts with decides,
      whether it is a transfer or not. */
  ghost predicate LeftByTransfer(s: bytes, before: Tx, t: Tx) {
    && (forall push, a :: HasAmount(s, push, a) ==> t.amount == a)
    && ((forall push, a :: !HasAmount(s, push, a)) ==> t.amount == before.amount)
    && (forall push, a, dst :: HasDestination(s, push, a, dst) ==> t.dst == dst)
    && ((forall push, a, dst :: !HasDestination(s, push, a, dst)) ==> t.dst == before.dst)
    && (t.isNeo <==> before.isNeo || exists push, a, dst, src :: NamesNeo(s, push, a, dst, src))
  }

  /** What the vote recogniser leaves in its fields. */
  ghost predicate LeftByVote(s: bytes, before: Tx, t: Tx) {
    && ([0x0B] <= s ==> t.isRemoveVote && t.voteTo == before.voteTo)
    && (forall key :: IsCompressedKey(key) && PUSH_KEY + key <= s ==> !t.isRemoveVote && t.voteTo == key)
    && (!([0x0B] <= s) && (forall key :: IsCompressedKey(key) ==> !(PUSH_KEY + key <= s)) ==>
          t.isRemoveVote == before.isRemoveVote && t.voteTo == before.voteTo)
  }

  lemma PrefixSlice(s: bytes, h: bytes, i: nat, j: nat)
    requires h <= s && i <= j <= |h|
    ensures s[i..j] == h[i..j]
  {
  }

  lemma NextSlice(s: bytes, i: nat, j: nat)
    requires i <= j <= |s|
    ensures s[..j] == s[..i] + s[i..j]
  {
  }

  lemma Parts(a: bytes, b: bytes, c: bytes)
    ensures var h := a + b + c;
            h[..|a|] == a && h[|a|..|a| + |b|] == b && h[|a| + |b|..] == c
  {
  }

  lemma HeadRead(s: bytes, push: bytes, a: int)
    requires HasAmount(s, push, a)
    ensures |s| > 1 && s[0] == 0x0B && ReadPush(s, 1) == Some((a, 1 + |push|)) && s[1..1 + |push|] == push
  {
    assert s[..1 + |push|] == AmountHead(push);
    assert s[0] == AmountHead(push)[0];
    assert s[1..1 + |push|] == s[..1 + |push|][1..] == push;
    ReadPushAt(s, push, a);
  }

  lemma HeadIs(s: bytes)
    requires |s| > 0 && s[0] == 0x0B && ReadPush(s, 1).Some?
    ensures var (a, n) := ReadPush(s, 1).value; HasAmount(s, s[1..n], a) && |s[1..n]| == n - 1
  {
    var (a, n) := ReadPush(s, 1).value;
    PushRead(s);
    assert AmountHead(s[1..n]) == s[..n];
  }

  lemma DestinationRead(s: bytes, push: bytes, a: int, dst: bytes)
    requires HasDestination(s, push, a, dst)
    ensures HasAmount(s, push, a)
    ensures var n := 1 + |push|; n + 22 <= |s| && At(s, n, 2) == PUSH_HASH && s[n + 2..n + 22] == dst
  {
    var n, h := 1 + |push|, DestinationHead(push, dst);
    assert s[..n + 22] == h;
    assert h[..n] == AmountHead(push) && s[..n] == h[..n];
    assert s[n..n + 2] == h[n..n + 2] == PUSH_HASH;
    assert s[n + 2..n + 22] == h[n + 2..n + 22] == dst;
  }

  lemma DestinationIs(s: bytes, push: bytes, a: int)
    requires HasAmount(s, push, a)
    requires var n := 1 + |push|; n + 22 <= |s| && At(s, n, 2) == PUSH_HASH
    ensures var n := 1 + |push|; HasDestination(s, push, a, s[n + 2..n + 22])
  {
    var n := 1 + |push|;
    assert s[..n + 22] == s[..n] + s[n..n + 2] + s[n + 2..n + 22];
    assert s[..n] == AmountHead(push);
  }

  lemma TokenParts(push: bytes, dst: bytes, src: bytes, token: bytes)
    requires |push| > 0 && |dst| == UINT160_LEN && |src| == UINT160_LEN && |token| == UINT160_LEN
    ensures var h, n := TokenHead(push, dst, src, token), 23 + |push|;
            && |h| == n + 57 && |DestinationHead(push, dst)| == n && h[..n] == DestinationHead(push, dst)
            && h[n..n + 2] == PUSH_HASH && h[n + 22..n + 37] == CALL_TRANSFER && h[n + 37..n + 57] == token
  {
    var d := DestinationHead(push, dst);
    var e := d + PUSH_HASH + src;
    Parts(d, PUSH_HASH, src);
    Parts(e, CALL_TRANSFER, token);
    PrefixSlice(TokenHead(push, dst, src, token), e, 0, |d|);
    PrefixSlice(TokenHead(push, dst, src, token), e, |d|, |d| + 2);
  }

  lemma NeoRead(s: bytes, push: bytes, a: int, dst: bytes, src: bytes)
    requires NamesNeo(s, push, a, dst, src)
    ensures HasDestination(s, push, a, dst)
    ensures var n := 23 + |push|;
            && n + 57 <= |s| && At(s, n, 2) == PUSH_HASH && At(s, n + 22, 15) == CALL_TRANSFER
            && At(s, n + 37, 20) == NEO_HASH
  {
    hide TokenHead, DestinationHead;
    var n, h := 23 + |push|, TokenHead(push, dst, src, NEO_HASH);
    TokenParts(push, dst, src, NEO_HASH);
    assert DestinationHead(push, dst) <= s by { PrefixSlice(s, h, 0, n); }
    PrefixSlice(s, h, n, n + 2);
    PrefixSlice(s, h, n + 22, n + 37);
    PrefixSlice(s, h, n + 37, n + 57);
  }

  lemma NeoIs(s: bytes, push: bytes, a: int, dst: bytes)
    requires HasDestination(s, push, a, dst)
    requires var n := 23 + |push|;
             && n + 57 <= |s| && At(s, n, 2) == PUSH_HASH && At(s, n + 22, 15) == CALL_TRANSFER
             && At(s, n + 37, 20) == NEO_HASH
    ensures var n := 23 + |push|; NamesNeo(s, push, a, dst, s[n + 2..n + 22])
  {
    var n := 23 + |push|;
    assert s[..n] == DestinationHead(push, dst);
    NextSlice(s, n, n + 2);
    NextSlice(s, n + 2, n + 22);
    NextSlice(s, n + 22, n + 37);
    NextSlice(s, n + 37, n + 57);
  }

  lemma NoAmount(s: bytes)
    requires |s| < 1 || s[0] != 0x0B || ReadPush(s, 1).None?
    ensures forall push, a :: !HasAmount(s, push, a)
    ensures forall push, a, dst :: !HasDestination(s, push, a, dst)
    ensures forall push, a, dst, src :: !NamesNeo(s, push, a, dst, src)
  {
    forall push, a ensures !HasAmount(s, push, a) {
      if HasAmount(s, push, a) { HeadRead(s, push, a); }
    }
    forall push, a, dst ensures !HasDestination(s, push, a, dst) {
      if HasDestination(s, push, a, dst) { DestinationRead(s, push, a, dst); }
    }
    forall push, a, dst, src ensures !NamesNeo(s, push, a, dst, src) {
      if NamesNeo(s, push, a, dst, src) { NeoRead(s, push, a, dst, src); }
    }
  }

  /** A script starts with one push, one destination and one token. */
  lemma OnlyPush(s: bytes, p: bytes, b: int)
    requires HasAmount(s, p, b)
    ensures forall push, a :: HasAmount(s, push, a) ==> push == p && a == b
    ensures forall push, a, dst :: HasDestination(s, push, a, dst) ==>
              push == p && a == b && 23 + |p| <= |s| && At(s, 1 + |p|, 2) == PUSH_HASH && dst == s[3 + |p|..23 + |p|]
    ensures forall push, a, dst, src :: NamesNeo(s, push, a, dst, src) ==>
              push == p && a == b && HasDestination(s, p, b, dst)
              && 80 + |p| <= |s| && At(s, 23 + |p|, 2) == PUSH_HASH && At(s, 45 + |p|, 15) == CALL_TRANSFER
              && At(s, 60 + |p|, 20) == NEO_HASH
  {
    hide At, HasAmount, HasDestination, NamesNeo;
    HeadRead(s, p, b);
    forall push, a | HasAmount(s, push, a) ensures push == p && a == b { HeadRead(s, push, a); }
    forall push, a, dst | HasDestination(s, push, a, dst)
      ensures push == p && a == b && 23 + |p| <= |s| && At(s, 1 + |p|, 2) == PUSH_HASH && dst == s[3 + |p|..23 + |p|]
    {
      DestinationRead(s, push, a, dst);
      HeadRead(s, push, a);
    }
    forall push, a, dst, src | NamesNeo(s, push, a, dst, src)
      ensures push == p && a == b && HasDestination(s, p, b, dst)
              && 80 + |p| <= |s| && At(s, 23 + |p|, 2) == PUSH_HASH && At(s, 45 + |p|, 15) == CALL_TRANSFER
              && At(s, 60 + |p|, 20) == NEO_HASH
    {
      NeoRead(s, push, a, dst, src);
      DestinationRead(s, push, a, dst);
      HeadRead(s, push, a);
    }
  }

  lemma DestinationLeaves(s: bytes, p: bytes, b: int, x: Tx)
    requires HasDestination(s, p, b, x.dst) && HasAmount(s, p, b) && 23 + |p| <= |s|
    ensures var t := AfterDestination(s, 23 + |p|, x);
            && t.amount == x.amount && t.dst == x.dst
            && (t.isNeo <==> x.isNeo || exists push, a, dst, src :: NamesNeo(s, push, a, dst, src))
  {
    hide At, HasAmount, HasDestination, NamesNeo;
    var n := 23 + |p|;
    OnlyPush(s, p, b);
    assert NEO_HASH[0] != GAS_HASH[0];
    if At(s, n, 2) == PUSH_HASH && n + 22 <= |s| && At(s, n + 22, 15) == CALL_TRANSFER && At(s, n + 37, 20) == NEO_HASH {
      assert n + 57 <= |s| by { AtFits(s, n + 37, 20); }
      NeoIs(s, p, b, x.dst);
    }
  }

  lemma AtFits(s: bytes, a: nat, n: nat)
    requires At(s, a, n) != []
    ensures a + n <= |s|
  {
  }

  lemma AmountLeaves(s: bytes, p: bytes, b: int, x: Tx)
    requires HasAmount(s, p, b) && x.amount == b
    ensures LeftByTransfer(s, x, AfterAmount(s, 1 + |p|, x))
  {
    hide At, HasAmount, HasDestination, NamesNeo, AfterDestination;
    var n := 1 + |p|;
    OnlyPush(s, p, b);
    if At(s, n, 2) == PUSH_HASH && n + 22 <= |s| {
      DestinationIs(s, p, b);
      DestinationLeaves(s, p, b, x.(dst := s[n + 2..n + 22]));
    }
  }

  lemma TransferLeaves(s: bytes, tx: Tx)
    ensures LeftByTransfer(s, tx, TransferEffect(s, tx))
  {
    hide At, HasAmount, HasDestination, NamesNeo, AfterAmount, ReadPush;
    if |s| < 1 || s[0] != 0x0B || ReadPush(s, 1).None? {
      NoAmount(s);
    } else {
      var (b, n) := ReadPush(s, 1).value;
      HeadIs(s);
      AmountLeaves(s, s[1..n], b, tx.(amount := b));
      OnlyPush(s, s[1..n], b);
    }
  }

  lemma VoteLeaves(s: bytes, tx: Tx)
    ensures LeftByVote(s, tx, VoteEffect(s, tx))
  {
    hide AfterCandidate;
    VoteStarts(s);
    CandidateOnly(s, tx);
  }

  lemma VoteStarts(s: bytes)
    ensures [0x0B] <= s <==> |s| > 0 && s[0] == 0x0B
    ensures forall key :: IsCompressedKey(key) && PUSH_KEY + key <= s ==>
              |s| >= 35 && s[0] == 0x0C && At(s, 0, 2) == PUSH_KEY && (s[2] == 2 || s[2] == 3) && s[2..35] == key
    ensures |s| >= 35 && At(s, 0, 2) == PUSH_KEY && (s[2] == 2 || s[2] == 3) ==>
              IsCompressedKey(s[2..35]) && PUSH_KEY + s[2..35] <= s
  {
    forall key | IsCompressedKey(key) && PUSH_KEY + key <= s
      ensures |s| >= 35 && s[0] == 0x0C && At(s, 0, 2) == PUSH_KEY && (s[2] == 2 || s[2] == 3) && s[2..35] == key
    {
      var h := PUSH_KEY + key;
      assert s[..35] == h;
      assert s[2..35] == h[2..] == key && s[0..2] == h[..2] && s[2] == h[2] && s[0] == h[0];
    }
    if |s| >= 35 && At(s, 0, 2) == PUSH_KEY {
      assert PUSH_KEY + s[2..35] == s[..35];
    }
  }

  lemma CandidateOnly(s: bytes, tx: Tx)
    ensures var t := VoteEffect(s, tx);
            && (|s| > 0 && s[0] == 0x0B ==> t.isRemoveVote && t.voteTo == tx.voteTo)
            && (|s| >= 35 && s[0] == 0x0C && At(s, 0, 2) == PUSH_KEY && (s[2] == 2 || s[2] == 3) ==>
                  !t.isRemoveVote && t.voteTo == s[2..35])
            && (!(|s| > 0 && s[0] == 0x0B) && !(|s| >= 35 && At(s, 0, 2) == PUSH_KEY && (s[2] == 2 || s[2] == 3)) ==>
                  t.isRemoveVote == tx.isRemoveVote && t.voteTo == tx.voteTo)
  {
    hide At;
  }

  /** What both leave. The vote recogniser is asked only when the transfer flag is not set. */
  ghost predicate LeftFrom(before: Tx, t: Tx, s: bytes) {
    && LeftByTransfer(s, before, t)
    && if before.isTransfer || InTransfer(s) then t.isRemoveVote == before.isRemoveVote && t.voteTo == before.voteTo
       else LeftByVote(s, before, t)
  }

  lemma RecogniseLeaves(s: bytes, before: Tx, x: Tx)
    requires |s| == x.scriptSize && x == WithClass(x, before)
    ensures LeftFrom(before, Recognise(s, x), s)
  {
    hide TransferEffect, VoteEffect, InTransfer, InVote, HasAmount, HasDestination, NamesNeo, IsCompressedKey;
    var u := TransferEffect(s, x);
    TransferExact(s, x);
    TransferLeaves(s, x);
    TransferKeepsVote(s, x);
    VoteKeepsTransfer(s, u);
    VoteLeaves(s, u);
  }
}
