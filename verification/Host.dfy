/** The host side: a transaction cut into chunks, and its delivery to the device. */
module Host {
  import opened Options
  import opened Bytes
  import opened Transactions
  import opened ReviewItems
  import opened Parsing
  import opened Wire
  import opened RoundTrip
  import opened Scripts
  import opened ScriptLanguages
  import opened Session
  import opened SessionLaws
  import opened Paths

  const MAX_APDU_LEN: nat := 255

  /** A piece of data, and whether it is marked as the last one. */
  datatype Chunk = Chunk(last: bool, data: bytes)

  function Pieces(data: bytes, n: nat): seq<Chunk>
    requires n > 0
  {
    if data == [] then []
    else if |data| < n then [Chunk(true, data)]
    else [Chunk(false, data[..n])] + Pieces(data[n..], n)
  }

  function Chunks(data: bytes, n: nat): seq<Chunk>
    requires n > 0
  {
    if |data| <= n then [Chunk(true, data)] else Pieces(data, n)
  }

  function Joined(cs: seq<Chunk>): bytes {
    if cs == [] then [] else cs[0].data + Joined(cs[1..])
  }

  method Chunkify(data: bytes, n: nat) returns (cs: seq<Chunk>)
    requires n > 0
    ensures cs == Chunks(data, n)
  {
    var size := |data|;
    if size <= n { return [Chunk(true, data)]; }
    var chunk, remaining, offset := size / n, size % n, 0;
    cs := [];
    hide Left, Pieces;
    AllLeft(size, n);
    for k := 0 to chunk
      invariant offset <= size && Left(size - offset, n, chunk - k, remaining)
      invariant cs + Pieces(data[offset..], n) == Pieces(data, n)
    {
      OneLess(size - offset, n, chunk - k, remaining);
      PiecesStep(cs, data, offset, n);
      cs := cs + [Chunk(false, data[offset..offset + n])];
      offset := offset + n;
    }
    NoneLeft(size - offset, n, remaining);
    LastPiece(data[offset..], n);
    if remaining != 0 {
      cs := cs + [Chunk(true, data[offset..])];
    }
  }

  /** `a` bytes are `q` full pieces and `r` bytes more. */
  predicate Left(a: nat, n: nat, q: int, r: int)
    requires n > 0
  {
    a / n == q && a % n == r
  }

  lemma AllLeft(a: nat, n: nat)
    requires n > 0
    ensures Left(a, n, a / n, a % n)
  {
  }

  lemma OneLess(a: nat, n: nat, q: nat, r: nat)
    requires n > 0 && q > 0 && Left(a, n, q, r)
    ensures a >= n && Left(a - n, n, q - 1, r)
  {
    assert a == (a / n) * n + a % n;
    Monotone(1, a / n, n);
    Remainder(a, n);
  }

  lemma Remainder(a: nat, n: nat)
    requires 0 < n <= a
    ensures (a - n) % n == a % n && (a - n) / n == a / n - 1
  {
    var p, q := a / n, (a - n) / n;
    Unique(a, n, p, a % n, q + 1, (a - n) % n);
  }

  /** Quotient and remainder are unique. */
  lemma Unique(a: int, n: nat, p: nat, r: nat, q: nat, t: nat)
    requires r < n && t < n && a == p * n + r && a == q * n + t
    ensures p == q && r == t
  {
    if p < q {
      Product(p + 1, n);
      Monotone(p + 1, q, n);
    } else if q < p {
      Product(q + 1, n);
      Monotone(q + 1, p, n);
    }
  }

  lemma NoneLeft(a: nat, n: nat, r: int)
    requires n > 0 && Left(a, n, 0, r)
    ensures a == r < n
  {
  }

  lemma LastPiece(data: bytes, n: nat)
    requires n > 0 && |data| < n
    ensures Pieces(data, n) == if data == [] then [] else [Chunk(true, data)]
  {
  }

  lemma Product(c: nat, n: nat)
    requires c > 0
    ensures c * n == (c - 1) * n + n && (c - 1) * n >= 0
  {
  }

  /** One full piece moves from the data to the chunks. */
  lemma PiecesStep(cs: seq<Chunk>, data: bytes, offset: nat, n: nat)
    requires n > 0 && offset + n <= |data|
    ensures cs + Pieces(data[offset..], n)
         == cs + [Chunk(false, data[offset..offset + n])] + Pieces(data[offset + n..], n)
  {
    assert data[offset..][..n] == data[offset..offset + n] && data[offset..][n..] == data[offset + n..];
  }

  lemma {:induction false} Monotone(a: nat, b: nat, n: nat)
    requires a <= b
    ensures a * n <= b * n
    decreases b
  {
    if a < b {
      Monotone(a, b - 1, n);
      assert b * n == (b - 1) * n + n;
    }
  }

  ghost predicate OnlyFinalIsLast(cs: seq<Chunk>) {
    cs != [] && forall k :: 0 <= k < |cs| ==> (cs[k].last <==> k == |cs| - 1)
  }

  lemma {:induction false} PiecesJoined(data: bytes, n: nat)
    requires n > 0
    ensures Joined(Pieces(data, n)) == data
    ensures forall c :: c in Pieces(data, n) ==> 0 < |c.data| <= n
    decreases |data|
  {
    if |data| >= n {
      PiecesJoined(data[n..], n);
      var rest := Pieces(data[n..], n);
      assert ([Chunk(false, data[..n])] + rest)[1..] == rest;
      assert data[..n] + data[n..] == data;
    } else if data != [] {
      assert [Chunk(true, data)][1..] == [];
    }
  }

  lemma {:induction false} PiecesMarked(data: bytes, n: nat)
    requires n > 0
    ensures |data| % n != 0 ==> OnlyFinalIsLast(Pieces(data, n))
    ensures |data| % n == 0 ==> forall c :: c in Pieces(data, n) ==> !c.last
    decreases |data|
  {
    if |data| >= n {
      PiecesMarked(data[n..], n);
      Remainder(|data|, n);
      var cs, rest := Pieces(data, n), Pieces(data[n..], n);
      if |data| % n != 0 {
        forall k | 0 <= k < |cs| ensures cs[k].last <==> k == |cs| - 1 {
          if k > 0 { assert cs[k] == rest[k - 1]; }
        }
      }
    }
  }

  lemma {:induction false} PiecesCount(data: bytes, n: nat)
    requires n > 0
    ensures |Pieces(data, n)| * n < |data| + n
    decreases |data|
  {
    if |data| >= n {
      PiecesCount(data[n..], n);
      Product(|Pieces(data, n)|, n);
    } else if data != [] {
      assert |Pieces(data, n)| == 1;
    }
  }

  /** The pieces make up the data, and exactly one is marked, the final one, unless the data
      is longer than a piece and a whole number of them; then none is. */
  lemma ChunksAre(data: bytes, n: nat)
    requires n > 0 && data != []
    ensures Joined(Chunks(data, n)) == data
    ensures forall c :: c in Chunks(data, n) ==> 0 < |c.data| <= n
    ensures OnlyFinalIsLast(Chunks(data, n)) <==> |data| <= n || |data| % n != 0
    ensures (exists c :: c in Chunks(data, n) && c.last) <==> |data| <= n || |data| % n != 0
  {
    PiecesJoined(data, n);
    PiecesMarked(data, n);
    var cs := Chunks(data, n);
    if |data| <= n {
      assert cs[1..] == [];
      assert cs[0] in cs && cs[0].last;
    } else {
      assert cs[|cs| - 1] in cs;
    }
  }

  /** At most five pieces for what the device can hold. */
  lemma FivePieces(data: bytes)
    requires data != [] && |data| <= MAX_TRANSACTION_LEN
    ensures 0 < |Chunks(data, MAX_APDU_LEN)| <= 5
  {
    PiecesCount(data, MAX_APDU_LEN);
  }

  // ---- the commands ----

  /** The command for a chunk, and the reply that it is to get. */
  function ChunkEntry(c: Chunk, i: nat, final: Reply): Entry
    requires i < 5
  {
    Entry(Command(Apdu(CLA, SIGN_TX, i + 2, if c.last then P2_LAST else P2_MORE, c.data)),
          if c.last then final else Success)
  }

  function ChunkEntries(cs: seq<Chunk>, i: nat, final: Reply): seq<Entry>
    requires i + |cs| <= 5
  {
    if cs == [] then [] else [ChunkEntry(cs[0], i, final)] + ChunkEntries(cs[1..], i + 1, final)
  }

  function PathEntry(path: bytes): Entry {
    Entry(Command(Apdu(CLA, SIGN_TX, 0, P2_MORE, path)), Success)
  }

  function MagicEntry(magic: nat): Entry
    requires magic < Pow256(4)
  {
    Entry(Command(Apdu(CLA, SIGN_TX, 1, P2_MORE, ToLE(magic, 4))), Success)
  }

  /** Path, magic, then the transaction. All commands are to succeed, and the one that is
      marked as the last gets `final`. */
  function SignEntries(path: bytes, magic: nat, data: bytes, final: Reply): seq<Entry>
    requires magic < Pow256(4) && |Chunks(data, MAX_APDU_LEN)| <= 5
  {
    [PathEntry(path), MagicEntry(magic)] + ChunkEntries(Chunks(data, MAX_APDU_LEN), 0, final)
  }

  /** The state after these commands, if each was possible when its turn came and got its
      reply. */
  ghost function Deliver(env: Env, s: DeviceState, log: seq<Entry>): Option<DeviceState>
    requires ValidDevice(s)
    decreases |log|
  {
    if log == [] then Some(s)
    else if !Enabled(s, log[0].e) || Respond(env, s, log[0].e).1 != log[0].r then None
    else
      StepKeepsValid(env, s, log[0].e);
      Deliver(env, Respond(env, s, log[0].e).0, log[1..])
  }

  /** A session that has received `sent` of a transaction, with nothing parsed so far. */
  ghost predicate Receiving(s: DeviceState, sent: bytes, magic: nat, path: seq<nat>) {
    && ValidDevice(s) && s.pending == Nothing && s.ctx.req == ConfirmTransaction
    && s.ctx.magic == magic && s.ctx.path == path
    && s.ctx.union.info.tx == ZeroTx()
    && s.ctx.union.info.rawTxLen == |sent| && s.ctx.union.info.rawTx[..|sent|] == sent
  }

  /** The review of `d`. */
  ghost predicate Reviewing(env: Env, s: DeviceState, d: bytes, magic: nat, path: seq<nat>, scriptsAllowed: bool) {
    && ValidDevice(s) && s.ctx.req == ConfirmTransaction && s.ctx.magic == magic && s.ctx.path == path
    && s.ctx.union.info.rawTxLen == |d| && s.ctx.union.info.rawTx[..|d|] == d
    && s.ctx.union.info.tx == Deserialize(d, ZeroTx()).tx && s.ctx.union.info.hash == env.sha(d)
    && s.pending == TxReview(Allowed(s.ctx.union.info.tx, scriptsAllowed))
  }

  /** The reply to the last chunk of `d`. */
  function Starts(d: bytes, scriptsAllowed: bool): Reply {
    ReviewStarted(Allowed(Deserialize(d, ZeroTx()).tx, scriptsAllowed))
  }

  lemma OneChunk(env: Env, s: DeviceState, sent: bytes, c: Chunk, i: nat, magic: nat, path: seq<nat>)
    requires Receiving(s, sent, magic, path) && 0 < |c.data| <= MAX_APDU_LEN && i < 5
    requires |sent| + |c.data| <= MAX_TRANSACTION_LEN
    ensures var e := Command(Apdu(CLA, SIGN_TX, i + 2, if c.last then P2_LAST else P2_MORE, c.data));
            && Enabled(s, e)
            && var (t, r) := Respond(env, s, e);
               && ValidDevice(t) && t.scriptsAllowed == s.scriptsAllowed
               && (!c.last ==> Receiving(t, sent + c.data, magic, path) && r == Success)
               && (c.last && Deserialize(sent + c.data, ZeroTx()).status == ParsingOk ==>
                     Reviewing(env, t, sent + c.data, magic, path, s.scriptsAllowed)
                     && r == Starts(sent + c.data, s.scriptsAllowed))
  {
    hide Deserialize, ZeroTx, Allowed;
    var e := Command(Apdu(CLA, SIGN_TX, i + 2, if c.last then P2_LAST else P2_MORE, c.data));
    SessionLaws.StepKeepsValid(env, s, e);
    var info := s.ctx.union.info;
    assert Overwrite(info.rawTx, info.rawTxLen, c.data)[..|sent| + |c.data|] == sent + c.data;
  }

  lemma {:induction false} SendChunks(env: Env, s: DeviceState, sent: bytes, cs: seq<Chunk>, i: nat, magic: nat,
                                      path: seq<nat>, d: bytes)
    requires Receiving(s, sent, magic, path) && i + |cs| <= 5 && OnlyFinalIsLast(cs)
    requires (forall c :: c in cs ==> 0 < |c.data| <= MAX_APDU_LEN) && sent + Joined(cs) == d
    requires |d| <= MAX_TRANSACTION_LEN && Deserialize(d, ZeroTx()).status == ParsingOk
    ensures var t := Deliver(env, s, ChunkEntries(cs, i, Starts(d, s.scriptsAllowed)));
            t.Some? && Reviewing(env, t.value, d, magic, path, s.scriptsAllowed)
    decreases |cs|
  {
    hide Deserialize, ZeroTx, Respond, Receiving, Reviewing, Enabled, ValidDevice, Starts;
    var c, rest, final := cs[0], cs[1..], Starts(d, s.scriptsAllowed);
    assert c in cs;
    assert sent + (c.data + Joined(rest)) == sent + c.data + Joined(rest);
    assert ValidDevice(s) by { ReceivingIsValid(s, sent, magic, path); }
    OneChunk(env, s, sent, c, i, magic, path);
    var t := Respond(env, s, ChunkEntry(c, i, final).e).0;
    var log := ChunkEntries(cs, i, final);
    assert log[0] == ChunkEntry(c, i, final) && log[1..] == ChunkEntries(rest, i + 1, final);
    if rest == [] {
      assert sent + c.data == d;
      assert log[1..] == [];
    } else {
      forall k | 0 <= k < |rest| ensures rest[k].last <==> k == |rest| - 1 { assert rest[k] == cs[k + 1]; }
      SendChunks(env, t, sent + c.data, rest, i + 1, magic, path, d);
    }
  }

  lemma ReceivingIsValid(s: DeviceState, sent: bytes, magic: nat, path: seq<nat>)
    requires Receiving(s, sent, magic, path)
    ensures ValidDevice(s)
  {
  }

  /** Path and magic open the session. */
  lemma Opening(env: Env, s: DeviceState, path: bytes, magic: nat)
    requires ValidDevice(s) && s.pending == Nothing && Bip44(path) == PathOk && |path| <= MAX_APDU_LEN
             && magic < Pow256(4)
    ensures var first, second := PathEntry(path), MagicEntry(magic);
            && Enabled(s, first.e)
            && var (m, p) := Respond(env, s, first.e);
               && ValidDevice(m) && Enabled(m, second.e) && p == first.r
               && var (t, q) := Respond(env, m, second.e);
                  Receiving(t, [], magic, PathAfter(path)) && t.scriptsAllowed == s.scriptsAllowed && q == second.r
  {
    hide PathAfter, ZeroTx;
    var first, second := PathEntry(path), MagicEntry(magic);
    StepKeepsValid(env, s, first.e);
    var m := Respond(env, s, first.e).0;
    StepKeepsValid(env, m, second.e);
    assert ToLE(magic, 4)[..4] == ToLE(magic, 4);
  }

  /** Chunks of which none is marked are received, and nothing more. */
  lemma {:induction false} SendMore(env: Env, s: DeviceState, sent: bytes, cs: seq<Chunk>, i: nat, magic: nat,
                                    path: seq<nat>, d: bytes, final: Reply)
    requires Receiving(s, sent, magic, path) && i + |cs| <= 5 && sent + Joined(cs) == d && |d| <= MAX_TRANSACTION_LEN
    requires forall c :: c in cs ==> 0 < |c.data| <= MAX_APDU_LEN && !c.last
    ensures var t := Deliver(env, s, ChunkEntries(cs, i, final)); t.Some? && Receiving(t.value, d, magic, path)
    decreases |cs|
  {
    hide Deserialize, ZeroTx, Respond, Receiving, Reviewing, Enabled, ValidDevice;
    assert ValidDevice(s) by { ReceivingIsValid(s, sent, magic, path); }
    if cs == [] {
      assert sent + [] == sent;
    } else {
      var c, rest := cs[0], cs[1..];
      assert c in cs;
      assert sent + (c.data + Joined(rest)) == sent + c.data + Joined(rest);
      OneChunk(env, s, sent, c, i, magic, path);
      var log := ChunkEntries(cs, i, final);
      assert log[0] == ChunkEntry(c, i, final) && log[1..] == ChunkEntries(rest, i + 1, final);
      SendMore(env, Respond(env, s, log[0].e).0, sent + c.data, rest, i + 1, magic, path, d, final);
    }
  }

  lemma ApprovalSigns(env: Env, s: DeviceState, d: bytes, magic: nat, path: seq<nat>, scriptsAllowed: bool)
    requires Reviewing(env, s, d, magic, path, scriptsAllowed) && magic < Pow256(4)
    ensures s.ctx.union.Info? && Shape(s.ctx.union.info.tx)
    ensures Enabled(s, Approve(Signs)) ==>
              Respond(env, s, Approve(Signs)).1
              == SignatureReply(env.ecdsa(path, env.sha(ToLE(magic, 4) + env.sha(d))))
  {
    hide Deserialize, ZeroTx;
    Widths();
    var i := s.ctx.union.info;
    var front := ToLE(s.ctx.magic, 4) + i.hash;
    assert Overwrite(i.rawTx, 0, front)[..36] == front;
  }

  /** The state that has received all commands for `w`, and what approval then signs. */
  ghost predicate Agreed(env: Env, t: DeviceState, w: Wire, path: seq<nat>, magic: nat, open: bool)
    requires ValidDevice(t) && ValidWire(w) && magic < Pow256(4)
  {
    && t.ctx.union.Info? && Shape(t.ctx.union.info.tx)
    && Holds(Print(w), t.ctx.union.info.tx, w) && t.pending == TxReview(open)
    && (open ==>
          Enabled(t, Approve(Signs))
          && Respond(env, t, Approve(Signs)).1
             == SignatureReply(env.ecdsa(path, env.sha(ToLE(magic, 4) + env.sha(Print(w))))))
  }

  predicate LastMarked(n: nat) {
    n <= MAX_APDU_LEN || n % MAX_APDU_LEN != 0
  }

  /** The chunks of `d` after path and magic. */
  lemma ChunksArrive(env: Env, s: DeviceState, d: bytes, magic: nat, path: seq<nat>)
    requires Receiving(s, [], magic, path) && d != [] && |d| <= MAX_TRANSACTION_LEN
    requires Deserialize(d, ZeroTx()).status == ParsingOk
    ensures ValidDevice(s) && |Chunks(d, MAX_APDU_LEN)| <= 5
    ensures var t := Deliver(env, s, ChunkEntries(Chunks(d, MAX_APDU_LEN), 0, Starts(d, s.scriptsAllowed)));
            t.Some? && if LastMarked(|d|) then Reviewing(env, t.value, d, magic, path, s.scriptsAllowed)
                       else Receiving(t.value, d, magic, path)
  {
    hide Deserialize, ZeroTx, Receiving, Reviewing, Chunks, ChunkEntries, Deliver, Starts;
    var cs := Chunks(d, MAX_APDU_LEN);
    ReceivingIsValid(s, [], magic, path);
    FivePieces(d);
    ChunksAre(d, MAX_APDU_LEN);
    assert [] + Joined(cs) == d;
    if LastMarked(|d|) {
      SendChunks(env, s, [], cs, 0, magic, path, d);
    } else {
      SendMore(env, s, [], cs, 0, magic, path, d, Starts(d, s.scriptsAllowed));
    }
  }

  lemma StartsOpen(d: bytes, script: bytes, scriptsAllowed: bool)
    requires Classified(Deserialize(d, ZeroTx()).tx, script)
    ensures Starts(d, scriptsAllowed) == ReviewStarted(scriptsAllowed || InTransfer(script) || InVote(script))
  {
    hide Deserialize, InTransfer, InVote, IsTransferScript, IsVoteScript;
  }

  lemma ReviewAgrees(env: Env, t: DeviceState, w: Wire, magic: nat, path: seq<nat>, scriptsAllowed: bool)
    requires ValidWire(w) && magic < Pow256(4) && Reviewing(env, t, Print(w), magic, path, scriptsAllowed)
    requires var tx := Deserialize(Print(w), ZeroTx()).tx; Holds(Print(w), tx, w) && Classified(tx, w.script)
    ensures ValidDevice(t) && t.ctx.union.Info? && Holding(t.ctx.union.info, Print(w))
    ensures Agreed(env, t, w, path, magic, scriptsAllowed || InTransfer(w.script) || InVote(w.script))
  {
    hide Deserialize, ZeroTx, Print, ValidWire, Holds, Classified, Respond, InTransfer, InVote;
    ApprovalSigns(env, t, Print(w), magic, path, scriptsAllowed);
    StartsOpen(Print(w), w.script, scriptsAllowed);
  }

  lemma StillReceiving(t: DeviceState, d: bytes, magic: nat, path: seq<nat>)
    requires Receiving(t, d, magic, path)
    ensures ValidDevice(t) && t.ctx.union.Info? && Holding(t.ctx.union.info, d) && t.pending == Nothing
  {
  }

  /** Host and device agree: every well-formed transaction that fits, sent as the host sends
      it with an account path to a device in any state without a pending review, is received
      byte for byte, every command being answered with success. It is put to review if and only
      if the host marks a last chunk; then it is reviewed as it is, for approval if and only if
      the gate lets it, and approval signs its hash with the magic and the path that were
      sent. */
  lemma HostDeviceAgreement(env: Env, s: DeviceState, path: bytes, magic: nat, w: Wire)
    requires ValidDevice(s) && s.pending == Nothing && AsksAccount(path) && |path| <= MAX_APDU_LEN
    requires magic < Pow256(4) && ValidWire(w) && 0 < |Print(w)| <= MAX_TRANSACTION_LEN
    ensures |Chunks(Print(w), MAX_APDU_LEN)| <= 5
    ensures var open := s.scriptsAllowed || InTransfer(w.script) || InVote(w.script);
            var t := Deliver(env, s, SignEntries(path, magic, Print(w), ReviewStarted(open)));
            && t.Some? && ValidDevice(t.value) && t.value.ctx.union.Info?
            && Holding(t.value.ctx.union.info, Print(w))
            && (t.value.pending.TxReview? <==> LastMarked(|Print(w)|))
            && (LastMarked(|Print(w)|) ==> Agreed(env, t.value, w, Requested(path), magic, open))
  {
    hide *;
    var d := Print(w);
    ParseOfPrint(w);
    PathAccepted(path);
    Opening(env, s, path, magic);
    StartsOpen(d, w.script, s.scriptsAllowed);
    var m := Respond(env, s, PathEntry(path).e).0;
    var n := Respond(env, m, MagicEntry(magic).e).0;
    ChunksArrive(env, n, d, magic, Requested(path));
    var final := Starts(d, s.scriptsAllowed);
    DeliverTwo(env, s, path, magic, d, final);
    var t := Deliver(env, s, SignEntries(path, magic, d, final)).value;
    if LastMarked(|d|) {
      ReviewAgrees(env, t, w, magic, Requested(path), s.scriptsAllowed);
      AgreedReviews(env, t, w, Requested(path), magic, s.scriptsAllowed || InTransfer(w.script) || InVote(w.script));
    } else {
      StillReceiving(t, d, magic, Requested(path));
    }
  }

  lemma AgreedReviews(env: Env, t: DeviceState, w: Wire, path: seq<nat>, magic: nat, open: bool)
    requires ValidDevice(t) && ValidWire(w) && magic < Pow256(4) && Agreed(env, t, w, path, magic, open)
    ensures t.pending.TxReview?
  {
  }

  /** The first two commands of the host. */
  lemma DeliverTwo(env: Env, s: DeviceState, path: bytes, magic: nat, data: bytes, final: Reply)
    requires ValidDevice(s) && magic < Pow256(4) && |Chunks(data, MAX_APDU_LEN)| <= 5
    requires Enabled(s, PathEntry(path).e)
    requires var (m, p) := Respond(env, s, PathEntry(path).e);
             && p == PathEntry(path).r && ValidDevice(m) && Enabled(m, MagicEntry(magic).e)
             && var (n, q) := Respond(env, m, MagicEntry(magic).e); q == MagicEntry(magic).r && ValidDevice(n)
    ensures var n := Respond(env, Respond(env, s, PathEntry(path).e).0, MagicEntry(magic).e).0;
            Deliver(env, s, SignEntries(path, magic, data, final))
            == Deliver(env, n, ChunkEntries(Chunks(data, MAX_APDU_LEN), 0, final))
  {
    hide Respond, Enabled, ValidDevice, Chunks, PathEntry, MagicEntry, ChunkEntries;
    var log := SignEntries(path, magic, data, final);
    var m := Respond(env, s, PathEntry(path).e).0;
    var n := Respond(env, m, MagicEntry(magic).e).0;
    assert log[0] == PathEntry(path) && log[1..][0] == MagicEntry(magic)
           && log[1..][1..] == ChunkEntries(Chunks(data, MAX_APDU_LEN), 0, final);
    assert Deliver(env, s, log) == Deliver(env, m, log[1..]) == Deliver(env, n, log[1..][1..]);
  }
}
