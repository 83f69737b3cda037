/** A session that goes on after its first approval. Signing has replaced the first 36 bytes of
    the buffer, and nothing else was cleared; this module says exactly what reaches a review. */
module Continued {
  import opened Bytes
  import opened Transactions
  import opened Parsing
  import opened ParsingLaws
  import opened Wire
  import opened RoundTrip
  import opened UsedStruct
  import opened Session
  import opened SessionLaws
  import opened GateLaws

  // ---- one chunk ----

  /** `b` is an encoding that is accepted into `before`. */
  ghost predicate Reviewable(b: bytes, before: Tx)
    requires Shape(before)
  {
    |b| <= MAX_TRANSACTION_LEN
    && exists w :: ValidWire(w) && b == Print(w) && (w.attributes == [] || before.attributes[0] != HIGH_PRIORITY)
  }

  /** In any session, whatever was parsed and signed before: a last chunk reaches a review if
      and only if it completes the buffer to such an encoding. */
  lemma LastChunkExactly(env: Env, s: DeviceState, e: Event)
    requires ValidDevice(s) && Enabled(s, e) && IsTxChunk(e) && e.apdu.p2 == P2_LAST
    requires s.ctx.req == ConfirmTransaction
    ensures var i := s.ctx.union.info;
            Respond(env, s, e).1.ReviewStarted? <==> Reviewable(i.rawTx[..i.rawTxLen] + e.apdu.data, i.tx)
  {
    hide Deserialize, Print, ValidWire, PathAfter, Bip44;
    var i := s.ctx.union.info;
    var b := i.rawTx[..i.rawTxLen] + e.apdu.data;
    if |b| <= MAX_TRANSACTION_LEN {
      assert Overwrite(i.rawTx, i.rawTxLen, e.apdu.data)[..|b|] == b;
      AcceptedInto(b, i.tx);
    }
  }

  // ---- the lengths ----

  lemma {:induction false} ContentLength(fs: seq<Item>, k: nat)
    requires k < |fs|
    ensures |Flatten(fs)| >= |fs[k].content|
  {
    if k > 0 {
      ContentLength(fs[1..], k - 1);
    }
  }

  /** No transaction is so short that its hash and the magic would not fit in its place. */
  lemma PrintLength(w: Wire)
    requires ValidWire(w)
    ensures |Print(w)| >= 45
  {
    hide Flatten, ValidSigner, DistinctAccounts, Counts;
    var rest := AttributeItems(w) + ScriptItems(w);
    FlattenAppend(HeaderItems(w), SignersItems(w.signers, 0) + rest);
    FlattenAppend(SignersItems(w.signers, 0), rest);
    HeaderLength(w);
    SomeSigner(w);
    ContentLength(SignersItems(w.signers, 0), 0);
  }

  lemma SomeSigner(w: Wire)
    requires ValidWire(w)
    ensures |SignersItems(w.signers, 0)| > 0 && |SignersItems(w.signers, 0)[0].content| == UINT160_LEN
  {
    assert ValidSigner(w.signers[0]);
  }

  lemma HeaderLength(w: Wire)
    requires ValidWire(w)
    ensures |Flatten(HeaderItems(w))| >= 25
  {
    hide ValidWire;
    Widths();
    var fs := HeaderItems(w);
    assert |Flatten(fs)| >= 1 + |Flatten(fs[1..])|;
    assert |Flatten(fs[1..])| == 4 + |Flatten(fs[1..][1..])|;
    assert |Flatten(fs[1..][1..])| == 8 + |Flatten(fs[1..][1..][1..])|;
    assert |Flatten(fs[1..][1..][1..])| == 8 + |Flatten(fs[1..][1..][1..][1..])|;
    assert |Flatten(fs[1..][1..][1..][1..])| >= 4;
  }

  // ---- after the first approval ----

  /** What the buffer holds then, of the transaction `d`. */
  function Scratched(env: Env, magic: nat, d: bytes): bytes
    requires magic < Pow256(4) && |d| >= 36
  {
    ToLE(magic, 4) + env.sha(d) + d[36..]
  }

  lemma ScratchedBy(env: Env, s: DeviceState, d: bytes, e: Event)
    requires ValidDevice(s) && Enabled(s, e) && e.Approve? && |d| >= 36 && s.ctx.union.Info?
    requires Holding(s.ctx.union.info, d) && s.ctx.union.info.hash == env.sha(d)
    ensures s.ctx.magic < Pow256(4)
    ensures var t := Respond(env, s, e).0;
            && ValidDevice(t) && t.ctx.req == ConfirmTransaction && t.ctx.union.Info?
            && Holding(t.ctx.union.info, Scratched(env, s.ctx.magic, d))
            && t.ctx.union.info.tx == s.ctx.union.info.tx
  {
    Widths();
    StepKeepsValid(env, s, e);
    var i := s.ctx.union.info;
    var front := ToLE(s.ctx.magic, 4) + i.hash;
    assert i.rawTx[36..|d|] == i.rawTx[..|d|][36..];
    assert Overwrite(i.rawTx, 0, front)[..|d|] == front + i.rawTx[36..|d|];
  }

  /** For every hash function: which last chunk after the first approval of a session reaches
      a second review. The first transaction, up to its byte 36, counts only through its
      hash. */
  lemma SecondReviewExactly(env: Env, scriptsAllowed: bool, rest: seq<Entry>, approval: Entry, chunk: Entry)
    requires Exec(env, scriptsAllowed, rest + [approval] + [chunk]).Some? && !Answered(rest)
    requires approval.e.Approve? && IsTxChunk(chunk.e) && chunk.e.apdu.p2 == P2_LAST
    ensures Exec(env, scriptsAllowed, rest).Some? && Shape(StructOf(Exec(env, scriptsAllowed, rest).value))
    ensures Magic(rest) < Pow256(4) && |Payload(rest)| >= 36
    ensures chunk.r.ReviewStarted? <==>
            Reviewable(Scratched(env, Magic(rest), Payload(rest)) + chunk.e.apdu.data,
                       StructOf(Exec(env, scriptsAllowed, rest).value))
  {
    hide Respond, Deserialize, Print, ValidWire, Reviewable, Scratched, Holds, Classified, Clean, Remembers, Path,
         Enabled, IsTxChunk, ValidDevice;
    Snoc(rest + [approval], chunk);
    Snoc(rest, approval);
    InvariantHolds(env, scriptsAllowed, rest);
    var s := Exec(env, scriptsAllowed, rest).value;
    ApprovalOffered(s, approval.e);
    ReviewIs(s);
    var w := RetrySound(env, scriptsAllowed, rest);
    PrintLength(w);
    ScratchedBy(env, s, Payload(rest), approval.e);
    var t := Respond(env, s, approval.e).0;
    LastChunkExactly(env, t, chunk.e);
  }

  lemma ReviewIs(s: DeviceState)
    requires ValidDevice(s) && s.pending.TxReview?
    ensures s.ctx.req == ConfirmTransaction && s.ctx.union.Info?
  {
  }
}
