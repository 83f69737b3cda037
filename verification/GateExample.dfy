/** What goes wrong in a session that goes on after an approval: two runs without arbitrary
    scripts allowed. In one the second signature is for a script that is neither a transfer nor
    a vote; in the other it is for a transfer that was reviewed as a vote. `GateLaws` and
    `Continued` say exactly when this happens, for every hash function; here the hash of one
    byte string is a value for which the bytes can be written down. */
module GateExample {
  import opened Options
  import opened Bytes
  import opened Transactions
  import opened Scripts
  import opened ScriptLanguages
  import opened Parsing
  import opened Wire
  import opened RoundTrip
  import opened UsedStruct
  import opened Naming
  import opened ReviewItems
  import opened Session
  import opened SessionLaws
  import opened Continued
  import opened Host
  import opened Paths

  function Z(n: nat): bytes {
    ZeroBytes(n)
  }

  const REST: bytes := CALL_VOTE + (NEO_HASH + SYSCALL)
  const HASH: hash32 := Z(21) + [2, 1] + Z(9)

  /** A signer without lists. */
  function Plain(account: bytes): WireSigner {
    WireSigner(account, 0, [], [], [], [])
  }

  /** A vote retraction; the end of the voter's script hash is open. */
  function Source(x: bytes): bytes {
    Z(15) + x
  }

  function Retraction(x: bytes): Wire {
    Wire(0, 0, 0, 0, [1], [Plain(Z(20))], [0], [], [59], VoteScript(None, Source(x)))
  }

  function RetractionBytes(x: bytes): bytes {
    Z(25) + [1] + (Z(20) + [0] + ([0] + [59] + VoteScript(None, Source(x))))
  }

  // What the bytes become: two signers, the second of them inside the old script.
  const ACCOUNT: bytes := [1] + Z(19)
  const OTHER: bytes := [0, 59, 0x0B, 0x0C, 0x14] + Z(15)

  const FREE: Wire := Wire(0, 0, 0, 0, [2], [Plain(ACCOUNT), Plain(OTHER)], [0], [], [39], [0x40, 0x40] + REST + [0])

  const LISTED: bytes := Z(3) + REST + Z(21)
  const HIDDEN: bytes := TransferScript([0x11], Z(20), Z(20), GAS_HASH)
  const LISTER: WireSigner :=
    WireSigner(OTHER, 0x10, [3], [LISTED[..20], LISTED[20..40], LISTED[40..]], [], [])
  const TRANSFER: Wire := Wire(0, 0, 0, 0, [2], [Plain(ACCOUNT), LISTER], [0], [], [86], HIDDEN)

  // ---- the encodings ----

  lemma {:induction false} ZeroLE(n: nat)
    ensures FromLE(Z(n)) == 0 && ToLE(0, n) == Z(n)
  {
    if n > 0 {
      assert Z(n)[1..] == Z(n - 1);
      ZeroLE(n - 1);
      assert [0] + Z(n - 1) == Z(n);
    }
  }

  lemma FlattenCons(f: Item, fs: seq<Item>)
    ensures Flatten([f] + fs) == f.content + Flatten(fs)
  {
    assert ([f] + fs)[1..] == fs;
  }

  lemma PlainSigner(account: bytes, i: nat)
    ensures Flatten(SignerItems(Plain(account), i)) == account + [0]
  {
    var f, g := Item(Account(i), account), Item(Scope(i), [0]);
    assert SignerItems(Plain(account), i) == [f] + [g];
    FlattenCons(f, [g]);
    assert [g] + [] == [g];
    FlattenCons(g, []);
  }

  lemma {:induction false} PlainSigners(ws: seq<WireSigner>, i: nat)
    requires forall w :: w in ws ==> w == Plain(w.account)
    ensures ws == [] ==> Flatten(SignersItems(ws, i)) == []
    ensures ws != [] ==> Flatten(SignersItems(ws, i)) == ws[0].account + [0] + Flatten(SignersItems(ws[1..], i + 1))
  {
    if ws != [] {
      PlainSigner(ws[0].account, i);
      FlattenAppend(SignerItems(ws[0], i), SignersItems(ws[1..], i + 1));
    }
  }

  lemma PlainHeader(w: Wire)
    requires ValidWire(w) && (w.nonce, w.systemFee, w.networkFee, w.validUntil) == (0, 0, 0, 0)
    ensures Flatten(HeaderItems(w)) == Z(25) + w.signerCount
  {
    hide Flatten, ValidWire;
    ZeroLE(4);
    ZeroLE(8);
    var f6 := [Item(SignerCount, w.signerCount)];
    var f5 := [Item(ValidUntil, Z(4))] + f6;
    var f4 := [Item(NetworkFee, Z(8))] + f5;
    var f3 := [Item(SystemFee, Z(8))] + f4;
    var f2 := [Item(Nonce, Z(4))] + f3;
    assert HeaderItems(w) == [Item(Version, [0])] + f2;
    FlattenCons(Item(Version, [0]), f2);
    FlattenCons(Item(Nonce, Z(4)), f3);
    FlattenCons(Item(SystemFee, Z(8)), f4);
    FlattenCons(Item(NetworkFee, Z(8)), f5);
    FlattenCons(Item(ValidUntil, Z(4)), f6);
    assert f6 == f6 + [];
    FlattenCons(Item(SignerCount, w.signerCount), []);
    FlattenNone();
    assert [0] + (Z(4) + (Z(8) + (Z(8) + (Z(4) + (w.signerCount + []))))) == Z(25) + w.signerCount;
  }

  lemma FlattenNone()
    ensures Flatten([]) == []
  {
  }

  lemma PlainTail(w: Wire)
    requires w.attributes == [] && w.script != []
    ensures Flatten(AttributeItems(w) + ScriptItems(w)) == w.attributeCount + w.scriptLength + w.script
  {
    hide Flatten;
    var f, g := Item(AttributeCount, w.attributeCount), Item(ScriptLength, w.scriptLength);
    var h := Item(Script(|w.script|), w.script);
    assert AttributeItems(w) + ScriptItems(w) == [f] + ([g] + [h]);
    FlattenCons(f, [g] + [h]);
    FlattenCons(g, [h]);
    assert [h] + [] == [h];
    FlattenCons(h, []);
    FlattenNone();
    assert w.attributeCount + (w.scriptLength + (w.script + [])) == w.attributeCount + w.scriptLength + w.script;
  }

  lemma PlainPrint(w: Wire)
    requires ValidWire(w) && (w.nonce, w.systemFee, w.networkFee, w.validUntil) == (0, 0, 0, 0)
    requires w.attributes == [] && w.script != []
    ensures Print(w) == Z(25) + w.signerCount
                        + (Flatten(SignersItems(w.signers, 0)) + (w.attributeCount + w.scriptLength + w.script))
  {
    hide Flatten, HeaderItems, SignersItems, AttributeItems, ScriptItems;
    PlainHeader(w);
    PlainTail(w);
    FlattenAppend(SignersItems(w.signers, 0), AttributeItems(w) + ScriptItems(w));
    FlattenAppend(HeaderItems(w), SignersItems(w.signers, 0) + (AttributeItems(w) + ScriptItems(w)));
  }

  lemma RetractionPrinted(x: bytes)
    requires |x| == 5
    ensures ValidWire(Retraction(x)) && Print(Retraction(x)) == RetractionBytes(x) && |RetractionBytes(x)| == 108
    ensures InVote(Retraction(x).script)
  {
    hide Flatten, Print, SignersItems;
    var w := Retraction(x);
    assert |w.script| == 59;
    assert ValidSigner(w.signers[0]);
    PlainPrint(w);
    PlainSigners(w.signers, 0);
    assert w.signers[1..] == [];
    PlainSigners([], 1);
    assert Z(20) + [0] + [] == Z(20) + [0];
    assert IsVoteScript(w.script, None);
  }

  lemma FreePrinted()
    ensures ValidWire(FREE)
    ensures Print(FREE) == Z(25) + [2] + (ACCOUNT + [0] + (OTHER + [0]) + ([0] + [39] + FREE.script))
  {
    hide Flatten, Print, SignersItems;
    assert |FREE.script| == 39;
    assert ACCOUNT[0] != OTHER[0];
    assert ValidSigner(FREE.signers[0]) && ValidSigner(FREE.signers[1]);
    PlainPrint(FREE);
    PlainSigners(FREE.signers, 0);
    PlainSigners(FREE.signers[1..], 1);
    assert FREE.signers[1..][1..] == [];
    PlainSigners([], 2);
    assert OTHER + [0] + [] == OTHER + [0];
  }

  lemma ListerPrinted()
    ensures Flatten(SignerItems(LISTER, 1)) == OTHER + [0x10, 3] + LISTED
  {
    hide Flatten;
    var w := LISTER;
    var a, b := Item(Contract(1, 0), LISTED[..20]), Item(Contract(1, 1), LISTED[20..40]);
    var c := Item(Contract(1, 2), LISTED[40..]);
    ThreeContracts(LISTED[..20], LISTED[20..40], LISTED[40..]);
    assert ContractList(w, 1) == [Item(ContractCount(1), [3])] + ([a] + ([b] + [c]));
    assert GroupList(w, 1) == [];
    var tail := [Item(ContractCount(1), [3])] + ([a] + ([b] + [c]));
    assert SignerItems(w, 1) == [Item(Account(1), OTHER)] + ([Item(Scope(1), [0x10])] + tail) by {
      assert tail + [] == tail;
    }
    FlattenCons(Item(Account(1), OTHER), [Item(Scope(1), [0x10])] + tail);
    FlattenCons(Item(Scope(1), [0x10]), tail);
    FlattenCons(Item(ContractCount(1), [3]), [a] + ([b] + [c]));
    FlattenCons(a, [b] + [c]);
    FlattenCons(b, [c]);
    assert [c] + [] == [c];
    FlattenCons(c, []);
    FlattenNone();
    assert OTHER + ([0x10] + ([3] + (LISTED[..20] + (LISTED[20..40] + (LISTED[40..] + [])))))
        == OTHER + [0x10, 3] + LISTED;
  }

  lemma ThreeContracts(a: bytes, b: bytes, c: bytes)
    ensures ContractItems([a, b, c], 1, 0)
         == [Item(Contract(1, 0), a)] + ([Item(Contract(1, 1), b)] + [Item(Contract(1, 2), c)])
  {
    assert [a, b, c][1..] == [b, c] && [b, c][1..] == [c] && [c][1..] == [];
    assert ContractItems([c], 1, 2) == [Item(Contract(1, 2), c)];
    assert ContractItems([b, c], 1, 1) == [Item(Contract(1, 1), b)] + ContractItems([c], 1, 2);
  }

  lemma TransferPrinted()
    ensures ValidWire(TRANSFER)
    ensures Print(TRANSFER) == Z(25) + [2] + (ACCOUNT + [0] + (OTHER + [0x10, 3] + LISTED) + ([0] + [86] + HIDDEN))
    ensures IsTransferScript(HIDDEN, 1, Z(20), false)
  {
    hide Flatten, Print, SignersItems, SignerItems;
    assert |HIDDEN| == 86;
    assert IsPush([0x11], 1);
    TransferBy(HIDDEN, [0x11], 1, Z(20), Z(20), false);
    assert ACCOUNT[0] != OTHER[0];
    assert ValidSigner(TRANSFER.signers[0]) && ValidSigner(LISTER);
    PlainPrint(TRANSFER);
    TwoSigners(TRANSFER.signers[0], LISTER);
    PlainSigner(ACCOUNT, 0);
    ListerPrinted();
  }

  lemma TwoSigners(v: WireSigner, w: WireSigner)
    ensures Flatten(SignersItems([v, w], 0)) == Flatten(SignerItems(v, 0)) + Flatten(SignerItems(w, 1))
  {
    hide Flatten, SignerItems;
    assert [v, w][1..] == [w] && [w][1..] == [];
    assert SignersItems([w], 1) == SignerItems(w, 1) + [] == SignerItems(w, 1);
    assert SignersItems([v, w], 0) == SignerItems(v, 0) + SignersItems([w], 1);
    FlattenAppend(SignerItems(v, 0), SignerItems(w, 1));
  }

  // ---- what the bytes become ----

  lemma ZeroSplit(m: nat, n: nat)
    ensures Z(m + n) == Z(m) + Z(n) && Z(1) == [0] && Z(2) == [0, 0] && Z(3) == [0, 0, 0]
  {
  }

  lemma Dropped(t: bytes)
    ensures (Z(25) + [1] + (Z(20) + [0] + t))[36..] == Z(10) + [0] + t
  {
    assert (Z(25) + [1] + (Z(20) + [0] + t)) == (Z(25) + [1] + Z(10)) + (Z(10) + [0] + t);
  }

  lemma HashInFront(t: bytes)
    ensures Z(4) + HASH + (Z(10) + [0] + t) == Z(25) + [2] + (ACCOUNT + [0] + t)
  {
    hide ZeroBytes;
    ZeroSplit(4, 21);
    ZeroSplit(9, 10);
    Regrouped(Z(4), Z(21), Z(9), Z(10), t);
  }

  lemma Regrouped(z: bytes, y: bytes, u: bytes, v: bytes, t: bytes)
    ensures z + (y + [2, 1] + u) + (v + [0] + t) == (z + y) + [2] + (([1] + (u + v)) + [0] + t)
  {
    assert [2, 1] == [2] + [1];
  }

  lemma OldTail(x: bytes)
    requires |x| == 5
    ensures [0] + [59] + VoteScript(None, Source(x)) == OTHER + x + REST
  {
    hide ZeroBytes;
    Opened(Z(15), x, REST);
  }

  lemma Opened(z: bytes, x: bytes, r: bytes)
    ensures [0] + [59] + ([0x0B] + (PUSH_HASH + ((z + x) + r))) == [0, 59, 0x0B, 0x0C, 0x14] + z + x + r
  {
    assert [0, 59, 0x0B, 0x0C, 0x14] == [0] + [59] + [0x0B] + PUSH_HASH;
  }

  /** A zero magic and the hash in front of the rest. */
  lemma Becomes(env: Env, x: bytes)
    requires |x| == 5 && env.sha(RetractionBytes(x)) == HASH
    ensures Pow256(4) > 0 && |RetractionBytes(x)| == 108
    ensures Scratched(env, 0, RetractionBytes(x)) == Z(25) + [2] + (ACCOUNT + [0] + (OTHER + x + REST))
  {
    hide ZeroBytes, VoteScript;
    var tail := [0] + [59] + VoteScript(None, Source(x));
    RetractionPrinted(x);
    ZeroLE(4);
    Dropped(tail);
    HashInFront(tail);
    OldTail(x);
  }

  const X_FREE: bytes := [0, 0, 39, 0x40, 0x40]
  const X_TRANSFER: bytes := [0x10, 3, 0, 0, 0]
  const TAIL_FREE: bytes := [0]
  const TAIL_TRANSFER: bytes := Z(21) + [0] + [86] + HIDDEN

  lemma BecomesFree(env: Env)
    requires env.sha(RetractionBytes(X_FREE)) == HASH
    ensures |RetractionBytes(X_FREE)| == 108 && ValidWire(FREE) && |Print(FREE)| <= MAX_TRANSACTION_LEN
    ensures Scratched(env, 0, RetractionBytes(X_FREE)) + TAIL_FREE == Print(FREE)
  {
    hide ZeroBytes, Print, RetractionBytes, Scratched, ValidWire;
    Becomes(env, X_FREE);
    FreePrinted();
    Lengths();
    assert Z(25) + [2] + (ACCOUNT + [0] + (OTHER + X_FREE + REST)) + TAIL_FREE
        == Z(25) + [2] + (ACCOUNT + [0] + (OTHER + [0]) + ([0] + [39] + ([0x40, 0x40] + REST + [0])));
  }

  lemma BecomesTransfer(env: Env)
    requires env.sha(RetractionBytes(X_TRANSFER)) == HASH
    ensures |RetractionBytes(X_TRANSFER)| == 108 && ValidWire(TRANSFER) && |Print(TRANSFER)| <= MAX_TRANSACTION_LEN
    ensures Scratched(env, 0, RetractionBytes(X_TRANSFER)) + TAIL_TRANSFER == Print(TRANSFER)
  {
    hide ZeroBytes, Print, RetractionBytes, Scratched, ValidWire, TransferScript;
    Becomes(env, X_TRANSFER);
    TransferPrinted();
    Lengths();
    ZeroSplit(0, 0);
    assert X_TRANSFER == [0x10, 3] + Z(3);
    Absorbed(Z(25) + [2], ACCOUNT + [0], OTHER, Z(3), REST, Z(21), HIDDEN);
  }

  /** What is left of the old script becomes a list of contracts. */
  lemma Absorbed(h: bytes, a: bytes, b: bytes, z: bytes, r: bytes, y: bytes, t: bytes)
    ensures h + (a + (b + ([0x10, 3] + z) + r)) + (y + [0] + [86] + t)
         == h + (a + (b + [0x10, 3] + (z + r + y)) + ([0] + [86] + t))
  {
  }

  lemma Lengths()
    ensures |Z(25)| == 25 && |ACCOUNT| == 20 && |OTHER| == 20 && |FREE.script| == 39 && |HIDDEN| == 86 && |LISTED| == 60
  {
  }

  lemma NoLanguage()
    ensures !InTransfer(FREE.script) && !InVote(FREE.script)
    ensures !([0x0B] <= FREE.script || [0x0C] <= FREE.script)
  {
    var s := FREE.script;
    assert s[0] == 0x40;
    forall a, dst, neo ensures !IsTransferScript(s, a, dst, neo) {
      if IsTransferScript(s, a, dst, neo) { TransferStart(s, a, dst, neo); }
    }
    forall key ensures !IsVoteScript(s, key) {
      if IsVoteScript(s, key) { VoteStart(s, key); }
    }
  }

  // ---- the run ----

  /** One more event, with the reply that it gets. */
  lemma Extend(env: Env, log: seq<Entry>, s: DeviceState, e: Event)
    requires Exec(env, false, log) == Some(s) && Enabled(s, e)
    ensures var (t, r) := Respond(env, s, e); Exec(env, false, log + [Entry(e, r)]) == Some(t)
  {
    hide Respond, Enabled;
    Snoc(log, Entry(e, Respond(env, s, e).1));
  }

  lemma Next(env: Env, log: seq<Entry>, s: DeviceState, e: Event) returns (t: DeviceState, more: seq<Entry>)
    requires Exec(env, false, log) == Some(s) && Enabled(s, e)
    ensures t == Respond(env, s, e).0 && more == log + [Entry(e, Respond(env, s, e).1)]
    ensures Exec(env, false, more) == Some(t)
  {
    hide Exec, Respond, Enabled;
    Extend(env, log, s, e);
    t, more := Respond(env, s, e).0, log + [Entry(e, Respond(env, s, e).1)];
  }

  lemma Started(env: Env)
    ensures ValidDevice(PowerOn(false)) && PowerOn(false).pending == Nothing && !PowerOn(false).scriptsAllowed
    ensures Exec(env, false, []) == Some(PowerOn(false))
  {
  }

  lemma CanApprove(env: Env, s: DeviceState)
    requires ValidDevice(s) && s.pending == TxReview(true)
    ensures Enabled(s, Approve(Signs)) && Respond(env, s, Approve(Signs)).1.SignatureReply?
  {
  }

  predicate SettingUntouched(log: seq<Entry>) {
    forall k :: 0 <= k < |log| ==> !log[k].e.SetScriptsAllowed?
  }

  lemma {:induction false} SettingFalse(log: seq<Entry>)
    requires SettingUntouched(log)
    ensures !Setting(false, log)
  {
    if log != [] {
      SettingFalse(log[..|log| - 1]);
    }
  }

  lemma RetractionAccepted(x: bytes)
    requires |x| == 5
    ensures |RetractionBytes(x)| == 108
    ensures var o := Deserialize(RetractionBytes(x), ZeroTx());
            o.status == ParsingOk && o.tx.isVote && o.tx.isRemoveVote
  {
    hide Deserialize, Print, ZeroTx, ValidWire, Holds, InVote, InTransfer;
    var w := Retraction(x);
    RetractionPrinted(x);
    ParseOfPrint(w);
    var o := Deserialize(Print(w), ZeroTx());
    if !o.tx.isRemoveVote {
      VoteIsOne(w.script, Some(o.tx.voteTo), x);
    }
  }

  /** The retraction is no vote for a candidate. */
  lemma VoteIsOne(s: bytes, key: Option<bytes>, x: bytes)
    requires |x| == 5 && s == VoteScript(None, Source(x)) && IsVoteScript(s, key)
    ensures key.None?
  {
    assert s[0] == 0x0B;
  }

  lemma FirstReviewed(env: Env, s: DeviceState, d: bytes, path: seq<nat>)
    requires Receiving(s, [], 0, path) && !s.scriptsAllowed && |d| == 108
    requires var o := Deserialize(d, ZeroTx()); o.status == ParsingOk && o.tx.isVote && o.tx.isRemoveVote
    ensures var e := Command(Apdu(CLA, SIGN_TX, 2, P2_LAST, d));
            && Enabled(s, e)
            && var t := Respond(env, s, e).0;
               && Reviewing(env, t, d, 0, path, false) && t.pending == TxReview(true)
               && !t.scriptsAllowed && t.ctx.union.info.tx.isVote && t.ctx.union.info.tx.isRemoveVote
  {
    hide Deserialize, ZeroTx, Respond, Receiving;
    assert [] + d == d;
    OneChunk(env, s, [], Chunk(true, d), 0, 0, path);
  }

  lemma Approved(env: Env, s: DeviceState, d: bytes, path: seq<nat>)
    requires |d| == 108 && Reviewing(env, s, d, 0, path, false) && s.pending == TxReview(true)
    ensures Pow256(4) > 0
    ensures var t := Respond(env, s, Approve(Signs)).0;
            && ValidDevice(t) && t.pending == Nothing && t.ctx.req == ConfirmTransaction
            && t.scriptsAllowed == s.scriptsAllowed && t.ctx.union.Info? && t.ctx.union.info.tx == s.ctx.union.info.tx
            && Holding(t.ctx.union.info, Scratched(env, 0, d))
  {
    hide Deserialize, ZeroTx, Allowed, Scratched;
    ScratchedBy(env, s, d, Approve(Signs));
  }

  /** The log ends with the approval of the retraction `d`. */
  ghost predicate VoteApproved(env: Env, d: bytes, s: DeviceState, log: seq<Entry>)
    requires |d| == 108
  {
    && |log| == 4 && SettingUntouched(log) && Exec(env, false, log) == Some(s)
    && s.pending == Nothing && s.ctx.req == ConfirmTransaction && !s.scriptsAllowed && ValidDevice(s)
    && s.ctx.union.info.tx.isVote && s.ctx.union.info.tx.isRemoveVote
    && Holding(s.ctx.union.info, Scratched(env, 0, d))
  }

  lemma FirstApproved(env: Env, path: bytes, d: bytes) returns (s: DeviceState, log: seq<Entry>)
    requires Bip44(path) == PathOk && |path| <= MAX_APDU_LEN && |d| == 108
    requires var o := Deserialize(d, ZeroTx()); o.status == ParsingOk && o.tx.isVote && o.tx.isRemoveVote
    ensures VoteApproved(env, d, s, log)
  {
    hide Exec, Respond, Enabled, Receiving, PathAfter, Bip44, Deserialize, ZeroTx, ZeroBytes, Scratched;
    Widths();
    var start := PowerOn(false);
    Started(env);
    Opening(env, start, path, 0);
    var e0, e1 := Command(Apdu(CLA, SIGN_TX, 0, P2_MORE, path)), Command(Apdu(CLA, SIGN_TX, 1, P2_MORE, ToLE(0, 4)));
    s, log := Next(env, [], start, e0);
    s, log := Next(env, log, s, e1);
    FirstReviewed(env, s, d, PathAfter(path));
    s, log := Next(env, log, s, Command(Apdu(CLA, SIGN_TX, 2, P2_LAST, d)));
    Approved(env, s, d, PathAfter(path));
    CanApprove(env, s);
    s, log := Next(env, log, s, Approve(Signs));
  }

  /** The script under review is that of `w`, and still a vote is asked for. */
  ghost predicate AskedAsVote(s: DeviceState, w: Wire) {
    && s.ctx.union.Info? && s.ctx.union.info.rawTxLen <= |s.ctx.union.info.rawTx|
    && var i := s.ctx.union.info;
       At(i.rawTx[..i.rawTxLen], i.tx.script, i.tx.scriptSize) == w.script && Named(i.tx) == Vote(None)
  }

  lemma SecondReviewed(env: Env, s: DeviceState, b: bytes, c: bytes, w: Wire)
    requires ValidDevice(s) && s.pending == Nothing && s.ctx.req == ConfirmTransaction && !s.scriptsAllowed
    requires s.ctx.union.info.tx.isVote && s.ctx.union.info.tx.isRemoveVote && Holding(s.ctx.union.info, b)
    requires ValidWire(w) && w.attributes == [] && b + c == Print(w) && |Print(w)| <= MAX_TRANSACTION_LEN
             && 0 < |c| <= 255
    requires InTransfer(w.script) || !([0x0B] <= w.script || [0x0C] <= w.script)
    ensures var e := Command(Apdu(CLA, SIGN_TX, 2, P2_LAST, c));
            && Enabled(s, e)
            && var t := Respond(env, s, e).0; ValidDevice(t) && t.pending == TxReview(true) && AskedAsVote(t, w)
  {
    hide Deserialize, Print, ZeroTx, ValidWire, Holds, ShowsSigner, NoOtherLists;
    var e := Command(Apdu(CLA, SIGN_TX, 2, P2_LAST, c));
    StepKeepsValid(env, s, e);
    var i := s.ctx.union.info;
    assert Overwrite(i.rawTx, |b|, c)[..|b| + |c|] == b + c;
    StaysVote(i.tx, w);
  }

  lemma StaysVote(before: Tx, w: Wire)
    requires Shape(before) && before.isVote && before.isRemoveVote
    requires ValidWire(w) && w.attributes == [] && |Print(w)| <= MAX_TRANSACTION_LEN
    requires InTransfer(w.script) || !([0x0B] <= w.script || [0x0C] <= w.script)
    ensures var o := Deserialize(Print(w), before);
            && o.status == ParsingOk && o.tx.isVote && Named(o.tx) == Vote(None)
            && At(Print(w), o.tx.script, o.tx.scriptSize) == w.script
  {
    hide Deserialize, Print, ValidWire, Holds, ShowsSigner, NoOtherLists, InTransfer, InVote, LeftByTransfer;
    AcceptedInto(Print(w), before);
    var v := HeldFrom(Print(w), before);
    PrintInjective(v, w);
    if !InTransfer(w.script) { NoKey(w.script); }
  }

  lemma NoKey(s: bytes)
    requires !([0x0C] <= s)
    ensures forall key :: IsCompressedKey(key) ==> !(PUSH_KEY + key <= s)
  {
    forall key | IsCompressedKey(key) ensures !(PUSH_KEY + key <= s) {
      assert (PUSH_KEY + key)[0] == 0x0C;
    }
  }

  /** The log signs at its end the transaction `w`, which was reviewed as a vote retraction,
      without arbitrary scripts allowed. */
  ghost predicate SignedAsVote(env: Env, log: seq<Entry>, w: Wire) {
    && |log| == 6 && log[5].e == Approve(Signs) && log[5].r.SignatureReply? && !Setting(false, log)
    && Exec(env, false, log).Some? && Exec(env, false, log[..5]).Some?
    && AskedAsVote(Exec(env, false, log[..5]).value, w)
  }

  lemma SecondApproved(env: Env, s: DeviceState, log: seq<Entry>, d: bytes, c: bytes, w: Wire) returns (all: seq<Entry>)
    requires |d| == 108 && VoteApproved(env, d, s, log)
    requires ValidWire(w) && w.attributes == [] && |Print(w)| <= MAX_TRANSACTION_LEN && 0 < |c| <= 255
    requires Pow256(4) > 0 && Scratched(env, 0, d) + c == Print(w)
    requires InTransfer(w.script) || !([0x0B] <= w.script || [0x0C] <= w.script)
    ensures SignedAsVote(env, all, w)
  {
    hide Exec, Respond, Enabled, Print, ValidWire, InTransfer, ValidDevice, Scratched, AskedAsVote, Holding;
    SecondReviewed(env, s, Scratched(env, 0, d), c, w);
    var t, more := Next(env, log, s, Command(Apdu(CLA, SIGN_TX, 2, P2_LAST, c)));
    CanApprove(env, t);
    var u;
    u, all := Next(env, more, t, Approve(Signs));
    assert all[..5] == more;
    SettingFalse(all);
  }

  /** All chunks come in the documented order. The first approval is of a vote; the second one
      signs a script that is in no language. */
  lemma GateFails(env: Env, path: bytes) returns (log: seq<Entry>)
    requires AsksAccount(path) && |path| <= MAX_APDU_LEN && env.sha(RetractionBytes(X_FREE)) == HASH
    ensures SignedAsVote(env, log, FREE) && !InTransfer(FREE.script) && !InVote(FREE.script)
  {
    hide Print, ValidWire, Bip44, AsksAccount, InTransfer, InVote, Deserialize, ZeroTx, RetractionBytes, SignedAsVote,
         VoteApproved, Scratched;
    PathVerdict(path);
    NoLanguage();
    BecomesFree(env);
    RetractionAccepted(X_FREE);
    var s, before := FirstApproved(env, path, RetractionBytes(X_FREE));
    log := SecondApproved(env, s, before, RetractionBytes(X_FREE), TAIL_FREE, FREE);
  }

  /** The same, but the second script is a transfer. It is reviewed as the vote retraction that
      was approved before, without its amount and its destination. */
  lemma NameFails(env: Env, path: bytes) returns (log: seq<Entry>)
    requires AsksAccount(path) && |path| <= MAX_APDU_LEN && env.sha(RetractionBytes(X_TRANSFER)) == HASH
    ensures SignedAsVote(env, log, TRANSFER) && IsTransferScript(TRANSFER.script, 1, Z(20), false)
  {
    hide Print, ValidWire, Bip44, AsksAccount, InTransfer, InVote, Deserialize, ZeroTx, RetractionBytes, SignedAsVote,
         VoteApproved, Scratched, IsTransferScript;
    PathVerdict(path);
    TransferPrinted();
    InTransferBy(HIDDEN, 1, Z(20), false);
    BecomesTransfer(env);
    RetractionAccepted(X_TRANSFER);
    var s, before := FirstApproved(env, path, RetractionBytes(X_TRANSFER));
    log := SecondApproved(env, s, before, RetractionBytes(X_TRANSFER), TAIL_TRANSFER, TRANSFER);
  }
}
