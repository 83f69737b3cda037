/** The handlers as they change the global context in place, each against its specification. */
module DeviceModule {
  import opened Bytes
  import opened Buffers
  import opened Transactions
  import Parsing
  import Deserializer
  import opened ReviewTexts
  import opened ReviewItems
  import BaglReview
  import Shown
  import opened UsedStruct
  import opened Session
  import opened Paths
  import SessionLaws
  import Answers

  lemma OpenIsValid(s: DeviceState, data: bytes)
    requires s.pending == Nothing
    ensures ValidDevice(OpenSession(s, data).0)
  {
  }

  lemma KeyIsValid(env: Env, s: DeviceState, data: bytes, show: bool)
    requires s.pending == Nothing
    ensures ValidDevice(GetPublicKey(env, s, data, show).0)
  {
  }

  /** The event leads from `s` to `t` with this reply. */
  ghost predicate Steps(env: Env, s: DeviceState, e: Event, t: DeviceState, r: Reply) {
    ValidDevice(s) && Enabled(s, e) && Respond(env, s, e) == (t, r)
  }

  lemma SignsInstead(env: Env, s: DeviceState, outcome: SignOutcome)
    requires ValidDevice(s) && s.pending == TxReview(true)
    ensures Enabled(s, Approve(outcome)) && Respond(env, s, Approve(outcome)) == Sign(env, s, outcome)
  {
  }

  lemma AnswerEnds(env: Env, s: DeviceState, e: Event)
    requires ValidDevice(s) && Enabled(s, e) && (e.Approve? || e.Reject?)
    ensures var (t, r) := Respond(env, s, e);
            t.pending == Nothing && (r.SignatureReply? <==> e == Approve(Signs))
            && (e.Reject? ==> t.ctx.state == StateNone && r == ConditionsNotSatisfied)
  {
    hide Respond, ValidDevice, Enabled;
    Answers.StepAnnounces(env, s, e);
    Answers.AnswerReplies(env, s, e);
  }

  lemma LengthFits(s: DeviceState)
    requires ValidDevice(s) && s.pending.TxReview?
    ensures s.ctx.union.Info? && s.ctx.union.info.rawTxLen <= MAX_TRANSACTION_LEN
  {
  }

  lemma InfoOfZero()
    ensures ZeroInfo().tx == ZeroTx()
  {
  }

  class Device {
    const env: Env
    var state: Progress
    var req: Request
    var magic: nat
    var path: seq<nat>
    // the union
    ghost var holdsKey: bool  // which member was stored last
    var rawPublicKey: bytes
    const rawTx: array<u8>
    var rawTxLen: nat
    var scriptHash: bytes
    var hash: bytes
    var signature: bytes
    var tx: Transaction
    // settings and screen
    var scriptsAllowed: bool
    var pending: Pending
    const strings: ReviewStrings

    ghost predicate Valid()
      reads this, rawTx, tx, strings
    {
      rawTx.Length == MAX_TRANSACTION_LEN && ValidDevice(Value()) && Bounded(tx.Value()) && Ready()
    }

    /** A transaction under review can be displayed, the gate has been asked about it, and the
        strings are its own. */
    ghost predicate Ready()
      reads this, tx, strings
    {
      pending.TxReview? ==>
        && Displayable(tx.Value()) && strings.Tells(tx.Value())
        && pending == TxReview(Allowed(tx.Value(), scriptsAllowed))
    }

    ghost function TxInfoValue(): TxInfo
      reads this, rawTx, tx
    {
      TxInfo(rawTx[..], scriptHash, rawTxLen, tx.Value(), hash, signature)
    }

    ghost function ContextValue(): Context
      reads this, rawTx, tx
    {
      Context(state, if holdsKey then PublicKey(rawPublicKey) else Info(TxInfoValue()), magic, req, path)
    }

    ghost function Value(): DeviceState
      reads this, rawTx, tx
    {
      DeviceState(ContextValue(), scriptsAllowed, pending)
    }

    constructor (env: Env, scriptsAllowed: bool)
      ensures Valid() && Value() == PowerOn(scriptsAllowed) && this.env == env && fresh(rawTx) && fresh(tx)
      ensures fresh(strings)
    {
      this.env, this.scriptsAllowed := env, scriptsAllowed;
      state, req, magic, path, pending := StateNone, ConfirmAddress, 0, ZeroPath(), Nothing;
      holdsKey, rawPublicKey := true, ZeroBytes(64);
      rawTx := new u8[MAX_TRANSACTION_LEN](_ => 0);
      rawTxLen, scriptHash, hash, signature := 0, ZeroBytes(32), ZeroBytes(32), [];
      tx := new Transaction();
      strings := new ReviewStrings();
    }

    /** `buffer_read_and_validate_bip44` into the cleared path. It succeeds exactly for an account
        path, which is then stored as it was asked for. */
    method ReadPath(cdata: Buffer) returns (status: Bip44Status)
      requires cdata.offset == 0
      modifies cdata, this`path
      ensures status == Bip44(cdata.data) && path == PathAfter(cdata.data)
      ensures status == PathOk <==> AsksAccount(cdata.data)
      ensures status == PathOk ==> path == Requested(cdata.data)
    {
      hide AsksAccount, Requested;
      PathAccepted(cdata.data);
      path := ZeroPath();
      if |cdata.data| < BIP44_BYTE_LENGTH { return TooShort; }
      var ok, level := cdata.ReadUnsigned(4, BE);
      if level != 0x8000_002C { return BadPurpose; }
      path := path[0 := level];
      ok, level := cdata.ReadUnsigned(4, BE);
      if level != 0x8000_0378 { return BadCoinType; }
      path := path[1 := level];
      ok, level := cdata.ReadUnsigned(4, BE);
      if level < 0x8000_0000 { return AccountNotHardened; }
      if level > 0x8000_0010 { return BadAccount; }
      path := path[2 := level];
      ok, level := cdata.ReadUnsigned(4, BE);
      if level != 0 && level != 1 { return BadChange; }
      path := path[3 := level];
      ok, level := cdata.ReadUnsigned(4, BE);
      if level >= 5000 { return BadAddress; }
      path := path[4 := level];
      status := PathOk;
    }

    method HandlerGetPublicKey(cdata: Buffer, showOnScreen: bool) returns (r: Reply)
      requires Valid() && pending == Nothing && cdata.offset == 0
      modifies cdata, this
      ensures Valid() && tx == old(tx)
      ensures (Value(), r) == GetPublicKey(env, old(Value()), cdata.data, showOnScreen)
      ensures r.KeyReply? <==> AsksAccount(cdata.data) && !showOnScreen
      ensures r.KeyReply? ==> r.key == env.publicKey(Requested(cdata.data))
      ensures pending == if AsksAccount(cdata.data) && showOnScreen then AddressReview else Nothing
    {
      hide AsksAccount, Requested, ValidDevice, PathAfter, Bip44, Bounded, Displayable, ReviewStrings.Tells, ZeroBytes;
      KeyIsValid(env, Value(), cdata.data, showOnScreen);
      req, state, magic := ConfirmAddress, StateNone, 0;
      holdsKey, rawPublicKey := true, ZeroBytes(64);
      var status := ReadPath(cdata);
      if status != PathOk { return PathError(status); }
      rawPublicKey := env.publicKey(path);
      if showOnScreen {
        pending := AddressReview;
        return AddressShown;
      }
      r := KeyReply(rawPublicKey);
    }

    /** `explicit_bzero` of the transaction member. */
    method ClearTx()
      requires rawTx.Length == MAX_TRANSACTION_LEN
      modifies this`holdsKey, this`rawTxLen, this`scriptHash, this`hash, this`signature, this`tx, rawTx
      ensures !holdsKey && TxInfoValue() == ZeroInfo() && fresh(tx)
    {
      holdsKey, rawTxLen, scriptHash, hash, signature := false, 0, ZeroBytes(32), ZeroBytes(32), [];
      forall k | 0 <= k < rawTx.Length { rawTx[k] := 0; }
      assert rawTx[..] == ZeroBytes(MAX_TRANSACTION_LEN);
      tx := new Transaction();
    }

    /** The context of a transaction, all zero but for the request. */
    method ClearContext()
      requires rawTx.Length == MAX_TRANSACTION_LEN
      modifies this, rawTx
      ensures fresh(tx) && scriptsAllowed == old(scriptsAllowed) && pending == old(pending)
      ensures ContextValue() == Context(StateNone, Info(ZeroInfo()), 0, ConfirmTransaction, old(path))
    {
      ClearTx();
      magic, req, state := 0, ConfirmTransaction, StateNone;
    }

    method OpenChunk(cdata: Buffer) returns (r: Reply)
      requires Valid() && pending == Nothing && cdata.offset == 0
      modifies cdata, this, rawTx
      ensures Valid() && fresh(tx)
      ensures (Value(), r) == OpenSession(old(Value()), cdata.data)
    {
      hide PathAfter, Bip44, ZeroInfo, ValidDevice, ZeroTx, ZeroBytes, ZeroPath, Bounded, Displayable,
           ReviewStrings.Tells;
      ZeroBounded();
      InfoOfZero();
      OpenIsValid(Value(), cdata.data);
      ClearContext();
      var status := ReadPath(cdata);
      if status != PathOk { return PathError(status); }
      state := Bip44Ok;
      r := Success;
    }

    method MagicChunk(cdata: Buffer) returns (r: Reply)
      requires Valid() && pending == Nothing && cdata.offset == 0
      modifies cdata, this`magic, this`state
      ensures Valid()
      ensures (Value(), r) == ReceiveMagic(old(Value()), cdata.data)
    {
      if req != ConfirmTransaction && state != Bip44Ok { return BadState; }
      Widths();
      var ok;
      ok, magic := cdata.ReadUnsigned(4, LE);
      if !ok { return MagicParsingFail; }
      state := MagicOk;
      r := Success;
    }

    /** `buffer_move` behind what is there already. */
    method AppendChunk(data: bytes)
      requires rawTx.Length == MAX_TRANSACTION_LEN && rawTxLen + |data| <= MAX_TRANSACTION_LEN
      modifies this`rawTxLen, rawTx
      ensures rawTx[..] == Overwrite(old(rawTx[..]), old(rawTxLen), data) && rawTxLen == old(rawTxLen) + |data|
    {
      forall k | 0 <= k < |data| { rawTx[rawTxLen + k] := data[k]; }
      rawTxLen := rawTxLen + |data|;
    }

    method TxChunk(cdata: Buffer, more: bool) returns (r: Reply)
      requires Valid() && pending == Nothing
      modifies this, rawTx, tx, strings
      ensures Valid() && tx == old(tx)
      ensures (Value(), r) == ReceiveTx(env, old(Value()), cdata.data, more)
    {
      if req != ConfirmTransaction && state != MagicOk { return BadState; }
      if rawTxLen + |cdata.data| > MAX_TRANSACTION_LEN { return WrongTxLength; }
      AppendChunk(cdata.data);
      if more { return Success; }
      r := ParseChunk();
    }

    /** Parses what has been received, hashes it, and starts the review. */
    method ParseChunk() returns (r: Reply)
      requires Valid() && pending == Nothing && req == ConfirmTransaction
      modifies this, tx, strings
      ensures Valid() && tx == old(tx)
      ensures (Value(), r) == ParseAndReview(env, old(Value()), old(TxInfoValue()))
    {
      hide Parsing.Deserialize, Allowed, Bounded, Displayable, ReviewStrings.Tells;
      ghost var before := tx.Value();
      BoundedShape(before);
      ParseKeepsBounds(rawTx[..rawTxLen], before);
      var buf := new Buffer(rawTx[..rawTxLen]);
      var status := Deserializer.TransactionDeserialize(buf, tx);
      if status != Parsing.ParsingOk { return ParsingFail(status); }
      ParsedIsDisplayable(rawTx[..rawTxLen], before);
      r := HashAndReview();
    }

    /** Hashes the transaction and its script, and starts the review. */
    method HashAndReview() returns (r: Reply)
      requires Valid() && pending == Nothing && req == ConfirmTransaction && Displayable(tx.Value())
      modifies this`state, this`hash, this`scriptHash, this`pending, strings
      ensures Valid() && state == Parsed && pending == TxReview(Allowed(tx.Value(), scriptsAllowed))
      ensures hash == env.sha(rawTx[..rawTxLen]) && scriptHash == env.sha(At(rawTx[..], tx.script, tx.scriptSize))
      ensures r == ReviewStarted(pending.open)
    {
      hide Allowed, Bounded, Displayable, ReviewStrings.Tells;
      state := Parsed;
      hash := env.sha(rawTx[..rawTxLen]);
      scriptHash := env.sha(At(rawTx[..], tx.script, tx.scriptSize));
      assert req == ConfirmTransaction && state == Parsed;  // the code checks this again
      r := StartSignTx();
    }

    /** Prepares the strings, which always succeeds, and puts the transaction on screen: for
        approval when the gate allows it, otherwise only to be rejected. */
    method StartSignTx() returns (r: Reply)
      modifies this`pending, strings
      ensures pending == TxReview(Allowed(tx.Value(), scriptsAllowed)) && r == ReviewStarted(pending.open)
      ensures strings.Tells(tx.Value())
    {
      var failure := strings.StartSignTx(Snapshot());
      if failure.Some? { return DisplayFail; }
      pending := TxReview(tx.isTransfer || tx.isVote || scriptsAllowed);
      r := ReviewStarted(pending.open);
    }

    function Snapshot(): (t: Tx)
      reads this, tx
      ensures t == tx.Value()
    {
      Tx(tx.version, tx.nonce, tx.systemFee, tx.networkFee, tx.validUntil, tx.signers, tx.signersSize, tx.attributes,
         tx.attributesSize, tx.script, tx.scriptSize, tx.isTransfer, tx.isNeo, tx.amount, tx.dst, tx.isVote,
         tx.isRemoveVote, tx.voteTo)
    }

    method HandlerSignTx(cdata: Buffer, chunk: nat, more: bool) returns (r: Reply)
      requires Valid() && pending == Nothing && cdata.offset == 0
      modifies cdata, this, rawTx, tx, strings
      ensures Valid() && (tx == old(tx) || fresh(tx))
      ensures (Value(), r) == SignTx(env, old(Value()), cdata.data, chunk, more)
    {
      if chunk == 0 {
        r := OpenChunk(cdata);
      } else if chunk == 1 {
        r := MagicChunk(cdata);
      } else {
        r := TxChunk(cdata, more);
      }
    }

    method ApduDispatcher(a: Apdu) returns (r: Reply)
      requires Valid() && pending == Nothing
      modifies this, rawTx, tx, strings
      ensures Valid() && (tx == old(tx) || fresh(tx))
      ensures (Value(), r) == Dispatch(env, old(Value()), a)
    {
      hide SignTx, GetPublicKey, ValidDevice;
      if a.cla != CLA { return InvalidCla; }
      if a.ins == GET_VERSION || a.ins == GET_APP_NAME {
        return if a.p1 != 0 || a.p2 != 0 then IncorrectP1P2 else Description;
      }
      if a.ins == GET_PUBLIC_KEY {
        if a.p1 > 0 || a.p2 > 1 { return IncorrectP1P2; }
        if a.data == [] { return WrongDataLength; }
        var buf := new Buffer(a.data);
        r := HandlerGetPublicKey(buf, a.p2 == 1);
      } else if a.ins == SIGN_TX {
        if (a.p1 == P1_START && a.p2 != P2_MORE) || a.p1 > P1_MAX || (a.p2 != P2_LAST && a.p2 != P2_MORE) {
          return IncorrectP1P2;
        }
        if a.data == [] { return WrongDataLength; }
        var buf := new Buffer(a.data);
        r := HandlerSignTx(buf, a.p1, a.p2 == P2_MORE);
      } else {
        r := InvalidIns;
      }
    }

    // ---- the answer of the user ----

    /** Hashes magic and transaction hash, put together in the raw transaction, and signs. */
    method CryptoSignTx(outcome: SignOutcome) returns (ok: bool)
      requires rawTx.Length == MAX_TRANSACTION_LEN && |hash| == 32 && magic < 0x1_0000_0000
      modifies this`hash, this`signature, rawTx
      ensures Pow256(4) == 0x1_0000_0000
      ensures rawTx[..] == Overwrite(old(rawTx[..]), 0, ToLE(magic, 4) + old(hash))
      ensures ok == outcome.Signs?
      ensures hash == if outcome.HashFails? then old(hash) else env.sha(rawTx[..36])
      ensures signature == if ok then env.ecdsa(path, env.sha(rawTx[..36])) else old(signature)
    {
      Widths();
      var front := ToLE(magic, 4) + hash;
      forall k | 0 <= k < 36 { rawTx[k] := front[k]; }
      if outcome == HashFails { return false; }
      var digest := env.sha(rawTx[..36]);
      hash := digest;
      if outcome == EcdsaFails { return false; }
      signature := env.ecdsa(path, digest);
      ok := true;
    }

    method Approved(outcome: SignOutcome) returns (r: Reply)
      requires Valid() && pending == TxReview(true)
      modifies this`state, this`hash, this`signature, this`pending, rawTx
      ensures Valid() && Steps(env, old(Value()), Approve(outcome), Value(), r)
    {
      hide Respond, ToLE, Overwrite, Bounded, Displayable, ReviewStrings.Tells, Enabled, Pow256;
      SignsInstead(env, Value(), outcome);
      SessionLaws.StepKeepsValid(env, Value(), Approve(outcome));
      state := ApprovedState;
      var ok := CryptoSignTx(outcome);
      if !ok {
        state := StateNone;
        r := SignFail;
      } else {
        r := SignatureReply(signature);
      }
      pending := Nothing;
    }

    /** The answer to a review ends it, whatever it is. A signature is the reply to an approval
        that signs, and to nothing else. */
    method ValidateTransaction(approved: bool, outcome: SignOutcome) returns (r: Reply)
      requires Valid() && pending.TxReview? && (approved ==> pending.open)
      modifies this, rawTx
      ensures Valid() && tx == old(tx)
      ensures Steps(env, old(Value()), if approved then Approve(outcome) else Reject, Value(), r)
      ensures pending == Nothing && (!approved ==> state == StateNone && r == ConditionsNotSatisfied)
      ensures r.SignatureReply? <==> approved && outcome == Signs
    {
      hide Parsing.Deserialize, Bounded, Displayable, ReviewStrings.Tells;
      AnswerEnds(env, Value(), if approved then Approve(outcome) else Reject);
      if approved {
        r := Approved(outcome);
      } else {
        state := StateNone;
        r := ConditionsNotSatisfied;
        pending := Nothing;
      }
    }

    /** The review on the button front end, up to a press of both buttons. A signature is
        released only after every screen of the transaction that is signed has been on display,
        each signer item with its own text, and the strings were those of that transaction. So
        whatever transaction the bytes in the buffer are, each of its items has been told. */
    method ReviewWithButtons(presses: seq<bool>, showScriptHash: bool, outcome: SignOutcome)
      returns (choice: BaglReview.Choice, r: Reply, ghost shown: set<BaglReview.Screen>)
      requires Valid() && pending.TxReview?
      modifies this, rawTx
      ensures Valid() && tx == old(tx)
      ensures choice == BaglReview.NoChoice ==> Value() == old(Value())
      ensures choice == BaglReview.Approved ==> Steps(env, old(Value()), Approve(outcome), Value(), r)
      ensures choice == BaglReview.Rejected ==> Steps(env, old(Value()), Reject, Value(), r)
      ensures choice == BaglReview.Approved ==>
                BaglReview.AllShown(tx.Value(), showScriptHash, shown) && strings.Tells(tx.Value())
      ensures choice == BaglReview.Approved ==>
                Shape(tx.Value()) && Shown.BufferTold(old(rawTx[..rawTxLen]), tx.Value(), shown)
    {
      hide Shown.BufferTold, Parsing.Deserialize, Respond, ValidDevice, Bounded, Displayable, ReviewStrings.Tells,
           BaglReview.AllShown, Allowed, Enabled;
      BoundedShape(tx.Value());
      LengthFits(Value());
      choice, shown := ChooseWithButtons(presses, showScriptHash);
      r := NoReply;
      if choice == BaglReview.Approved {
        Shown.AllBufferTold(rawTx[..rawTxLen], tx.Value(), showScriptHash, shown);
      }
      if choice != BaglReview.NoChoice {
        r := ValidateTransaction(choice == BaglReview.Approved, outcome);
      }
    }

    method ChooseWithButtons(presses: seq<bool>, showScriptHash: bool)
      returns (choice: BaglReview.Choice, ghost shown: set<BaglReview.Screen>)
      requires Displayable(tx.Value())
      ensures choice == BaglReview.Approved ==>
                Allowed(tx.Value(), scriptsAllowed) && BaglReview.AllShown(tx.Value(), showScriptHash, shown)
    {
      hide Displayable, BaglReview.AllShown, Allowed;
      var review := new BaglReview.Review(Snapshot(), scriptsAllowed, showScriptHash);
      review.PressAll(presses);
      choice := review.BothButtons();
      shown := review.shown;
    }

    method ValidatePubkey(approved: bool) returns (r: Reply)
      requires Valid() && pending == AddressReview
      modifies this`pending
      ensures Valid() && Steps(env, old(Value()), AnswerAddress(approved), Value(), r)
      ensures pending == Nothing && (r.KeyReply? <==> approved)
    {
      pending := Nothing;
      r := if approved then KeyReply(rawPublicKey) else ConditionsNotSatisfied;
    }
  }
}
