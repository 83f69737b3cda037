/** The signing session: what one command or one button press does to the global context.
    Hashing, key derivation and ECDSA are parameters. */
module Session {
  import opened Bytes
  import opened Transactions
  import opened Parsing
  import opened ReviewItems

  type hash32 = b: bytes | |b| == 32 witness seq(32, _ => 0)

  /** Functions that only the platform knows. */
  datatype Env = Env(sha: bytes -> hash32, publicKey: seq<nat> -> bytes, ecdsa: (seq<nat>, hash32) -> bytes)

  const CLA: nat := 0x80
  const GET_APP_NAME: nat := 0
  const GET_VERSION: nat := 1
  const SIGN_TX: nat := 2
  const GET_PUBLIC_KEY: nat := 4
  const P1_START: nat := 0
  const P1_MAX: nat := 6
  const P2_LAST: nat := 0
  const P2_MORE: nat := 0x80

  const BIP44_PATH_LEN: nat := 5
  const BIP44_BYTE_LENGTH: nat := 20

  datatype Progress = StateNone | Bip44Ok | MagicOk | Parsed | ApprovedState
  datatype Request = ConfirmAddress | ConfirmTransaction

  datatype TxInfo = TxInfo(rawTx: bytes, scriptHash: bytes, rawTxLen: nat, tx: Tx, hash: bytes, signature: bytes)

  /** The two uses of the same memory. */
  datatype Union = PublicKey(key: bytes) | Info(info: TxInfo)

  datatype Context = Context(state: Progress, union: Union, magic: nat, req: Request, path: seq<nat>)

  /** What the screen is waiting for. `open` says whether approval is offered. */
  datatype Pending = Nothing | AddressReview | TxReview(open: bool)

  datatype DeviceState = DeviceState(ctx: Context, scriptsAllowed: bool, pending: Pending)

  datatype Apdu = Apdu(cla: u8, ins: u8, p1: u8, p2: u8, data: bytes)
  datatype SignOutcome = Signs | HashFails | EcdsaFails

  datatype Event =
    | Command(apdu: Apdu)
    | Approve(outcome: SignOutcome)
    | Reject
    | AnswerAddress(approved: bool)
    | SetScriptsAllowed(allowed: bool)

  datatype Bip44Status =
    | PathOk
    | TooShort | BadPurpose | BadCoinType | AccountNotHardened | BadAccount | BadChange | BadAddress

  datatype Reply =
    | NoReply
    | Success
    | InvalidCla | InvalidIns | IncorrectP1P2 | WrongDataLength
    | PathError(status: Bip44Status)
    | BadState | MagicParsingFail | WrongTxLength
    | ParsingFail(parsing: Status)
    | ReviewStarted(open: bool)
    | Description
    | DisplayFail
    | AddressShown | KeyReply(key: bytes)
    | SignatureReply(signature: bytes) | SignFail | ConditionsNotSatisfied

  // ---- the BIP44 path ----

  function Level(data: bytes, k: nat): nat
    requires 4 * k + 4 <= |data|
  {
    FromBE(data[4 * k..4 * k + 4])
  }

  function Bip44(data: bytes): Bip44Status {
    if |data| < BIP44_BYTE_LENGTH then TooShort
    else if Level(data, 0) != 0x8000_002C then BadPurpose
    else if Level(data, 1) != 0x8000_0378 then BadCoinType
    else if Level(data, 2) < 0x8000_0000 then AccountNotHardened
    else if Level(data, 2) > 0x8000_0010 then BadAccount
    else if Level(data, 3) != 0 && Level(data, 3) != 1 then BadChange
    else if Level(data, 4) >= 5000 then BadAddress
    else PathOk
  }

  /** How many levels are stored before the path is refused. */
  function LevelsStored(status: Bip44Status): (n: nat)
    ensures n <= BIP44_PATH_LEN
  {
    match status
    case TooShort => 0 case BadPurpose => 0 case BadCoinType => 1
    case AccountNotHardened => 2 case BadAccount => 2 case BadChange => 3 case BadAddress => 4 case PathOk => 5
  }

  /** The path in the context after the levels of `data` were read into zeroes. */
  function PathAfter(data: bytes): (path: seq<nat>)
    ensures |path| == BIP44_PATH_LEN
  {
    var n := LevelsStored(Bip44(data));
    seq(BIP44_PATH_LEN, k requires 0 <= k < BIP44_PATH_LEN => if k < n then Level(data, k) else 0)
  }

  // ---- the context ----

  function ZeroBytes(n: nat): (s: bytes)
    ensures |s| == n
  {
    seq(n, _ => 0)
  }

  function ZeroInfo(): TxInfo {
    TxInfo(ZeroBytes(MAX_TRANSACTION_LEN), ZeroBytes(32), 0, ZeroTx(), ZeroBytes(32), [])
  }

  function ZeroPath(): seq<nat> {
    seq(BIP44_PATH_LEN, _ => 0)
  }

  /** Power-on: all zero, which reads as a confirmed address. */
  function PowerOn(scriptsAllowed: bool): DeviceState {
    DeviceState(Context(StateNone, PublicKey(ZeroBytes(64)), 0, ConfirmAddress, ZeroPath()), scriptsAllowed, Nothing)
  }

  ghost predicate ValidInfo(i: TxInfo) {
    |i.rawTx| == MAX_TRANSACTION_LEN && i.rawTxLen <= MAX_TRANSACTION_LEN && Shape(i.tx) && |i.hash| == 32
  }

  /** While the memory holds a public key the request is for an address, and then no signing
      step has been made. With this, every guarded access below finds a transaction. */
  ghost predicate Disciplined(c: Context) {
    && (c.req == ConfirmTransaction ==> c.union.Info? && ValidInfo(c.union.info))
    && (c.req == ConfirmAddress ==> c.union.PublicKey? && c.state == StateNone)
  }

  ghost predicate ValidDevice(s: DeviceState) {
    && Disciplined(s.ctx) && s.ctx.magic < 0x1_0000_0000
    && (s.pending.TxReview? ==> s.ctx.req == ConfirmTransaction)
    && (s.pending.AddressReview? ==> s.ctx.req == ConfirmAddress)
  }

  // ---- GET_PUBLIC_KEY ----

  function GetPublicKey(env: Env, s: DeviceState, data: bytes, show: bool): (DeviceState, Reply) {
    var status, path := Bip44(data), PathAfter(data);
    if status != PathOk then
      (s.(ctx := Context(StateNone, PublicKey(ZeroBytes(64)), 0, ConfirmAddress, path)), PathError(status))
    else
      var key := env.publicKey(path);
      var ctx := Context(StateNone, PublicKey(key), 0, ConfirmAddress, path);
      if show then (s.(ctx := ctx, pending := AddressReview), AddressShown) else (s.(ctx := ctx), KeyReply(key))
  }

  // ---- SIGN_TX ----

  /** Chunk 0 clears everything and reads the path. */
  function OpenSession(s: DeviceState, data: bytes): (DeviceState, Reply) {
    var status := Bip44(data);
    var ctx := Context(if status == PathOk then Bip44Ok else StateNone, Info(ZeroInfo()), 0, ConfirmTransaction,
                       PathAfter(data));
    (s.(ctx := ctx), if status == PathOk then Success else PathError(status))
  }

  /** Chunk 1 reads the network magic. The guard refuses only when both tests fail. */
  function ReceiveMagic(s: DeviceState, data: bytes): (DeviceState, Reply) {
    if s.ctx.req != ConfirmTransaction && s.ctx.state != Bip44Ok then (s, BadState)
    else if |data| < 4 then (s.(ctx := s.ctx.(magic := 0)), MagicParsingFail)
    else (s.(ctx := s.ctx.(magic := FromLE(data[..4]), state := MagicOk)), Success)
  }

  function Overwrite(buffer: bytes, at: nat, data: bytes): (r: bytes)
    requires at + |data| <= |buffer|
    ensures |r| == |buffer|
  {
    buffer[..at] + data + buffer[at + |data|..]
  }

  /** The other chunks carry the transaction. */
  function ReceiveTx(env: Env, s: DeviceState, data: bytes, more: bool): (DeviceState, Reply)
    requires ValidDevice(s)
  {
    if s.ctx.req != ConfirmTransaction && s.ctx.state != MagicOk then (s, BadState)
    else
      var i := s.ctx.union.info;
      if i.rawTxLen + |data| > MAX_TRANSACTION_LEN then (s, WrongTxLength)
      else
        var j := i.(rawTx := Overwrite(i.rawTx, i.rawTxLen, data), rawTxLen := i.rawTxLen + |data|);
        if more then (s.(ctx := s.ctx.(union := Info(j))), Success) else ParseAndReview(env, s, j)
  }

  function ParseAndReview(env: Env, s: DeviceState, i: TxInfo): (DeviceState, Reply)
    requires ValidInfo(i)
  {
    var d := i.rawTx[..i.rawTxLen];
    var o := Deserialize(d, i.tx);
    if o.status != ParsingOk then (s.(ctx := s.ctx.(union := Info(i.(tx := o.tx)))), ParsingFail(o.status))
    else
      var j := i.(tx := o.tx, hash := env.sha(d), scriptHash := env.sha(At(i.rawTx, o.tx.script, o.tx.scriptSize)));
      var open := Allowed(o.tx, s.scriptsAllowed);
      (s.(ctx := s.ctx.(union := Info(j), state := Parsed), pending := TxReview(open)), ReviewStarted(open))
  }

  function SignTx(env: Env, s: DeviceState, data: bytes, chunk: nat, more: bool): (DeviceState, Reply)
    requires ValidDevice(s)
  {
    if chunk == 0 then OpenSession(s, data)
    else if chunk == 1 then ReceiveMagic(s, data)
    else ReceiveTx(env, s, data, more)
  }

  // ---- the dispatcher ----

  function Dispatch(env: Env, s: DeviceState, a: Apdu): (DeviceState, Reply)
    requires ValidDevice(s)
  {
    if a.cla != CLA then (s, InvalidCla)
    else if a.ins == GET_VERSION || a.ins == GET_APP_NAME then
      (s, if a.p1 != 0 || a.p2 != 0 then IncorrectP1P2 else Description)
    else if a.ins == GET_PUBLIC_KEY then
      if a.p1 > 0 || a.p2 > 1 then (s, IncorrectP1P2)
      else if a.data == [] then (s, WrongDataLength)
      else GetPublicKey(env, s, a.data, a.p2 == 1)
    else if a.ins == SIGN_TX then
      if (a.p1 == P1_START && a.p2 != P2_MORE) || a.p1 > P1_MAX || (a.p2 != P2_LAST && a.p2 != P2_MORE) then
        (s, IncorrectP1P2)
      else if a.data == [] then (s, WrongDataLength)
      else SignTx(env, s, a.data, a.p1, a.p2 == P2_MORE)
    else (s, InvalidIns)
  }

  // ---- the answer to a review ----

  /** Signing reuses the first 36 bytes of the raw transaction and the hash as scratch. */
  function Sign(env: Env, s: DeviceState, outcome: SignOutcome): (DeviceState, Reply)
    requires ValidDevice(s) && s.pending.TxReview?
  {
    Widths();
    var i := s.ctx.union.info;
    var scratch := Overwrite(i.rawTx, 0, ToLE(s.ctx.magic, 4) + i.hash);
    var digest := env.sha(scratch[..36]);
    match outcome
    case HashFails => (AfterAnswer(s, StateNone, i.(rawTx := scratch)), SignFail)
    case EcdsaFails => (AfterAnswer(s, StateNone, i.(rawTx := scratch, hash := digest)), SignFail)
    case Signs =>
      var signature := env.ecdsa(s.ctx.path, digest);
      (AfterAnswer(s, ApprovedState, i.(rawTx := scratch, hash := digest, signature := signature)),
       SignatureReply(signature))
  }

  function AfterAnswer(s: DeviceState, state: Progress, i: TxInfo): DeviceState {
    s.(ctx := s.ctx.(state := state, union := Info(i)), pending := Nothing)
  }

  // ---- steps ----

  /** Commands are handled, and settings changed, only while no review is pending. */
  predicate Enabled(s: DeviceState, e: Event) {
    match e
    case Command(a) => s.pending == Nothing && |a.data| <= 255
    case Approve(_) => s.pending == TxReview(true)
    case Reject => s.pending.TxReview?
    case AnswerAddress(_) => s.pending == AddressReview
    case SetScriptsAllowed(_) => s.pending == Nothing
  }

  function Respond(env: Env, s: DeviceState, e: Event): (DeviceState, Reply)
    requires ValidDevice(s) && Enabled(s, e)
  {
    match e
    case Command(a) => Dispatch(env, s, a)
    case Approve(outcome) => Sign(env, s, outcome)
    case Reject => (s.(ctx := s.ctx.(state := StateNone), pending := Nothing), ConditionsNotSatisfied)
    case AnswerAddress(approved) =>
      (s.(pending := Nothing),
       if approved then KeyReply(s.ctx.union.key) else ConditionsNotSatisfied)
    case SetScriptsAllowed(allowed) => (s.(scriptsAllowed := allowed), NoReply)
  }
}
