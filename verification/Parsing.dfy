/** The wire format as a machine that consumes one field at a time. `Run` is what
    `transaction_deserialize` computes; the loops of the parser are its successive steps. */
module Parsing {
  import opened Options
  import opened Bytes
  import opened Transactions
  import opened Scripts

  datatype Status =
    | ParsingOk
    | InvalidLengthError
    | VersionParsingError | VersionValueError
    | NonceParsingError
    | SystemFeeParsingError | SystemFeeValueError
    | NetworkFeeParsingError | NetworkFeeValueError
    | ValidUntilBlockParsingError
    | SignerLengthParsingError | SignerLengthValueError
    | SignerAccountParsingError | SignerAccountDuplicateError
    | SignerScopeParsingError | SignerScopeValueErrorGlobalFlag
    | SignerAllowedContractsLengthParsingError | SignerAllowedContractsLengthValueError
    | SignerAllowedContractParsingError
    | SignerAllowedGroupsLengthParsingError | SignerAllowedGroupsLengthValueError
    | AttributesLengthParsingError | AttributesLengthValueError
    | AttributesUnsupportedType | AttributesDuplicateType
    | ScriptLengthParsingError | ScriptLengthValueError

  type pos = x: nat | 0 < x witness 1

  /** The field that is read next. */
  datatype Phase =
    | Version | Nonce | SystemFee | NetworkFee | ValidUntil
    | SignerCount
    | Account(i: nat) | Scope(i: nat)
    | ContractCount(i: nat) | Contract(i: nat, j: nat)
    | GroupCount(i: nat) | Group(i: nat, j: nat)
    | AttributeCount | Attribute(i: nat)
    | ScriptLength | Script(len: pos)
    | Done

  datatype State = State(phase: Phase, off: nat, tx: Tx)
  datatype Verdict = Next(phase: Phase, tx: Tx) | Refuse(status: Status, tx: Tx)

  /** `cut` says that the bytes ended inside a field. */
  datatype Outcome = Outcome(status: Status, cut: bool, tx: Tx)

  /** Loop indices are below the counts that were read, and those within the arrays. */
  ghost predicate ValidAt(p: Phase, tx: Tx) {
    Shape(tx) &&
    match p
    case Account(i) => i < tx.signersSize <= MAX_TX_SIGNERS
    case Scope(i) => i < tx.signersSize <= MAX_TX_SIGNERS
    case ContractCount(i) => i < tx.signersSize <= MAX_TX_SIGNERS
    case Contract(i, j) => i < tx.signersSize <= MAX_TX_SIGNERS
                           && j < tx.signers[i].contractsSize <= MAX_SIGNER_ALLOWED_CONTRACTS
    case GroupCount(i) => i < tx.signersSize <= MAX_TX_SIGNERS
    case Group(i, j) => i < tx.signersSize <= MAX_TX_SIGNERS
                        && j < tx.signers[i].groupsSize <= MAX_SIGNER_ALLOWED_GROUPS
    case Attribute(i) => i < tx.attributesSize <= MAX_ATTRIBUTES
    case _ => true
  }

  ghost predicate Valid(d: bytes, s: State) {
    s.off <= |d| && ValidAt(s.phase, s.tx)
  }

  // ---- one field ----

  /** How many bytes the field at `off` takes. */
  function FieldLen(d: bytes, off: nat, p: Phase): (n: pos) {
    match p
    case Version => 1
    case Nonce => 4
    case SystemFee => 8
    case NetworkFee => 8
    case ValidUntil => 4
    case Account(_) => UINT160_LEN
    case Contract(_, _) => UINT160_LEN
    case Group(_, _) => ECPOINT_LEN
    case Script(len) => len
    case SignerCount => CountLen(d, off)
    case ContractCount(_) => CountLen(d, off)
    case GroupCount(_) => CountLen(d, off)
    case AttributeCount => CountLen(d, off)
    case ScriptLength => CountLen(d, off)
    case _ => 1
  }

  function CountLen(d: bytes, off: nat): (n: pos) {
    if off < |d| then VarintLen(d[off]) else 1
  }

  predicate IsCut(d: bytes, s: State) {
    s.off + FieldLen(d, s.off, s.phase) > |d|
  }

  function CutStatus(p: Phase): Status {
    match p
    case Version => VersionParsingError
    case Nonce => NonceParsingError
    case SystemFee => SystemFeeParsingError
    case NetworkFee => NetworkFeeParsingError
    case ValidUntil => ValidUntilBlockParsingError
    case SignerCount => SignerLengthParsingError
    case Account(_) => SignerAccountParsingError
    case Scope(_) => SignerScopeParsingError
    case ContractCount(_) => SignerAllowedContractsLengthParsingError
    case Contract(_, _) => SignerAllowedContractParsingError
    case GroupCount(_) => SignerAllowedGroupsLengthParsingError
    case Group(_, _) => SignerAllowedContractParsingError
    case AttributeCount => AttributesLengthParsingError
    case Attribute(_) => AttributesUnsupportedType
    case ScriptLength => ScriptLengthParsingError
    case Script(_) => ScriptLengthValueError
    case Done => ParsingOk
  }

  // ---- the location a field fills ----

  function PutSigner(tx: Tx, i: nat, s: Signer): Tx
    requires i < |tx.signers|
  {
    tx.(signers := tx.signers[i := s])
  }

  /** The values the location of `p` can hold. */
  predicate InRange(p: Phase, v: int) {
    match p
    case Version => 0 <= v < 256
    case Scope(_) => 0 <= v < 256
    case Attribute(_) => 0 <= v < 256
    case SystemFee => true
    case NetworkFee => true
    case _ => 0 <= v
  }

  /** The struct with `v` stored where the field `p` belongs. */
  function Write(p: Phase, v: int, tx: Tx): (t: Tx)
    requires ValidAt(p, tx) && InRange(p, v)
    ensures Shape(t)
  {
    match p
    case Version => tx.(version := v)
    case Nonce => tx.(nonce := v)
    case SystemFee => tx.(systemFee := v)
    case NetworkFee => tx.(networkFee := v)
    case ValidUntil => tx.(validUntil := v)
    case SignerCount => tx.(signersSize := v)
    case Account(i) => PutSigner(tx, i, tx.signers[i].(account := v))
    case Scope(i) => PutSigner(tx, i, tx.signers[i].(scope := v))
    case ContractCount(i) => PutSigner(tx, i, tx.signers[i].(contractsSize := v))
    case Contract(i, j) => PutSigner(tx, i, tx.signers[i].(contracts := tx.signers[i].contracts[j := v]))
    case GroupCount(i) => PutSigner(tx, i, tx.signers[i].(groupsSize := v))
    case Group(i, j) => PutSigner(tx, i, tx.signers[i].(groups := tx.signers[i].groups[j := v]))
    case AttributeCount => tx.(attributesSize := v)
    case Attribute(i) => tx.(attributes := tx.attributes[i := v])
    case ScriptLength => tx.(script := v)
    case Script(_) => tx.(scriptSize := v)
    case Done => tx
  }

  /** What a cut field leaves behind: numbers read into the struct become zero, pointers
      are stored before the bytes behind them are checked. */
  function OnCut(p: Phase, off: nat, tx: Tx): (t: Tx)
    requires ValidAt(p, tx)
    ensures Shape(t)
  {
    if p in {Version, Nonce, SystemFee, NetworkFee, ValidUntil} then Write(p, 0, tx)
    else if p.Account? || p.Contract? || p.Group? then Write(p, off, tx)
    else tx
  }

  // ---- what follows ----

  function AfterSigner(i: nat, tx: Tx): Phase {
    if i + 1 < tx.signersSize then Account(i + 1) else AttributeCount
  }

  function AfterContracts(i: nat, tx: Tx): Phase
    requires i < |tx.signers|
  {
    if HasFlag(tx.signers[i].scope, CUSTOM_GROUPS) then GroupCount(i) else AfterSigner(i, tx)
  }

  function AfterScope(i: nat, tx: Tx): Phase
    requires i < |tx.signers|
  {
    if HasFlag(tx.signers[i].scope, CUSTOM_CONTRACTS) then ContractCount(i) else AfterContracts(i, tx)
  }

  /** The phase after the field `p`, which is already stored in `tx`. */
  function Following(p: Phase, n: nat, tx: Tx): Phase
    requires Shape(tx) && ValidIndex(p)
  {
    match p
    case Version => Nonce
    case Nonce => SystemFee
    case SystemFee => NetworkFee
    case NetworkFee => ValidUntil
    case ValidUntil => SignerCount
    case SignerCount => Account(0)
    case Account(i) => Scope(i)
    case Scope(i) => AfterScope(i, tx)
    case ContractCount(i) => if tx.signers[i].contractsSize > 0 then Contract(i, 0) else AfterContracts(i, tx)
    case Contract(i, j) => if j + 1 < tx.signers[i].contractsSize then Contract(i, j + 1) else AfterContracts(i, tx)
    case GroupCount(i) => if tx.signers[i].groupsSize > 0 then Group(i, 0) else AfterSigner(i, tx)
    case Group(i, j) => if j + 1 < tx.signers[i].groupsSize then Group(i, j + 1) else AfterSigner(i, tx)
    case AttributeCount => if tx.attributesSize > 0 then Attribute(0) else ScriptLength
    case Attribute(i) => if i + 1 < tx.attributesSize then Attribute(i + 1) else ScriptLength
    case ScriptLength => if n > 0 then Script(n) else Done
    case Script(_) => Done
    case Done => Done
  }

  ghost predicate ValidIndex(p: Phase) {
    match p
    case Account(i) => i < MAX_TX_SIGNERS
    case Scope(i) => i < MAX_TX_SIGNERS
    case ContractCount(i) => i < MAX_TX_SIGNERS
    case Contract(i, j) => i < MAX_TX_SIGNERS && j < MAX_SIGNER_ALLOWED_CONTRACTS
    case GroupCount(i) => i < MAX_TX_SIGNERS
    case Group(i, j) => i < MAX_TX_SIGNERS && j < MAX_SIGNER_ALLOWED_GROUPS
    case Attribute(i) => i < MAX_ATTRIBUTES
    case _ => true
  }

  // ---- the verdict on a complete field; `d` ends with the field, which starts at `off` ----

  ghost predicate Complete(p: Phase, d: bytes, off: nat) {
    off <= |d| && |d| == off + FieldLen(d, off, p)
  }

  predicate IsCount(p: Phase) {
    p.SignerCount? || p.ContractCount? || p.GroupCount? || p.AttributeCount? || p.ScriptLength?
  }

  /** The number that the field encodes. */
  function Number(p: Phase, d: bytes, off: nat): (v: int)
    requires Complete(p, d, off)
    ensures InRange(p, v)
  {
    if IsCount(p) then VarintValue(d[off..])
    else if p.Version? || p.Scope? || p.Attribute? then d[off]
    else if p.SystemFee? || p.NetworkFee? then Signed(FromLE(d[off..]), 8)
    else FromLE(d[off..])
  }

  /** What is stored for the field: its number, or where its bytes are. */
  function Stored(p: Phase, d: bytes, off: nat): (v: int)
    requires Complete(p, d, off)
    ensures InRange(p, v)
  {
    if p.Account? || p.Contract? || p.Group? then off
    else if p.ScriptLength? || p.Script? then |d| - (if p.Script? then off else 0)
    else Number(p, d, off)
  }

  predicate Duplicate(i: nat, d: bytes, off: nat, tx: Tx)
    requires i < |tx.signers|
  {
    exists s :: 0 <= s < i && At(d, tx.signers[s].account, UINT160_LEN) == At(d, off, UINT160_LEN)
  }

  /** Why a complete field is refused, if it is. The scan for a duplicate attribute covers
      every slot up to the announced count, filled or not. */
  function Objection(p: Phase, n: int, d: bytes, off: nat, tx: Tx): (r: Option<Status>)
    requires ValidAt(p, tx) && InRange(p, n)
    ensures r != Some(ParsingOk)
  {
    match p
    case Version => if n > 0 then Some(VersionValueError) else None
    case SystemFee => if n < 0 then Some(SystemFeeValueError) else None
    case NetworkFee => if n < 0 then Some(NetworkFeeValueError) else None
    case SignerCount => if n < MIN_TX_SIGNERS || n > MAX_TX_SIGNERS then Some(SignerLengthValueError) else None
    case Account(i) => if Duplicate(i, d, off, tx) then Some(SignerAccountDuplicateError) else None
    case Scope(_) => if HasFlag(n, GLOBAL) && n != GLOBAL then Some(SignerScopeValueErrorGlobalFlag) else None
    case ContractCount(_) =>
      if n > MAX_SIGNER_ALLOWED_CONTRACTS then Some(SignerAllowedContractsLengthValueError) else None
    case GroupCount(_) =>
      if n > MAX_SIGNER_ALLOWED_GROUPS then Some(SignerAllowedGroupsLengthValueError) else None
    case AttributeCount => if n > MAX_ATTRIBUTES || n > 2 then Some(AttributesLengthValueError) else None
    case Attribute(_) =>
      if n != HIGH_PRIORITY then Some(AttributesUnsupportedType)
      else if n in tx.attributes[..tx.attributesSize] then Some(AttributesDuplicateType) else None
    case ScriptLength => if n > 0xFFFF || n == 0 then Some(ScriptLengthValueError) else None
    case _ => None
  }

  /** Fields that are read straight into the struct are stored even when refused. */
  predicate StoredFirst(p: Phase) {
    p.Version? || p.SystemFee? || p.NetworkFee? || p.Account? || p.Scope? || p.ScriptLength?
  }

  predicate WithinLimits(p: Phase, v: int) {
    match p
    case SignerCount => MIN_TX_SIGNERS <= v <= MAX_TX_SIGNERS
    case ContractCount(_) => v <= MAX_SIGNER_ALLOWED_CONTRACTS
    case GroupCount(_) => v <= MAX_SIGNER_ALLOWED_GROUPS
    case AttributeCount => v <= MAX_ATTRIBUTES
    case _ => true
  }

  lemma NextListValid(i: nat, tx: Tx)
    requires Shape(tx) && i < tx.signersSize <= MAX_TX_SIGNERS
    ensures ValidAt(AfterSigner(i, tx), tx) && ValidAt(AfterContracts(i, tx), tx) && ValidAt(AfterScope(i, tx), tx)
  {
  }

  /** The loops stay within the counts and the arrays. */
  lemma FollowingValid(p: Phase, v: int, n: nat, tx: Tx)
    requires ValidAt(p, tx) && InRange(p, v) && WithinLimits(p, v)
    ensures var t := Write(p, v, tx); ValidIndex(p) && ValidAt(Following(p, n, t), t)
  {
    hide AfterSigner, AfterContracts, AfterScope;
    if p.Account? || p.Scope? || p.ContractCount? || p.Contract? || p.GroupCount? || p.Group? {
      NextListValid(p.i, Write(p, v, tx));
    }
  }

  /** Stores the field and moves to the next one. */
  function Proceed(p: Phase, v: int, n: nat, tx: Tx): (r: Verdict)
    requires ValidAt(p, tx) && InRange(p, v) && WithinLimits(p, v)
    ensures r.Next? && ValidAt(r.phase, r.tx)
  {
    FollowingValid(p, v, n, tx);
    var t := Write(p, v, tx);
    Next(Following(p, n, t), t)
  }

  function Accept(p: Phase, d: bytes, off: nat, tx: Tx): (v: Verdict)
    requires ValidAt(p, tx) && Complete(p, d, off)
    ensures Shape(v.tx) && (v.Next? ==> ValidAt(v.phase, v.tx)) && (v.Refuse? ==> v.status != ParsingOk)
  {
    var n, stored := Number(p, d, off), Stored(p, d, off);
    match Objection(p, n, d, off, tx)
    case Some(status) => Refuse(status, if StoredFirst(p) then Write(p, stored, tx) else tx)
    case None =>
      if p.Script? then Next(Done, Recognise(d[off..], Write(p, stored, tx)))
      else Proceed(p, stored, if p.ScriptLength? then n else 0, tx)
  }

  // ---- all fields ----

  /** The verdict on the next field. */
  function Judge(d: bytes, s: State): (v: Verdict)
    requires Valid(d, s) && !IsCut(d, s)
    ensures Shape(v.tx) && (v.Next? ==> ValidAt(v.phase, v.tx)) && (v.Refuse? ==> v.status != ParsingOk)
  {
    Accept(s.phase, d[..s.off + FieldLen(d, s.off, s.phase)], s.off, s.tx)
  }

  function Run(d: bytes, s: State): (o: Outcome)
    requires Valid(d, s)
    ensures Shape(o.tx)
    decreases |d| - s.off
  {
    if s.phase.Done? then Outcome(if s.off == |d| then ParsingOk else InvalidLengthError, false, s.tx)
    else if IsCut(d, s) then Outcome(CutStatus(s.phase), true, OnCut(s.phase, s.off, s.tx))
    else
      match Judge(d, s)
      case Refuse(status, t) => Outcome(status, false, t)
      case Next(p, t) => Run(d, State(p, s.off + FieldLen(d, s.off, s.phase), t))
  }

  /** One step of the machine. */
  lemma Unfold(d: bytes, s: State)
    requires Valid(d, s)
    ensures s.phase.Done? ==>
              Run(d, s) == Outcome(if s.off == |d| then ParsingOk else InvalidLengthError, false, s.tx)
    ensures !s.phase.Done? && IsCut(d, s) ==>
              Run(d, s) == Outcome(CutStatus(s.phase), true, OnCut(s.phase, s.off, s.tx))
    ensures !s.phase.Done? && !IsCut(d, s) ==>
              match Judge(d, s)
              case Refuse(status, t) => Run(d, s) == Outcome(status, false, t)
              case Next(p, t) => Run(d, s) == Run(d, State(p, s.off + FieldLen(d, s.off, s.phase), t))
  {
  }

  /** The whole parse, into a struct that need not be zeroed. */
  function Deserialize(d: bytes, tx: Tx): (o: Outcome)
    requires Shape(tx)
    ensures Shape(o.tx)
  {
    if |d| > MAX_TRANSACTION_LEN then Outcome(InvalidLengthError, false, tx)
    else Run(d, State(Version, 0, tx))
  }
}
