/** `transaction_deserialize` as the loops it is written with, refining the field machine. */
module Deserializer {
  import opened Options
  import opened Bytes
  import opened Buffers
  import opened Transactions
  import opened Scripts
  import opened Parsing
  import opened ParsingSteps

  /** The machine state that a point in the parser corresponds to. */
  ghost function Here(p: Phase, buf: Buffer, tx: Transaction): State
    reads buf, tx
  {
    State(p, buf.offset, tx.Value())
  }

  /** The parse that continues at `s` ends with `status` and leaves `tx`. */
  ghost predicate Ends(d: bytes, s: State, status: Status, tx: Tx)
    requires Valid(d, s)
  {
    Run(d, s).status == status && Run(d, s).tx == tx
  }

  /** A section of the parser: it either ends the parse, or takes the machine from the
      phase `s` to the phase `p` without changing how the parse ends. */
  ghost predicate Section(d: bytes, s: State, err: Option<Status>, t: State)
    requires Valid(d, s)
  {
    if err.Some? then Ends(d, s, err.value, t.tx) else Valid(d, t) && Run(d, s) == Run(d, t)
  }

  method TransactionDeserialize(buf: Buffer, tx: Transaction) returns (status: Status)
    requires buf.offset == 0 && Shape(tx.Value())
    modifies buf, tx
    ensures var o := Deserialize(buf.data, old(tx.Value())); status == o.status && tx.Value() == o.tx
  {
    if |buf.data| > MAX_TRANSACTION_LEN { return InvalidLengthError; }
    hide Run;
    var err := ParseVersion(buf, tx);
    if err.Some? { return err.value; }
    err := ParseNonce(buf, tx);
    if err.Some? { return err.value; }
    err := ParseSystemFee(buf, tx);
    if err.Some? { return err.value; }
    err := ParseNetworkFee(buf, tx);
    if err.Some? { return err.value; }
    err := ParseValidUntil(buf, tx);
    if err.Some? { return err.value; }
    err := ParseSignerCount(buf, tx);
    if err.Some? { return err.value; }
    err := ParseSigners(buf, tx);
    if err.Some? { return err.value; }
    err := ParseAttributes(buf, tx);
    if err.Some? { return err.value; }
    err := ParseScript(buf, tx);
    if err.Some? { return err.value; }
    Unfold(buf.data, Here(Done, buf, tx));
    status := if buf.offset == |buf.data| then ParsingOk else InvalidLengthError;
  }

  method ParseVersion(buf: Buffer, tx: Transaction) returns (err: Option<Status>)
    requires Valid(buf.data, Here(Version, buf, tx))
    modifies buf, tx`version
    ensures buf.Valid()
    ensures Section(buf.data, old(Here(Version, buf, tx)), err, Here(Nonce, buf, tx))
  {
    hide Run, Judge;
    ghost var s0 := Here(Version, buf, tx);
    Unfold(buf.data, s0);
    var ok;
    ok, tx.version := buf.ReadU8();
    if !ok { return Some(VersionParsingError); }
    VersionVerdict(buf.data, s0);
    if tx.version > 0 { return Some(VersionValueError); }
    err := None;
  }

  method ParseNonce(buf: Buffer, tx: Transaction) returns (err: Option<Status>)
    requires Valid(buf.data, Here(Nonce, buf, tx))
    modifies buf, tx`nonce
    ensures buf.Valid()
    ensures Section(buf.data, old(Here(Nonce, buf, tx)), err, Here(SystemFee, buf, tx))
  {
    hide Run, Judge;
    ghost var s0 := Here(Nonce, buf, tx);
    Unfold(buf.data, s0);
    var ok;
    ok, tx.nonce := buf.ReadUnsigned(4, LE);
    if !ok { return Some(NonceParsingError); }
    NonceVerdict(buf.data, s0);
    err := None;
  }

  method ParseSystemFee(buf: Buffer, tx: Transaction) returns (err: Option<Status>)
    requires Valid(buf.data, Here(SystemFee, buf, tx))
    modifies buf, tx`systemFee
    ensures buf.Valid()
    ensures Section(buf.data, old(Here(SystemFee, buf, tx)), err, Here(NetworkFee, buf, tx))
  {
    hide Run, Judge;
    ghost var s0 := Here(SystemFee, buf, tx);
    Unfold(buf.data, s0);
    var ok;
    ok, tx.systemFee := buf.ReadSigned(8, LE);
    if !ok { return Some(SystemFeeParsingError); }
    SystemFeeVerdict(buf.data, s0);
    if tx.systemFee < 0 { return Some(SystemFeeValueError); }
    err := None;
  }

  method ParseNetworkFee(buf: Buffer, tx: Transaction) returns (err: Option<Status>)
    requires Valid(buf.data, Here(NetworkFee, buf, tx))
    modifies buf, tx`networkFee
    ensures buf.Valid()
    ensures Section(buf.data, old(Here(NetworkFee, buf, tx)), err, Here(ValidUntil, buf, tx))
  {
    hide Run, Judge;
    ghost var s0 := Here(NetworkFee, buf, tx);
    Unfold(buf.data, s0);
    var ok;
    ok, tx.networkFee := buf.ReadSigned(8, LE);
    if !ok { return Some(NetworkFeeParsingError); }
    NetworkFeeVerdict(buf.data, s0);
    if tx.networkFee < 0 { return Some(NetworkFeeValueError); }
    err := None;
  }

  method ParseValidUntil(buf: Buffer, tx: Transaction) returns (err: Option<Status>)
    requires Valid(buf.data, Here(ValidUntil, buf, tx))
    modifies buf, tx`validUntil
    ensures buf.Valid()
    ensures Section(buf.data, old(Here(ValidUntil, buf, tx)), err, Here(SignerCount, buf, tx))
  {
    hide Run, Judge;
    ghost var s0 := Here(ValidUntil, buf, tx);
    Unfold(buf.data, s0);
    var ok;
    ok, tx.validUntil := buf.ReadUnsigned(4, LE);
    if !ok { return Some(ValidUntilBlockParsingError); }
    ValidUntilVerdict(buf.data, s0);
    err := None;
  }

  /** Reads the count that stands where `p` is. */
  method ReadCount(buf: Buffer, ghost p: Phase) returns (ok: bool, n: nat)
    requires buf.Valid()
    requires p in {SignerCount, AttributeCount, ScriptLength} || p.ContractCount? || p.GroupCount?
    modifies buf
    ensures buf.Valid()
    ensures var k := FieldLen(buf.data, old(buf.offset), p);
            && ok == (old(buf.offset) + k <= |buf.data|)
            && (!ok ==> buf.offset == old(buf.offset))
            && (ok ==> buf.offset == old(buf.offset) + k
                       && var f := buf.data[old(buf.offset)..old(buf.offset) + k]; IsVarint(f) && n == VarintValue(f))
  {
    ok, n := buf.ReadUvarint();
  }

  method ParseSignerCount(buf: Buffer, tx: Transaction) returns (err: Option<Status>)
    requires Valid(buf.data, Here(SignerCount, buf, tx))
    modifies buf, tx`signersSize
    ensures buf.Valid()
    ensures Section(buf.data, old(Here(SignerCount, buf, tx)), err, Here(Account(0), buf, tx))
  {
    hide Run, Judge;
    ghost var s0 := Here(SignerCount, buf, tx);
    Unfold(buf.data, s0);
    var ok, n := ReadCount(buf, SignerCount);
    if !ok { return Some(SignerLengthParsingError); }
    SignerCountVerdict(buf.data, s0, n);
    if n < MIN_TX_SIGNERS || n > MAX_TX_SIGNERS { return Some(SignerLengthValueError); }
    tx.signersSize := n;
    err := None;
  }

  method ParseSigners(buf: Buffer, tx: Transaction) returns (err: Option<Status>)
    requires Valid(buf.data, Here(Account(0), buf, tx))
    modifies buf, tx
    ensures buf.Valid()
    ensures Section(buf.data, old(Here(Account(0), buf, tx)), err, Here(AttributeCount, buf, tx))
  {
    hide Run;
    ghost var s0 := Here(Account(0), buf, tx);
    var i := 0;
    while i < tx.signersSize
      invariant i <= tx.signersSize <= MAX_TX_SIGNERS && buf.Valid()
      invariant var p := if i < tx.signersSize then Account(i) else AttributeCount;
                Valid(buf.data, Here(p, buf, tx)) && Run(buf.data, s0) == Run(buf.data, Here(p, buf, tx))
      decreases MAX_TX_SIGNERS - i
    {
      err := ParseSigner(buf, tx, i);
      if err.Some? { return; }
      i := i + 1;
    }
    err := None;
  }

  method ParseSigner(buf: Buffer, tx: Transaction, i: nat) returns (err: Option<Status>)
    requires Valid(buf.data, Here(Account(i), buf, tx))
    modifies buf, tx
    ensures buf.Valid()
    ensures Section(buf.data, old(Here(Account(i), buf, tx)), err, Here(AfterSigner(i, tx.Value()), buf, tx))
    ensures err.None? ==> tx.signersSize == old(tx.signersSize)
  {
    hide Run;
    ghost var s0 := Here(Account(i), buf, tx);
    err := ParseAccount(buf, tx, i);
    if err.Some? { return; }
    err := ParseScope(buf, tx, i);
    if err.Some? { return; }
    var value := tx.signers[i].scope;
    if HasFlag(value, CUSTOM_CONTRACTS) {
      err := ParseContracts(buf, tx, i);
      if err.Some? { return; }
    }
    if HasFlag(value, CUSTOM_GROUPS) {
      err := ParseGroups(buf, tx, i);
      if err.Some? { return; }
    }
    err := None;
  }

  method ParseScope(buf: Buffer, tx: Transaction, i: nat) returns (err: Option<Status>)
    requires Valid(buf.data, Here(Scope(i), buf, tx))
    modifies buf, tx`signers
    ensures buf.Valid() && Shape(tx.Value())
    ensures Section(buf.data, old(Here(Scope(i), buf, tx)), err, Here(AfterScope(i, tx.Value()), buf, tx))
  {
    hide Run, Judge;
    ghost var s0 := Here(Scope(i), buf, tx);
    Unfold(buf.data, s0);
    var ok, value := buf.ReadU8();
    if !ok { return Some(SignerScopeParsingError); }
    ScopeVerdict(buf.data, s0, i);
    tx.signers := tx.signers[i := tx.signers[i].(scope := value)];
    if HasFlag(value, GLOBAL) && value != GLOBAL { return Some(SignerScopeValueErrorGlobalFlag); }
    err := None;
  }

  method ParseAccount(buf: Buffer, tx: Transaction, i: nat) returns (err: Option<Status>)
    requires Valid(buf.data, Here(Account(i), buf, tx))
    modifies buf, tx
    ensures buf.Valid()
    ensures Section(buf.data, old(Here(Account(i), buf, tx)), err, Here(Scope(i), buf, tx))
    ensures err.None? ==> tx.signersSize == old(tx.signersSize)
  {
    hide Run, Judge, Duplicate;
    ghost var s0 := Here(Account(i), buf, tx);
    Unfold(buf.data, s0);
    var before, start := tx.signers, buf.offset;
    tx.signers := before[i := before[i].(account := start)];
    var ok := buf.SeekCur(UINT160_LEN);
    if !ok { return Some(SignerAccountParsingError); }
    AccountVerdict(buf.data, s0, i);
    var duplicate := ScanAccounts(buf.data[..buf.offset], before[..i], start);
    ScanIsDuplicate(buf.data[..buf.offset], i, start, s0.tx);
    err := if duplicate then Some(SignerAccountDuplicateError) else None;
  }

  lemma ScanIsDuplicate(d: bytes, i: nat, account: nat, tx: Tx)
    requires i < |tx.signers|
    ensures Duplicate(i, d, account, tx) <==>
            (exists s :: 0 <= s < |tx.signers[..i]|
                         && At(d, tx.signers[..i][s].account, UINT160_LEN) == At(d, account, UINT160_LEN))
  {
    hide At;
    var signers := tx.signers[..i];
    if s :| 0 <= s < i && At(d, tx.signers[s].account, UINT160_LEN) == At(d, account, UINT160_LEN) {
      assert signers[s] == tx.signers[s];
    }
    if s :| 0 <= s < |signers| && At(d, signers[s].account, UINT160_LEN) == At(d, account, UINT160_LEN) {
      assert signers[s] == tx.signers[s];
    }
  }

  /** Compares the account at `account` with those of the signers before it. */
  method ScanAccounts(d: bytes, signers: seq<Signer>, account: nat) returns (duplicate: bool)
    ensures duplicate <==>
            (exists s :: 0 <= s < |signers|
                         && At(d, signers[s].account, UINT160_LEN) == At(d, account, UINT160_LEN))
  {
    for s := 0 to |signers|
      invariant forall k :: 0 <= k < s ==>
                  At(d, signers[k].account, UINT160_LEN) != At(d, account, UINT160_LEN)
    {
      if At(d, signers[s].account, UINT160_LEN) == At(d, account, UINT160_LEN) {
        return true;
      }
    }
    duplicate := false;
  }

  method ParseContracts(buf: Buffer, tx: Transaction, i: nat) returns (err: Option<Status>)
    requires Valid(buf.data, Here(ContractCount(i), buf, tx))
    modifies buf, tx
    ensures buf.Valid() && |tx.signers| == MAX_TX_SIGNERS
    ensures Section(buf.data, old(Here(ContractCount(i), buf, tx)), err, Here(AfterContracts(i, tx.Value()), buf, tx))
    ensures err.None? ==> tx.signersSize == old(tx.signersSize)
                          && tx.signers[i].scope == old(tx.signers[i].scope)
  {
    hide Run;
    ghost var s0 := Here(ContractCount(i), buf, tx);
    err := ParseContractCount(buf, tx, i);
    if err.Some? { return; }
    var j, n := 0, tx.signers[i].contractsSize;
    while j < n
      invariant j <= n && buf.Valid() && Shape(tx.Value())
      invariant tx.signers[i].contractsSize == n && tx.signers[i].scope == old(tx.signers[i].scope)
      invariant tx.signersSize == old(tx.signersSize)
      invariant var p := if j < n then Contract(i, j) else AfterContracts(i, tx.Value());
                Valid(buf.data, Here(p, buf, tx)) && Run(buf.data, s0) == Run(buf.data, Here(p, buf, tx))
    {
      err := ParseContract(buf, tx, i, j);
      if err.Some? { return; }
      j := j + 1;
    }
    err := None;
  }

  method ParseContractCount(buf: Buffer, tx: Transaction, i: nat) returns (err: Option<Status>)
    requires Valid(buf.data, Here(ContractCount(i), buf, tx))
    modifies buf, tx`signers
    ensures buf.Valid() && Shape(tx.Value())
    ensures var p := if tx.signers[i].contractsSize > 0 then Contract(i, 0) else AfterContracts(i, tx.Value());
            Section(buf.data, old(Here(ContractCount(i), buf, tx)), err, Here(p, buf, tx))
    ensures tx.signers[i].scope == old(tx.signers[i].scope)
  {
    hide Run, Judge;
    ghost var s0 := Here(ContractCount(i), buf, tx);
    Unfold(buf.data, s0);
    var ok, n := ReadCount(buf, ContractCount(i));
    if !ok { return Some(SignerAllowedContractsLengthParsingError); }
    ContractCountVerdict(buf.data, s0, i, n);
    if n > MAX_SIGNER_ALLOWED_CONTRACTS { return Some(SignerAllowedContractsLengthValueError); }
    tx.signers := tx.signers[i := tx.signers[i].(contractsSize := n)];
    err := None;
  }

  method ParseContract(buf: Buffer, tx: Transaction, i: nat, j: nat) returns (err: Option<Status>)
    requires Valid(buf.data, Here(Contract(i, j), buf, tx))
    modifies buf, tx`signers
    ensures buf.Valid() && Shape(tx.Value())
    ensures var p := if j + 1 < tx.signers[i].contractsSize then Contract(i, j + 1) else AfterContracts(i, tx.Value());
            Section(buf.data, old(Here(Contract(i, j), buf, tx)), err, Here(p, buf, tx))
    ensures tx.signers[i].contractsSize == old(tx.signers[i].contractsSize)
            && tx.signers[i].scope == old(tx.signers[i].scope)
  {
    hide Run, Judge;
    ghost var s0 := Here(Contract(i, j), buf, tx);
    Unfold(buf.data, s0);
    tx.signers := tx.signers[i := tx.signers[i].(contracts := tx.signers[i].contracts[j := buf.offset])];
    var ok := buf.SeekCur(UINT160_LEN);
    if ok { ContractVerdict(buf.data, s0, i, j); }
    err := if ok then None else Some(SignerAllowedContractParsingError);
  }

  method ParseGroups(buf: Buffer, tx: Transaction, i: nat) returns (err: Option<Status>)
    requires Valid(buf.data, Here(GroupCount(i), buf, tx))
    modifies buf, tx
    ensures buf.Valid()
    ensures Section(buf.data, old(Here(GroupCount(i), buf, tx)), err, Here(AfterSigner(i, tx.Value()), buf, tx))
    ensures err.None? ==> tx.signersSize == old(tx.signersSize)
  {
    hide Run;
    ghost var s0 := Here(GroupCount(i), buf, tx);
    err := ParseGroupCount(buf, tx, i);
    if err.Some? { return; }
    var j, n := 0, tx.signers[i].groupsSize;
    while j < n
      invariant j <= n && buf.Valid() && Shape(tx.Value())
      invariant tx.signers[i].groupsSize == n && tx.signersSize == old(tx.signersSize)
      invariant var p := if j < n then Group(i, j) else AfterSigner(i, tx.Value());
                Valid(buf.data, Here(p, buf, tx)) && Run(buf.data, s0) == Run(buf.data, Here(p, buf, tx))
    {
      err := ParseGroup(buf, tx, i, j);
      if err.Some? { return; }
      j := j + 1;
    }
    err := None;
  }

  method ParseGroupCount(buf: Buffer, tx: Transaction, i: nat) returns (err: Option<Status>)
    requires Valid(buf.data, Here(GroupCount(i), buf, tx))
    modifies buf, tx`signers
    ensures buf.Valid() && Shape(tx.Value())
    ensures var p := if tx.signers[i].groupsSize > 0 then Group(i, 0) else AfterSigner(i, tx.Value());
            Section(buf.data, old(Here(GroupCount(i), buf, tx)), err, Here(p, buf, tx))
  {
    hide Run, Judge;
    ghost var s0 := Here(GroupCount(i), buf, tx);
    Unfold(buf.data, s0);
    var ok, n := ReadCount(buf, GroupCount(i));
    if !ok { return Some(SignerAllowedGroupsLengthParsingError); }
    GroupCountVerdict(buf.data, s0, i, n);
    if n > MAX_SIGNER_ALLOWED_GROUPS { return Some(SignerAllowedGroupsLengthValueError); }
    tx.signers := tx.signers[i := tx.signers[i].(groupsSize := n)];
    err := None;
  }

  /** A cut group key is reported with the status of the contracts. */
  method ParseGroup(buf: Buffer, tx: Transaction, i: nat, j: nat) returns (err: Option<Status>)
    requires Valid(buf.data, Here(Group(i, j), buf, tx))
    modifies buf, tx`signers
    ensures buf.Valid() && Shape(tx.Value())
    ensures var p := if j + 1 < tx.signers[i].groupsSize then Group(i, j + 1) else AfterSigner(i, tx.Value());
            Section(buf.data, old(Here(Group(i, j), buf, tx)), err, Here(p, buf, tx))
    ensures tx.signers[i].groupsSize == old(tx.signers[i].groupsSize)
  {
    hide Run, Judge;
    ghost var s0 := Here(Group(i, j), buf, tx);
    Unfold(buf.data, s0);
    tx.signers := tx.signers[i := tx.signers[i].(groups := tx.signers[i].groups[j := buf.offset])];
    var ok := buf.SeekCur(ECPOINT_LEN);
    if ok { GroupVerdict(buf.data, s0, i, j); }
    err := if ok then None else Some(SignerAllowedContractParsingError);
  }

  method ParseAttributes(buf: Buffer, tx: Transaction) returns (err: Option<Status>)
    requires Valid(buf.data, Here(AttributeCount, buf, tx))
    modifies buf, tx
    ensures buf.Valid()
    ensures Section(buf.data, old(Here(AttributeCount, buf, tx)), err, Here(ScriptLength, buf, tx))
  {
    hide Run;
    ghost var s0 := Here(AttributeCount, buf, tx);
    err := ParseAttributeCount(buf, tx);
    if err.Some? { return; }
    var i := 0;
    while i < tx.attributesSize
      invariant i <= tx.attributesSize <= MAX_ATTRIBUTES && buf.Valid() && Shape(tx.Value())
      invariant Run(buf.data, s0)
             == Run(buf.data, Here(if i < tx.attributesSize then Attribute(i) else ScriptLength, buf, tx))
    {
      err := ParseAttribute(buf, tx, i);
      if err.Some? { return; }
      i := i + 1;
    }
    err := None;
  }

  method ParseAttributeCount(buf: Buffer, tx: Transaction) returns (err: Option<Status>)
    requires Valid(buf.data, Here(AttributeCount, buf, tx))
    modifies buf, tx
    ensures buf.Valid()
    ensures Section(buf.data, old(Here(AttributeCount, buf, tx)), err,
                    Here(if tx.attributesSize > 0 then Attribute(0) else ScriptLength, buf, tx))
    ensures err.None? ==> tx.attributesSize <= MAX_ATTRIBUTES
  {
    hide Run, Judge;
    ghost var s0 := Here(AttributeCount, buf, tx);
    Unfold(buf.data, s0);
    var ok, n := ReadCount(buf, AttributeCount);
    if !ok { return Some(AttributesLengthParsingError); }
    AttributeCountVerdict(buf.data, s0, n);
    if n > MAX_ATTRIBUTES || n > 2 { return Some(AttributesLengthValueError); }
    tx.attributesSize := n;
    err := None;
  }

  method ParseAttribute(buf: Buffer, tx: Transaction, i: nat) returns (err: Option<Status>)
    requires Valid(buf.data, Here(Attribute(i), buf, tx))
    modifies buf, tx`attributes
    ensures buf.Valid() && Shape(tx.Value())
    ensures Section(buf.data, old(Here(Attribute(i), buf, tx)), err,
                    Here(if i + 1 < tx.attributesSize then Attribute(i + 1) else ScriptLength, buf, tx))
  {
    hide Run, Judge;
    ghost var s0 := Here(Attribute(i), buf, tx);
    Unfold(buf.data, s0);
    var ok, kind := buf.ReadU8();
    if ok { AttributeVerdict(buf.data, s0, i); }
    if !ok || kind != HIGH_PRIORITY { return Some(AttributesUnsupportedType); }
    var j := 0;
    while j < tx.attributesSize
      invariant j <= tx.attributesSize
      invariant kind !in tx.attributes[..j]
    {
      if tx.attributes[j] == kind {
        assert kind in tx.attributes[..tx.attributesSize];
        return Some(AttributesDuplicateType);
      }
      j := j + 1;
    }
    tx.attributes := tx.attributes[i := kind];
    err := None;
  }

  method ParseScript(buf: Buffer, tx: Transaction) returns (err: Option<Status>)
    requires Valid(buf.data, Here(ScriptLength, buf, tx))
    modifies buf, tx
    ensures buf.Valid()
    ensures Section(buf.data, old(Here(ScriptLength, buf, tx)), err, Here(Done, buf, tx))
  {
    var n;
    err, n := ParseScriptLength(buf, tx);
    if err.None? {
      err := ParseScriptBody(buf, tx, n);
    }
  }

  method ParseScriptLength(buf: Buffer, tx: Transaction) returns (err: Option<Status>, n: pos)
    requires Valid(buf.data, Here(ScriptLength, buf, tx))
    modifies buf, tx`script
    ensures buf.Valid()
    ensures Section(buf.data, old(Here(ScriptLength, buf, tx)), err, Here(Script(n), buf, tx))
  {
    hide Run, Judge;
    ghost var s0 := Here(ScriptLength, buf, tx);
    Unfold(buf.data, s0);
    var ok, length := ReadCount(buf, ScriptLength);
    if !ok { return Some(ScriptLengthParsingError), 1; }
    ScriptLengthVerdict(buf.data, s0, length);
    tx.script := buf.offset;
    if length > 0xFFFF || length == 0 { return Some(ScriptLengthValueError), 1; }
    err, n := None, length;
  }

  method ParseScriptBody(buf: Buffer, tx: Transaction, n: pos) returns (err: Option<Status>)
    requires Valid(buf.data, Here(Script(n), buf, tx))
    modifies buf, tx
    ensures buf.Valid()
    ensures Section(buf.data, old(Here(Script(n), buf, tx)), err, Here(Done, buf, tx))
  {
    hide Run, Judge, Recognise;
    ghost var s0 := Here(Script(n), buf, tx);
    Unfold(buf.data, s0);
    var start := buf.offset;
    var ok := buf.SeekCur(n);
    if !ok { return Some(ScriptLengthValueError); }
    ScriptVerdict(buf.data, s0, n);
    tx.scriptSize := n;
    var bytes := buf.data[..buf.offset][start..];
    ClassifyScript(bytes, tx);
    err := None;
  }

  method ClassifyScript(bytes: bytes, tx: Transaction)
    modifies tx
    ensures tx.Value() == Recognise(bytes, old(tx.Value()))
  {
    var script := new Buffer(bytes);
    TryParseTransferScript(script, tx);
    if !tx.isTransfer {
      script.offset := 0;
      TryParseVoteScript(script, tx);
    }
  }
}
