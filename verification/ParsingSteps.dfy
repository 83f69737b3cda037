/** The verdict on each field, spelled out. */
module ParsingSteps {
  import opened Bytes
  import opened Transactions
  import opened Scripts
  import opened Parsing

  /** The bytes of the field at `s`. */
  function Content(d: bytes, s: State): bytes
    requires Valid(d, s) && !IsCut(d, s)
  {
    d[s.off..s.off + FieldLen(d, s.off, s.phase)]
  }

  lemma ContentIs(d: bytes, s: State)
    requires Valid(d, s) && !IsCut(d, s)
    ensures var end := s.off + FieldLen(d, s.off, s.phase);
            Complete(s.phase, d[..end], s.off) && d[..end][s.off..] == Content(d, s)
            && Content(d, s) == At(d, s.off, FieldLen(d, s.off, s.phase))
               && d[..end][s.off] == d[s.off] == Content(d, s)[0]
  {
    var end := s.off + FieldLen(d, s.off, s.phase);
    assert d[..end][s.off..] == d[s.off..end];
  }

  lemma VersionVerdict(d: bytes, s: State)
    requires Valid(d, s) && s.phase == Version && !IsCut(d, s)
    ensures var t := s.tx.(version := d[s.off]);
            Judge(d, s) == if d[s.off] > 0 then Refuse(VersionValueError, t) else Next(Nonce, t)
  {
    ContentIs(d, s);
  }

  lemma NonceVerdict(d: bytes, s: State)
    requires Valid(d, s) && s.phase == Nonce && !IsCut(d, s)
    ensures Judge(d, s) == Next(SystemFee, s.tx.(nonce := FromLE(Content(d, s))))
  {
    ContentIs(d, s);
  }

  lemma SystemFeeVerdict(d: bytes, s: State)
    requires Valid(d, s) && s.phase == SystemFee && !IsCut(d, s)
    ensures var t := s.tx.(systemFee := Signed(FromLE(Content(d, s)), 8));
            Judge(d, s) == if t.systemFee < 0 then Refuse(SystemFeeValueError, t) else Next(NetworkFee, t)
  {
    ContentIs(d, s);
  }

  lemma NetworkFeeVerdict(d: bytes, s: State)
    requires Valid(d, s) && s.phase == NetworkFee && !IsCut(d, s)
    ensures var t := s.tx.(networkFee := Signed(FromLE(Content(d, s)), 8));
            Judge(d, s) == if t.networkFee < 0 then Refuse(NetworkFeeValueError, t) else Next(ValidUntil, t)
  {
    ContentIs(d, s);
  }

  lemma ValidUntilVerdict(d: bytes, s: State)
    requires Valid(d, s) && s.phase == ValidUntil && !IsCut(d, s)
    ensures Judge(d, s) == Next(SignerCount, s.tx.(validUntil := FromLE(Content(d, s))))
  {
    ContentIs(d, s);
  }

  /** The bytes of a count form a varint. */
  lemma CountIs(d: bytes, s: State)
    requires Valid(d, s) && IsCount(s.phase) && !IsCut(d, s)
    ensures IsVarint(Content(d, s))
    ensures var end := s.off + FieldLen(d, s.off, s.phase);
            Complete(s.phase, d[..end], s.off) && Number(s.phase, d[..end], s.off) == VarintValue(Content(d, s))
  {
    ContentIs(d, s);
  }

  lemma SignerCountVerdict(d: bytes, s: State, n: nat)
    requires Valid(d, s) && s.phase == SignerCount && !IsCut(d, s)
    requires IsVarint(Content(d, s)) ==> n == VarintValue(Content(d, s))
    ensures Judge(d, s) == if n < MIN_TX_SIGNERS || n > MAX_TX_SIGNERS then Refuse(SignerLengthValueError, s.tx)
                           else Next(Account(0), s.tx.(signersSize := n))
  {
    hide Number;
    CountIs(d, s);
  }

  lemma AccountVerdict(d: bytes, s: State, i: nat)
    requires Valid(d, s) && s.phase == Account(i) && !IsCut(d, s)
    ensures var t := PutSigner(s.tx, i, s.tx.signers[i].(account := s.off));
            Judge(d, s) == if Duplicate(i, d[..s.off + UINT160_LEN], s.off, s.tx) then Refuse(SignerAccountDuplicateError, t)
                           else Next(Scope(i), t)
  {
    hide Duplicate;
  }

  lemma ScopeVerdict(d: bytes, s: State, i: nat)
    requires Valid(d, s) && s.phase == Scope(i) && !IsCut(d, s)
    ensures var t := PutSigner(s.tx, i, s.tx.signers[i].(scope := d[s.off]));
            Judge(d, s) == if HasFlag(d[s.off], GLOBAL) && d[s.off] != GLOBAL then Refuse(SignerScopeValueErrorGlobalFlag, t)
                           else Next(AfterScope(i, t), t)
  {
    hide HasFlag, AfterScope;
    ContentIs(d, s);
  }

  lemma ContractCountVerdict(d: bytes, s: State, i: nat, n: nat)
    requires Valid(d, s) && s.phase == ContractCount(i) && !IsCut(d, s)
    requires IsVarint(Content(d, s)) ==> n == VarintValue(Content(d, s))
    ensures var t := PutSigner(s.tx, i, s.tx.signers[i].(contractsSize := n));
            Judge(d, s) == if n > MAX_SIGNER_ALLOWED_CONTRACTS then Refuse(SignerAllowedContractsLengthValueError, s.tx)
                           else Next(if n > 0 then Contract(i, 0) else AfterContracts(i, t), t)
  {
    hide Number, AfterContracts;
    CountIs(d, s);
  }

  lemma ContractVerdict(d: bytes, s: State, i: nat, j: nat)
    requires Valid(d, s) && s.phase == Contract(i, j) && !IsCut(d, s)
    ensures var t := PutSigner(s.tx, i, s.tx.signers[i].(contracts := s.tx.signers[i].contracts[j := s.off]));
            Judge(d, s) == Next(if j + 1 < s.tx.signers[i].contractsSize then Contract(i, j + 1) else AfterContracts(i, t), t)
  {
    hide AfterContracts;
  }

  lemma GroupCountVerdict(d: bytes, s: State, i: nat, n: nat)
    requires Valid(d, s) && s.phase == GroupCount(i) && !IsCut(d, s)
    requires IsVarint(Content(d, s)) ==> n == VarintValue(Content(d, s))
    ensures var t := PutSigner(s.tx, i, s.tx.signers[i].(groupsSize := n));
            Judge(d, s) == if n > MAX_SIGNER_ALLOWED_GROUPS then Refuse(SignerAllowedGroupsLengthValueError, s.tx)
                           else Next(if n > 0 then Group(i, 0) else AfterSigner(i, t), t)
  {
    hide Number, AfterSigner;
    CountIs(d, s);
  }

  lemma GroupVerdict(d: bytes, s: State, i: nat, j: nat)
    requires Valid(d, s) && s.phase == Group(i, j) && !IsCut(d, s)
    ensures var t := PutSigner(s.tx, i, s.tx.signers[i].(groups := s.tx.signers[i].groups[j := s.off]));
            Judge(d, s) == Next(if j + 1 < s.tx.signers[i].groupsSize then Group(i, j + 1) else AfterSigner(i, t), t)
  {
    hide AfterSigner;
  }

  lemma AttributeCountVerdict(d: bytes, s: State, n: nat)
    requires Valid(d, s) && s.phase == AttributeCount && !IsCut(d, s)
    requires IsVarint(Content(d, s)) ==> n == VarintValue(Content(d, s))
    ensures Judge(d, s) == if n > MAX_ATTRIBUTES || n > 2 then Refuse(AttributesLengthValueError, s.tx)
                           else Next(if n > 0 then Attribute(0) else ScriptLength, s.tx.(attributesSize := n))
  {
    hide Number;
    CountIs(d, s);
  }

  lemma AttributeVerdict(d: bytes, s: State, i: nat)
    requires Valid(d, s) && s.phase == Attribute(i) && !IsCut(d, s)
    ensures var b, t := d[s.off], s.tx.(attributes := s.tx.attributes[i := d[s.off]]);
            Judge(d, s) == if b != HIGH_PRIORITY then Refuse(AttributesUnsupportedType, s.tx)
                           else if b in s.tx.attributes[..s.tx.attributesSize] then Refuse(AttributesDuplicateType, s.tx)
                           else Next(if i + 1 < s.tx.attributesSize then Attribute(i + 1) else ScriptLength, t)
  {
    ContentIs(d, s);
  }

  lemma ScriptLengthVerdict(d: bytes, s: State, n: nat)
    requires Valid(d, s) && s.phase == ScriptLength && !IsCut(d, s)
    requires IsVarint(Content(d, s)) ==> n == VarintValue(Content(d, s))
    ensures var t := s.tx.(script := s.off + FieldLen(d, s.off, s.phase));
            Judge(d, s) == if n > 0xFFFF || n == 0 then Refuse(ScriptLengthValueError, t) else Next(Script(n), t)
  {
    hide Number;
    CountIs(d, s);
  }

  lemma ScriptVerdict(d: bytes, s: State, n: pos)
    requires Valid(d, s) && s.phase == Script(n) && !IsCut(d, s)
    ensures Judge(d, s) == Next(Done, Recognise(Content(d, s), s.tx.(scriptSize := n)))
  {
    hide Recognise;
    ContentIs(d, s);
  }

  // ---- the status of a cut ----

  /** The fields that a status is for, when the bytes end inside one. */
  predicate ReportsCut(status: Status, p: Phase) {
    match status
    case VersionParsingError => p.Version?
    case NonceParsingError => p.Nonce?
    case SystemFeeParsingError => p.SystemFee?
    case NetworkFeeParsingError => p.NetworkFee?
    case ValidUntilBlockParsingError => p.ValidUntil?
    case SignerLengthParsingError => p.SignerCount?
    case SignerAccountParsingError => p.Account?
    case SignerScopeParsingError => p.Scope?
    case SignerAllowedContractsLengthParsingError => p.ContractCount?
    case SignerAllowedContractParsingError => p.Contract? || p.Group?
    case SignerAllowedGroupsLengthParsingError => p.GroupCount?
    case AttributesLengthParsingError => p.AttributeCount?
    case AttributesUnsupportedType => p.Attribute?
    case ScriptLengthParsingError => p.ScriptLength?
    case ScriptLengthValueError => p.Script?
    case _ => false
  }

  /** Every field has one such status. */
  lemma CutReported(p: Phase, status: Status)
    requires !p.Done?
    ensures ReportsCut(status, p) <==> status == CutStatus(p)
  {
  }

  /** What a cut field leaves: a number becomes zero, a pointer is stored, a count or a flag
      stays. */
  lemma CutLeaves(p: Phase, off: nat, tx: Tx)
    requires ValidAt(p, tx)
    ensures OnCut(p, off, tx) ==
            match p
            case Version => tx.(version := 0)
            case Nonce => tx.(nonce := 0)
            case SystemFee => tx.(systemFee := 0)
            case NetworkFee => tx.(networkFee := 0)
            case ValidUntil => tx.(validUntil := 0)
            case Account(i) => PutSigner(tx, i, tx.signers[i].(account := off))
            case Contract(i, j) =>
              PutSigner(tx, i, tx.signers[i].(contracts := tx.signers[i].contracts[j := off]))
            case Group(i, j) => PutSigner(tx, i, tx.signers[i].(groups := tx.signers[i].groups[j := off]))
            case _ => tx
  {
  }
}
