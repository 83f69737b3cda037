/** The wire format as a grammar: what a transaction's bytes are, field by field. */
module Wire {
  import opened Bytes
  import opened Transactions
  import opened Parsing

  /** A signer as it is written. Counts keep their bytes, since a varint has several forms;
      the parts of an absent list are empty. */
  datatype WireSigner = WireSigner(
    account: bytes, scope: u8,
    contractCount: bytes, contracts: seq<bytes>,
    groupCount: bytes, groups: seq<bytes>)

  datatype Wire = Wire(
    nonce: nat, systemFee: nat, networkFee: nat, validUntil: nat,
    signerCount: bytes, signers: seq<WireSigner>,
    attributeCount: bytes, attributes: bytes,
    scriptLength: bytes, script: bytes)

  /** A field of the encoding, named by the phase that reads it. */
  datatype Item = Item(phase: Phase, content: bytes)

  // ---- what is well formed ----

  predicate Counts(count: bytes, n: nat) {
    IsVarint(count) && VarintValue(count) == n
  }

  predicate AllOfLength(cs: seq<bytes>, n: nat) {
    forall k :: 0 <= k < |cs| ==> |cs[k]| == n
  }

  predicate ValidList(present: bool, count: bytes, cs: seq<bytes>, max: nat, len: nat) {
    if present then Counts(count, |cs|) && |cs| <= max && AllOfLength(cs, len) else count == [] && cs == []
  }

  predicate ValidSigner(w: WireSigner) {
    && |w.account| == UINT160_LEN
    && (HasFlag(w.scope, GLOBAL) ==> w.scope == GLOBAL)
    && ValidList(HasFlag(w.scope, CUSTOM_CONTRACTS), w.contractCount, w.contracts,
                 MAX_SIGNER_ALLOWED_CONTRACTS, UINT160_LEN)
    && ValidList(HasFlag(w.scope, CUSTOM_GROUPS), w.groupCount, w.groups, MAX_SIGNER_ALLOWED_GROUPS, ECPOINT_LEN)
  }

  ghost predicate DistinctAccounts(ws: seq<WireSigner>) {
    forall a, b :: 0 <= a < b < |ws| ==> ws[a].account != ws[b].account
  }

  /** At most one attribute, and it is HIGH_PRIORITY. */
  predicate ValidAttributes(a: bytes) {
    a == [] || a == [HIGH_PRIORITY]
  }

  ghost predicate ValidWire(w: Wire) {
    && w.nonce < 0x1_0000_0000 && w.validUntil < 0x1_0000_0000
    && w.systemFee < 0x8000_0000_0000_0000 && w.networkFee < 0x8000_0000_0000_0000
    && Counts(w.signerCount, |w.signers|) && MIN_TX_SIGNERS <= |w.signers| <= MAX_TX_SIGNERS
    && (forall k :: 0 <= k < |w.signers| ==> ValidSigner(w.signers[k]))
    && DistinctAccounts(w.signers)
    && Counts(w.attributeCount, |w.attributes|) && ValidAttributes(w.attributes)
    && Counts(w.scriptLength, |w.script|) && 0 < |w.script| <= 0xFFFF
  }

  // ---- the bytes ----

  function ContractItems(cs: seq<bytes>, i: nat, j: nat): seq<Item> {
    if cs == [] then [] else [Item(Contract(i, j), cs[0])] + ContractItems(cs[1..], i, j + 1)
  }

  function GroupItems(cs: seq<bytes>, i: nat, j: nat): seq<Item> {
    if cs == [] then [] else [Item(Group(i, j), cs[0])] + GroupItems(cs[1..], i, j + 1)
  }

  function ContractList(w: WireSigner, i: nat): seq<Item> {
    if HasFlag(w.scope, CUSTOM_CONTRACTS) then [Item(ContractCount(i), w.contractCount)] + ContractItems(w.contracts, i, 0)
    else []
  }

  function GroupList(w: WireSigner, i: nat): seq<Item> {
    if HasFlag(w.scope, CUSTOM_GROUPS) then [Item(GroupCount(i), w.groupCount)] + GroupItems(w.groups, i, 0)
    else []
  }

  function SignerItems(w: WireSigner, i: nat): seq<Item> {
    [Item(Account(i), w.account)] + ([Item(Scope(i), [w.scope])] + (ContractList(w, i) + GroupList(w, i)))
  }

  function SignersItems(ws: seq<WireSigner>, i: nat): seq<Item> {
    if ws == [] then [] else SignerItems(ws[0], i) + SignersItems(ws[1..], i + 1)
  }

  function HeaderItems(w: Wire): seq<Item>
    requires ValidWire(w)
  {
    Widths();
    [Item(Version, [0]), Item(Nonce, ToLE(w.nonce, 4)), Item(SystemFee, ToLE(w.systemFee, 8)),
     Item(NetworkFee, ToLE(w.networkFee, 8)), Item(ValidUntil, ToLE(w.validUntil, 4)),
     Item(SignerCount, w.signerCount)]
  }

  function AttributeItems(w: Wire): seq<Item> {
    [Item(AttributeCount, w.attributeCount)] + (if w.attributes == [] then [] else [Item(Attribute(0), w.attributes)])
  }

  function ScriptItems(w: Wire): seq<Item>
    requires w.script != []
  {
    [Item(ScriptLength, w.scriptLength), Item(Script(|w.script|), w.script)]
  }

  function Items(w: Wire): seq<Item>
    requires ValidWire(w)
  {
    HeaderItems(w) + (SignersItems(w.signers, 0) + (AttributeItems(w) + ScriptItems(w)))
  }

  function Flatten(fs: seq<Item>): bytes {
    if fs == [] then [] else fs[0].content + Flatten(fs[1..])
  }

  function Print(w: Wire): bytes
    requires ValidWire(w)
  {
    Flatten(Items(w))
  }

  lemma {:induction false} FlattenAppend(fs: seq<Item>, gs: seq<Item>)
    ensures Flatten(fs + gs) == Flatten(fs) + Flatten(gs)
  {
    if fs == [] {
      assert fs + gs == gs;
    } else {
      assert (fs + gs)[1..] == fs[1..] + gs;
      FlattenAppend(fs[1..], gs);
    }
  }

  /** The field that holds byte `k` of the encoding. */
  function ItemAt(fs: seq<Item>, k: nat): Item
    requires k < |Flatten(fs)|
  {
    if k < |fs[0].content| then fs[0] else ItemAt(fs[1..], k - |fs[0].content|)
  }

  // ---- what the parsed struct says about the bytes ----

  /** The pointers from index `j` on lead to the strings `cs`. */
  ghost predicate PointTo(d: bytes, pointers: seq<nat>, j: nat, cs: seq<bytes>, n: nat) {
    j + |cs| <= |pointers|
    && forall k :: j <= k < j + |cs| ==> pointers[k] + n <= |d| && At(d, pointers[k], n) == cs[k - j]
  }

  ghost predicate HoldsSigner(d: bytes, s: Signer, w: WireSigner)
    requires SignerShape(s)
  {
    && s.account + UINT160_LEN <= |d| && At(d, s.account, UINT160_LEN) == w.account
    && s.scope == w.scope
    && s.contractsSize == |w.contracts| && PointTo(d, s.contracts, 0, w.contracts, UINT160_LEN)
    && s.groupsSize == |w.groups| && PointTo(d, s.groups, 0, w.groups, ECPOINT_LEN)
  }

  /** `tx`, its offsets taken in `d`, is the transaction `w`: every number, every pointed-to
      byte string, every count, and every offset inside `d`. */
  ghost predicate Holds(d: bytes, tx: Tx, w: Wire)
    requires Shape(tx)
  {
    && tx.version == 0 && tx.nonce == w.nonce && tx.systemFee == w.systemFee && tx.networkFee == w.networkFee
    && tx.validUntil == w.validUntil
    && tx.signersSize == |w.signers| <= MAX_TX_SIGNERS
    && (forall k {:trigger w.signers[k]} :: 0 <= k < |w.signers| ==> HoldsSigner(d, tx.signers[k], w.signers[k]))
    && tx.attributesSize == |w.attributes| <= MAX_ATTRIBUTES && tx.attributes[..|w.attributes|] == w.attributes
    && tx.scriptSize == |w.script| && tx.script + |w.script| <= |d| && At(d, tx.script, |w.script|) == w.script
  }
}
