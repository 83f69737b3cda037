/** The parsed transaction. Pointers into the raw bytes are offsets from their start. */
module Transactions {
  import opened Bytes

  const MAX_TRANSACTION_LEN: nat := 1024
  const MIN_TX_SIGNERS: nat := 1
  const MAX_TX_SIGNERS: nat := 2
  const MAX_SIGNER_ALLOWED_CONTRACTS: nat := 16
  const MAX_SIGNER_ALLOWED_GROUPS: nat := 2
  const MAX_ATTRIBUTES: nat := 2
  const UINT160_LEN: nat := 20
  const ECPOINT_LEN: nat := 33

  const CUSTOM_CONTRACTS: nat := 0x10
  const CUSTOM_GROUPS: nat := 0x20
  const GLOBAL: nat := 0x80
  const HIGH_PRIORITY: u8 := 1

  datatype Signer = Signer(
    account: nat, scope: u8,
    contracts: seq<nat>, contractsSize: nat,
    groups: seq<nat>, groupsSize: nat)

  /** The struct's value. `dst` is the script hash whose base58check address is shown. */
  datatype Tx = Tx(
    version: u8, nonce: nat, systemFee: int, networkFee: int, validUntil: nat,
    signers: seq<Signer>, signersSize: nat,
    attributes: seq<u8>, attributesSize: nat,
    script: nat, scriptSize: nat,
    isTransfer: bool, isNeo: bool, amount: int, dst: bytes,
    isVote: bool, isRemoveVote: bool, voteTo: bytes)

  /** The arrays have their declared lengths. */
  ghost predicate Shape(tx: Tx) {
    && |tx.signers| == MAX_TX_SIGNERS
    && |tx.attributes| == MAX_ATTRIBUTES
    && forall i :: 0 <= i < |tx.signers| ==> SignerShape(tx.signers[i])
  }

  ghost predicate SignerShape(s: Signer) {
    |s.contracts| == MAX_SIGNER_ALLOWED_CONTRACTS && |s.groups| == MAX_SIGNER_ALLOWED_GROUPS
  }

  function ZeroSigner(): Signer {
    Signer(0, 0, seq(MAX_SIGNER_ALLOWED_CONTRACTS, _ => 0), 0, seq(MAX_SIGNER_ALLOWED_GROUPS, _ => 0), 0)
  }

  /** All bytes zero, as `explicit_bzero` leaves the context. */
  function ZeroTx(): (tx: Tx)
    ensures Shape(tx)
  {
    Tx(0, 0, 0, 0, 0, seq(MAX_TX_SIGNERS, _ => ZeroSigner()), 0, seq(MAX_ATTRIBUTES, _ => 0), 0, 0, 0,
       false, false, 0, [], false, false, [])
  }

  class Transaction {
    var version: u8
    var nonce: nat
    var systemFee: int
    var networkFee: int
    var validUntil: nat
    var signers: seq<Signer>
    var signersSize: nat
    var attributes: seq<u8>
    var attributesSize: nat
    var script: nat
    var scriptSize: nat
    var isTransfer: bool
    var isNeo: bool
    var amount: int
    var dst: bytes
    var isVote: bool
    var isRemoveVote: bool
    var voteTo: bytes

    ghost function Value(): Tx
      reads this
    {
      Tx(version, nonce, systemFee, networkFee, validUntil, signers, signersSize, attributes, attributesSize,
         script, scriptSize, isTransfer, isNeo, amount, dst, isVote, isRemoveVote, voteTo)
    }

    constructor ()
      ensures Value() == ZeroTx()
    {
      var z := ZeroTx();
      version, nonce, systemFee, networkFee, validUntil := 0, 0, 0, 0, 0;
      signers, signersSize, attributes, attributesSize := z.signers, 0, z.attributes, 0;
      script, scriptSize := 0, 0;
      isTransfer, isNeo, amount, dst := false, false, 0, [];
      isVote, isRemoveVote, voteTo := false, false, [];
    }
  }
}
