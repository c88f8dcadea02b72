/**
 The values of the `bitcoin` library that the canister stores, and the foreign functions
 it calls. A foreign function is a constant of function type that is given no value:
 nothing is known about it beyond its type.
 */
module Bitcoin {
  import opened Wrappers

  type Byte = b: nat | b < 256

  /** The 32 bytes of a SHA-256 digest. */
  type Digest = bs: seq<Byte> | |bs| == 32 witness ZERO_DIGEST

  const ZERO_DIGEST: seq<Byte> := [
    0, 0, 0, 0, 0, 0, 0, 0, 0, 0, 0, 0, 0, 0, 0, 0,
    0, 0, 0, 0, 0, 0, 0, 0, 0, 0, 0, 0, 0, 0, 0, 0]

  type Txid = Digest
  type Script = seq<Byte>
  type Address = string

  datatype Network = Mainnet | Testnet | Signet | Regtest

  datatype OutPoint = OutPoint(txid: Txid, vout: nat) {
    predicate IsNull() {
      txid == ZERO_DIGEST && vout == 0xffff_ffff
    }
  }

  datatype TxOut = TxOut(value: nat, scriptPubkey: Script)

  datatype TxIn = TxIn(previousOutput: OutPoint, scriptSig: Script, sequence: nat, witnesses: seq<seq<Byte>>)

  datatype Transaction = Transaction(version: int, lockTime: nat, input: seq<TxIn>, output: seq<TxOut>) {
    function Txid(): Txid {
      TRANSACTION_ID(this)
    }

    predicate IsCoinBase() {
      |input| == 1 && input[0].previousOutput.IsNull()
    }
  }

  /** `Transaction::txid`. */
  const TRANSACTION_ID: Transaction -> Txid

  /** `Address::from_script` followed by `to_string`. */
  const ADDRESS_FROM_SCRIPT: (Script, Network) -> Option<Address>

  /**
   The hash of a block, as a term: either the hash of a header, or a digest that is the
   hash of no header (such as the parent named by a genesis block). Hashes are thus free of
   collisions, and no header can contain its own hash, however indirectly.
   */
  datatype BlockHash = HashOf(header: BlockHeader) | RawHash(digest: Digest) {
    /** The number of headers between this hash and a raw digest. */
    ghost function Generation(): nat
    {
      match this
      case HashOf(h) => 1 + h.prevBlockhash.Generation()
      case RawHash(_) => 0
    }
  }

  datatype BlockHeader = BlockHeader(
    version: int, prevBlockhash: BlockHash, merkleRoot: Digest, time: nat, bits: nat, nonce: nat)

  datatype Block = Block(header: BlockHeader, txdata: seq<Transaction>) {
    function Hash(): BlockHash {
      HashOf(header)
    }

    function Prev(): BlockHash {
      header.prevBlockhash
    }
  }

  /** The two transaction ids that occur twice in the chain, as digests (their hexadecimal form is byte-reversed). */
  const DUPLICATE_TX_IDS: set<Txid> := {DUPLICATE_TX_ID_1, DUPLICATE_TX_ID_2}

  const DUPLICATE_TX_ID_1: Txid := [
    0x99, 0x85, 0xd8, 0x29, 0x54, 0xe1, 0x0f, 0x22, 0x33, 0xa0, 0x89, 0x05, 0xdc, 0x7b, 0x49, 0x0e,
    0xb4, 0x44, 0x66, 0x0c, 0x87, 0x59, 0xe3, 0x24, 0xc7, 0xdf, 0xa3, 0xd2, 0x87, 0x79, 0xd2, 0xd5]

  const DUPLICATE_TX_ID_2: Txid := [
    0x68, 0xb4, 0x5f, 0x58, 0xb6, 0x74, 0xe9, 0x4e, 0xb8, 0x81, 0xcd, 0x67, 0xb0, 0x4c, 0x2c, 0xba,
    0x07, 0xfe, 0x55, 0x52, 0xdb, 0xf1, 0xd5, 0x38, 0x56, 0x37, 0xb0, 0xd4, 0x07, 0x3d, 0xbf, 0xe3]
}
