/**
 * The values the RSCoin client passes around: transactions, their inputs and
 * outputs, wallet locators and directory entries, together with the external
 * collaborators (the rscoin library, base64 and the signature scheme) that the
 * client calls but whose code is not part of this model.
 */
module Ledger {

  /** Python 2 byte strings: key ids, transaction ids, raw transactions, tokens. */
  type Bytes = string
  type KeyId = Bytes
  type TxId = Bytes
  type AuthId = Bytes

  /**
   * The key chain `load_keys` builds: each line's tokens, indexed by the
   * line's name and, for a held key, also by its raw key id.
   */
  type Keychain = map<Bytes, seq<Bytes>>

  /** A reference to output `index` of transaction `txId`. */
  datatype InputTx = InputTx(txId: TxId, index: nat)

  /** An output paying `value` to the key `keyId`. */
  datatype OutputTx = OutputTx(keyId: KeyId, value: int)

  /** A transaction as `rscoin.Tx` holds it: ordered inputs and outputs. */
  datatype Tx = Tx(inputs: seq<InputTx>, outputs: seq<OutputTx>)

  /** The key of a wallet entry: `(tx_id, index, key_id, value)`. */
  datatype Locator = Locator(txId: TxId, index: nat, keyId: KeyId, value: int)

  /** One line of the directory: an authority (mintette) and its address. */
  datatype Authority = Authority(kid: AuthId, host: Bytes, port: Bytes)

  /**
   * The collaborators the client calls into: base64 decoding, `Tx.parse`,
   * `Tx.serialize`, `Tx.id`, `Tx.get_utxo_in_keys`, `get_authorities`, and,
   * for a public key, `Key.id` and `Key.verify(message, signature)`.
   */
  datatype Library = Library(
    b64decode: Bytes -> Bytes,
    parseTx: Bytes -> Tx,
    serializeTx: Tx -> Bytes,
    txId: Tx -> TxId,
    utxoInKeys: Tx -> seq<Bytes>,
    authoritiesFor: (seq<Authority>, Bytes) -> seq<AuthId>,
    keyIdOf: Bytes -> AuthId,
    verify: (Bytes, Bytes, Bytes) -> bool)

  /** Sum of the values named by a sequence of locators. */
  function SumValues(locs: seq<Locator>): int
  {
    if locs == [] then 0 else SumValues(locs[..|locs| - 1]) + locs[|locs| - 1].value
  }

  /** Sum of the values of a list of outputs. */
  function SumOutputs(outs: seq<OutputTx>): int
  {
    if outs == [] then 0 else outs[0].value + SumOutputs(outs[1..])
  }

  /**
   * `order` lists every key of a dictionary exactly once: the order in which
   * Python happens to iterate over it, which the language leaves unspecified.
   */
  ghost predicate IsEnumeration(order: seq<Locator>, keys: set<Locator>)
  {
    && (forall i, j :: 0 <= i < j < |order| ==> order[i] != order[j])
    && (forall l :: l in keys <==> l in order)
  }
}
