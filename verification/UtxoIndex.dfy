/**
 Unspent outputs with an index from addresses to outpoints, as a value, and the operations of
 `UtxoSet` on it. `None` is the model of a panic.
 */
module UtxoIndex {
  import opened Wrappers
  import opened Bitcoin
  import opened Ledger

  type Index = map<Address, seq<OutPoint>>

  datatype Indexed = Indexed(entries: Entries, index: Index)

  const EMPTY: Indexed := Indexed(map[], map[])

  /** The outpoints without the first occurrence of `op`. */
  function RemoveFirst(ops: seq<OutPoint>, op: OutPoint): seq<OutPoint>
  {
    if ops == [] then [] else if ops[0] == op then ops[1..] else [ops[0]] + RemoveFirst(ops[1..], op)
  }

  /** The index without the first listing of `op` under `a`; an empty list goes away. */
  function Unlist(index: Index, a: Address, op: OutPoint): Index
    requires a in index
  {
    var rest := RemoveFirst(index[a], op);
    if rest == [] then index - {a} else index[a := rest]
  }

  function SpendOne(u: Indexed, op: OutPoint, strict: bool, network: Network): Option<Indexed>
  {
    if op !in u.entries then
      if strict then None else Some(u)
    else
      var entries := u.entries - {op};
      match Owner(u.entries[op].output, network)
      case None => Some(Indexed(entries, u.index))
      case Some(a) =>
        if a !in u.index || (op !in u.index[a] && strict) then
          None
        else
          Some(Indexed(entries, Unlist(u.index, a, op)))
  }

  function SpendInputs(u: Indexed, inputs: seq<TxIn>, strict: bool, network: Network): Option<Indexed>
    decreases |inputs|
  {
    if inputs == [] then
      Some(u)
    else
      var u' :- SpendOne(u, inputs[0].previousOutput, strict, network);
      SpendInputs(u', inputs[1..], strict, network)
  }

  function RemoveSpent(u: Indexed, tx: Transaction, strict: bool, network: Network): Option<Indexed>
  {
    if tx.IsCoinBase() then Some(u) else SpendInputs(u, tx.input, strict, network)
  }

  function InsertOutpoint(u: Indexed, op: OutPoint, output: TxOut, height: nat, network: Network): Option<Indexed>
  {
    if op in u.entries && op.txid !in DUPLICATE_TX_IDS then
      None
    else
      var entries := u.entries[op := Utxo(output, height)];
      match Owner(output, network)
      case None => Some(Indexed(entries, u.index))
      case Some(a) => Some(Indexed(entries, u.index[a := (if a in u.index then u.index[a] else []) + [op]]))
  }

  function InsertFrom(
    u: Indexed, txid: Txid, outputs: seq<TxOut>, vout: nat, height: nat, network: Network): Option<Indexed>
    requires vout <= |outputs|
    decreases |outputs| - vout
  {
    if vout == |outputs| then
      Some(u)
    else
      var u' :- InsertOutpoint(u, OutPoint(txid, vout), outputs[vout], height, network);
      InsertFrom(u', txid, outputs, vout + 1, height, network)
  }

  function InsertTx(u: Indexed, tx: Transaction, height: nat, strict: bool, network: Network): Option<Indexed>
  {
    var u' :- RemoveSpent(u, tx, strict, network);
    InsertFrom(u', tx.Txid(), tx.output, 0, height, network)
  }

  function InsertAll(u: Indexed, txs: seq<Transaction>, height: nat, strict: bool, network: Network): Option<Indexed>
    decreases |txs|
  {
    if txs == [] then
      Some(u)
    else
      var u' :- InsertTx(u, txs[0], height, strict, network);
      InsertAll(u', txs[1..], height, strict, network)
  }

  /** Copying the listed outpoints of `u` into `part`. */
  function Collect(u: Indexed, ops: seq<OutPoint>, part: Indexed, network: Network): Option<Indexed>
    decreases |ops|
  {
    if ops == [] then
      Some(part)
    else if ops[0] !in u.entries then
      None
    else
      var utxo := u.entries[ops[0]];
      var part' :- InsertOutpoint(part, ops[0], utxo.output, utxo.height, network);
      Collect(u, ops[1..], part', network)
  }

  /** The part of `u` that belongs to an address. */
  function GetUtxos(u: Indexed, a: Address, network: Network): Option<Indexed>
  {
    Collect(u, if a in u.index then u.index[a] else [], EMPTY, network)
  }

  function IntoSet(m: Entries): set<(OutPoint, TxOut, nat)>
  {
    set op | op in m :: (op, m[op].output, m[op].height)
  }
}
