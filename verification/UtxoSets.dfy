/**
 `UtxoSet`: the class that holds unspent outputs and their index. A method whose source panics
 returns `false` (or `None`) instead; a panic undoes the whole call, so nothing is said of the
 object then.
 */
module UtxoSets {
  import opened Wrappers
  import opened Bitcoin
  import opened Ledger
  import opened UtxoIndex

  class UtxoSet {
    var utxos: Entries
    const network: Network
    var addressToOutpoints: Index
    const strict: bool

    constructor (strict: bool, network: Network)
      ensures this.strict == strict && this.network == network && View() == EMPTY
    {
      utxos := map[];
      addressToOutpoints := map[];
      this.strict := strict;
      this.network := network;
    }

    function View(): Indexed
      reads this
    {
      Indexed(utxos, addressToOutpoints)
    }

    /** The partial set of an address; `None` models the panic "outpoint must exist". */
    method GetUtxos(address: Address) returns (r: Option<UtxoSet>)
      ensures match UtxoIndex.GetUtxos(View(), address, network)
        case None => r.None?
        case Some(part) => r.Some? && fresh(r.value) && r.value.View() == part
                           && !r.value.strict && r.value.network == network
    {
      var result := new UtxoSet(false, network);
      var outpoints := if address in addressToOutpoints then addressToOutpoints[address] else [];
      for i := 0 to |outpoints|
        invariant result.strict == false && result.network == network
        invariant Collect(View(), outpoints[i..], result.View(), network) == UtxoIndex.GetUtxos(View(), address, network)
      {
        assert outpoints[i..][1..] == outpoints[i + 1..];
        if outpoints[i] !in utxos {
          return None;
        }
        var utxo := utxos[outpoints[i]];
        var ok := result.InsertOutpoint(outpoints[i], utxo.output, utxo.height);
        if !ok {
          return None;
        }
      }
      return Some(result);
    }

    method InsertTx(tx: Transaction, height: nat) returns (ok: bool)
      modifies this
      ensures match UtxoIndex.InsertTx(old(View()), tx, height, strict, network)
        case None => !ok
        case Some(u) => ok && View() == u
    {
      ok := RemoveSpentTxs(tx);
      if ok {
        ok := InsertUnspentTxs(tx, height);
      }
    }

    method RemoveSpentTxs(tx: Transaction) returns (ok: bool)
      modifies this
      ensures match UtxoIndex.RemoveSpent(old(View()), tx, strict, network)
        case None => !ok
        case Some(u) => ok && View() == u
    {
      if tx.IsCoinBase() {
        return true;
      }
      for i := 0 to |tx.input|
        invariant SpendInputs(View(), tx.input[i..], strict, network) == RemoveSpent(old(View()), tx, strict, network)
      {
        assert tx.input[i..][1..] == tx.input[i + 1..];
        ok := RemoveOne(tx.input[i].previousOutput);
        if !ok {
          return;
        }
      }
      return true;
    }

    method RemoveOne(op: OutPoint) returns (ok: bool)
      modifies this
      ensures match SpendOne(old(View()), op, strict, network)
        case None => !ok
        case Some(u) => ok && View() == u
    {
      if op !in utxos {
        return !strict;
      }
      var owner := Owner(utxos[op].output, network);
      utxos := utxos - {op};
      if owner.Some? {
        if owner.value !in addressToOutpoints {
          return false;
        }
        var outpoints, found := RemoveOutpoint(addressToOutpoints[owner.value], op);
        if !found && strict {
          return false;
        }
        addressToOutpoints := addressToOutpoints[owner.value := outpoints];
        if outpoints == [] {
          addressToOutpoints := addressToOutpoints - {owner.value};
        }
      }
      return true;
    }

    static method RemoveOutpoint(outpoints: seq<OutPoint>, op: OutPoint) returns (rest: seq<OutPoint>, found: bool)
      ensures rest == RemoveFirst(outpoints, op) && found == (op in outpoints)
    {
      for index := 0 to |outpoints|
        invariant op !in outpoints[..index]
      {
        if outpoints[index] == op {
          RemoveFirstAt(outpoints, op, index);
          return outpoints[..index] + outpoints[index + 1..], true;
        }
      }
      RemoveFirstAt(outpoints, op, |outpoints|);
      return outpoints, false;
    }

    method InsertUnspentTxs(tx: Transaction, height: nat) returns (ok: bool)
      modifies this
      ensures match InsertFrom(old(View()), tx.Txid(), tx.output, 0, height, network)
        case None => !ok
        case Some(u) => ok && View() == u
    {
      for vout := 0 to |tx.output|
        invariant InsertFrom(View(), tx.Txid(), tx.output, vout, height, network)
               == InsertFrom(old(View()), tx.Txid(), tx.output, 0, height, network)
      {
        ok := InsertOutpoint(OutPoint(tx.Txid(), vout), tx.output[vout], height);
        if !ok {
          return;
        }
      }
      return true;
    }

    method InsertOutpoint(outpoint: OutPoint, output: TxOut, height: nat) returns (ok: bool)
      modifies this
      ensures match UtxoIndex.InsertOutpoint(old(View()), outpoint, output, height, network)
        case None => !ok && View() == old(View())
        case Some(u) => ok && View() == u
    {
      if outpoint in utxos && outpoint.txid !in DUPLICATE_TX_IDS {
        return false;
      }
      var owner := Owner(output, network);
      if owner.Some? {
        var outpoints := if owner.value in addressToOutpoints then addressToOutpoints[owner.value] else [];
        addressToOutpoints := addressToOutpoints[owner.value := outpoints + [outpoint]];
      }
      utxos := utxos[outpoint := Utxo(output, height)];
      return true;
    }
  }

  lemma {:induction false} RemoveFirstAt(ops: seq<OutPoint>, op: OutPoint, i: nat)
    requires i <= |ops| && op !in ops[..i] && (i < |ops| ==> ops[i] == op)
    ensures RemoveFirst(ops, op) == if i == |ops| then ops else ops[..i] + ops[i + 1..]
  {
    if 0 < i {
      assert ops[0] in ops[..i];
      assert ops[1..][..i - 1] == ops[..i][1..];
      RemoveFirstAt(ops[1..], op, i - 1);
    }
  }
}
