/**
 Unspent outputs as a plain map: what transactions do to it, with no address index.
 This is the specification that `UtxoSet` refines.
 */
module Ledger {
  import opened Wrappers
  import opened Bitcoin

  datatype Utxo = Utxo(output: TxOut, height: nat)

  type Entries = map<OutPoint, Utxo>

  function Owner(output: TxOut, network: Network): Option<Address>
  {
    ADDRESS_FROM_SCRIPT(output.scriptPubkey, network)
  }

  /** Removing what the inputs spend. In strict mode a missing output is an error. */
  function Spend(m: Entries, inputs: seq<TxIn>, strict: bool): Option<Entries>
  {
    if inputs == [] then
      Some(m)
    else
      var op := inputs[0].previousOutput;
      if op in m then Spend(m - {op}, inputs[1..], strict)
      else if strict then None
      else Spend(m, inputs[1..], strict)
  }

  function SpendTx(m: Entries, tx: Transaction, strict: bool): Option<Entries>
  {
    if tx.IsCoinBase() then Some(m) else Spend(m, tx.input, strict)
  }

  /** Adding one output. An output that is present is an error, but for the two duplicate ids. */
  function Add(m: Entries, op: OutPoint, output: TxOut, height: nat): Option<Entries>
  {
    if op in m && op.txid !in DUPLICATE_TX_IDS then None else Some(m[op := Utxo(output, height)])
  }

  /** Adding the outputs of a transaction from index `vout` on. */
  function AddFrom(m: Entries, txid: Txid, outputs: seq<TxOut>, vout: nat, height: nat): Option<Entries>
    requires vout <= |outputs|
    decreases |outputs| - vout
  {
    if vout == |outputs| then
      Some(m)
    else
      var m' :- Add(m, OutPoint(txid, vout), outputs[vout], height);
      AddFrom(m', txid, outputs, vout + 1, height)
  }

  function Apply(m: Entries, tx: Transaction, height: nat, strict: bool): Option<Entries>
  {
    var m' :- SpendTx(m, tx, strict);
    AddFrom(m', tx.Txid(), tx.output, 0, height)
  }

  function ApplyAll(m: Entries, txs: seq<Transaction>, height: nat, strict: bool): Option<Entries>
    decreases |txs|
  {
    if txs == [] then
      Some(m)
    else
      var m' :- Apply(m, txs[0], height, strict);
      ApplyAll(m', txs[1..], height, strict)
  }

  /** The transactions of consecutive blocks; block `i` is recorded with height `height + i`. */
  function Replay(m: Entries, blocks: seq<Block>, height: nat, strict: bool): Option<Entries>
    decreases |blocks|
  {
    if blocks == [] then
      Some(m)
    else
      var m' :- ApplyAll(m, blocks[0].txdata, height, strict);
      Replay(m', blocks[1..], height + 1, strict)
  }

  /** The outputs that belong to an address. */
  function OwnedBy(m: Entries, a: Address, network: Network): Entries
  {
    map op | op in m && Owner(m[op].output, network) == Some(a) :: m[op]
  }

  // ---------- When a transaction is accepted, and what it leaves ----------

  /** The one kind of transaction whose input refers to no output: its only input is the null outpoint. */
  ghost predicate SpendsNullOnly(tx: Transaction)
  {
    |tx.input| == 1 && tx.input[0].previousOutput == OutPoint(ZERO_DIGEST, 0xffff_ffff)
  }

  ghost function Previous(inputs: seq<TxIn>): set<OutPoint>
  {
    set i | i in inputs :: i.previousOutput
  }

  ghost predicate NoneTwice(inputs: seq<TxIn>)
  {
    forall i, j | 0 <= i < j < |inputs| :: inputs[i].previousOutput != inputs[j].previousOutput
  }

  /** The outpoints that a transaction consumes. */
  ghost function Consumed(tx: Transaction): set<OutPoint>
  {
    if SpendsNullOnly(tx) then {} else Previous(tx.input)
  }

  /** The outputs that a transaction produces. */
  ghost function Produced(txid: Txid, outputs: seq<TxOut>, vout: nat, height: nat): Entries
  {
    map v: nat | vout <= v < |outputs| :: OutPoint(txid, v) := Utxo(outputs[v], height)
  }

  /** Each consumed output exists, and is consumed once. */
  ghost predicate CanConsume(m: Entries, tx: Transaction)
  {
    SpendsNullOnly(tx) || (NoneTwice(tx.input) && Consumed(tx) <= m.Keys)
  }

  ghost predicate AllNew(m: Entries, txid: Txid, first: nat, end: nat)
  {
    forall v: nat | first <= v < end :: OutPoint(txid, v) !in m
  }

  /** No produced output exists already, but for the two duplicate ids. */
  ghost predicate CanProduce(m: Entries, tx: Transaction)
  {
    tx.Txid() in DUPLICATE_TX_IDS || AllNew(m - Consumed(tx), tx.Txid(), 0, |tx.output|)
  }

  lemma FirstInput(inputs: seq<TxIn>)
    requires inputs != []
    ensures Previous(inputs) == {inputs[0].previousOutput} + Previous(inputs[1..])
    ensures NoneTwice(inputs) <==> NoneTwice(inputs[1..]) && inputs[0].previousOutput !in Previous(inputs[1..])
  {
    var rest := inputs[1..];
    assert inputs == [inputs[0]] + rest;
    if inputs[0].previousOutput in Previous(rest) {
      var i :| i in rest && i.previousOutput == inputs[0].previousOutput;
      var k :| 0 <= k < |rest| && rest[k] == i;
      assert inputs[k + 1] == i;
    } else if NoneTwice(rest) {
      forall i, j | 0 <= i < j < |inputs|
        ensures inputs[i].previousOutput != inputs[j].previousOutput
      {
        assert inputs[j] == rest[j - 1] && rest[j - 1] in rest;
        assert i > 0 ==> inputs[i] == rest[i - 1];
      }
    }
    if NoneTwice(inputs) {
      forall i, j | 0 <= i < j < |rest|
        ensures rest[i].previousOutput != rest[j].previousOutput
      {
        assert inputs[i + 1] == rest[i] && inputs[j + 1] == rest[j];
      }
    }
  }

  lemma {:induction false} SpendIff(m: Entries, inputs: seq<TxIn>, strict: bool)
    ensures Spend(m, inputs, strict).Some? <==> (strict ==> NoneTwice(inputs) && Previous(inputs) <= m.Keys)
    ensures Spend(m, inputs, strict).Some? ==> Spend(m, inputs, strict).value == m - Previous(inputs)
  {
    if inputs != [] {
      hide NoneTwice, Previous;
      var op := inputs[0].previousOutput;
      FirstInput(inputs);
      SpendIff(m - {op}, inputs[1..], strict);
      SpendIff(m, inputs[1..], strict);
      assert op !in m ==> m - {op} == m;
      assert m - {op} - Previous(inputs[1..]) == m - Previous(inputs);
    } else {
      assert m - Previous(inputs) == m;
    }
  }

  lemma FirstProduced(txid: Txid, outputs: seq<TxOut>, vout: nat, height: nat)
    requires vout < |outputs|
    ensures map[OutPoint(txid, vout) := Utxo(outputs[vout], height)] + Produced(txid, outputs, vout + 1, height)
         == Produced(txid, outputs, vout, height)
  {
    var later, all := Produced(txid, outputs, vout + 1, height), Produced(txid, outputs, vout, height);
    forall op
      ensures op in all <==> op == OutPoint(txid, vout) || op in later
    {
      assert op == OutPoint(op.txid, op.vout);
    }
  }

  lemma MergeFirst(m: Entries, op: OutPoint, utxo: Utxo, later: Entries)
    ensures m[op := utxo] + later == m + (map[op := utxo] + later)
  {
  }

  lemma FirstIsNew(m: Entries, txid: Txid, first: nat, end: nat, utxo: Utxo)
    requires first < end
    ensures AllNew(m, txid, first, end)
            <==> OutPoint(txid, first) !in m && AllNew(m[OutPoint(txid, first) := utxo], txid, first + 1, end)
  {
  }

  lemma AddUnfolds(m: Entries, txid: Txid, outputs: seq<TxOut>, vout: nat, height: nat)
    requires vout < |outputs|
    ensures var op := OutPoint(txid, vout);
      AddFrom(m, txid, outputs, vout, height) ==
      if op in m && txid !in DUPLICATE_TX_IDS then None
      else AddFrom(m[op := Utxo(outputs[vout], height)], txid, outputs, vout + 1, height)
  {
  }

  lemma {:induction false} AddIff(m: Entries, txid: Txid, outputs: seq<TxOut>, vout: nat, height: nat)
    requires vout <= |outputs|
    ensures var r := AddFrom(m, txid, outputs, vout, height);
      && (r.Some? <==> txid in DUPLICATE_TX_IDS || AllNew(m, txid, vout, |outputs|))
      && (r.Some? ==> r.value == m + Produced(txid, outputs, vout, height))
    decreases |outputs| - vout
  {
    if vout == |outputs| {
      assert Produced(txid, outputs, vout, height) == map[];
    } else {
      hide Produced, AllNew, AddFrom;
      AddUnfolds(m, txid, outputs, vout, height);
      var op, utxo := OutPoint(txid, vout), Utxo(outputs[vout], height);
      FirstProduced(txid, outputs, vout, height);
      FirstIsNew(m, txid, vout, |outputs|, utxo);
      AddIff(m[op := utxo], txid, outputs, vout + 1, height);
      MergeFirst(m, op, utxo, Produced(txid, outputs, vout + 1, height));
    }
  }

  /**
   Exactly when a transaction is accepted, and the ledger it leaves: what it consumes is gone, and
   what it produces is there.
   */
  lemma ApplyIff(m: Entries, tx: Transaction, height: nat, strict: bool)
    ensures Apply(m, tx, height, strict).Some? <==> (strict ==> CanConsume(m, tx)) && CanProduce(m, tx)
    ensures Apply(m, tx, height, strict).Some? ==>
              Apply(m, tx, height, strict).value == (m - Consumed(tx)) + Produced(tx.Txid(), tx.output, 0, height)
  {
    hide Spend, AddFrom, Previous, NoneTwice, Produced, AllNew;
    SpendIff(m, tx.input, strict);
    assert tx.IsCoinBase() <==> SpendsNullOnly(tx);
    assert m - {} == m;
    AddIff(m - Consumed(tx), tx.Txid(), tx.output, 0, height);
  }

  // ---------- One address's part of the ledger ----------

  /**
   `p` holds part of `q`, among it all outputs of address `a`. Heights may differ, as told by
   the relation `r`.
   */
  ghost predicate Tracks(p: Entries, q: Entries, a: Address, network: Network, r: (nat, nat) -> bool)
  {
    && (forall op | op in p :: op in q && p[op].output == q[op].output && r(p[op].height, q[op].height))
    && (forall op | op in q && Owner(q[op].output, network) == Some(a) :: op in p)
  }

  lemma {:induction false} SpendTracks(
    p: Entries, q: Entries, inputs: seq<TxIn>, strict: bool, a: Address, network: Network, r: (nat, nat) -> bool)
    requires Tracks(p, q, a, network, r) && Spend(q, inputs, strict).Some?
    ensures Spend(p, inputs, false).Some?
    ensures Tracks(Spend(p, inputs, false).value, Spend(q, inputs, strict).value, a, network, r)
  {
    if inputs != [] {
      var op := inputs[0].previousOutput;
      var p' := if op in p then p - {op} else p;
      var q' := if op in q then q - {op} else q;
      SpendTracks(p', q', inputs[1..], strict, a, network, r);
    }
  }

  lemma {:induction false} AddTracks(
    p: Entries, q: Entries, txid: Txid, outputs: seq<TxOut>, vout: nat, hp: nat, hq: nat,
    a: Address, network: Network, r: (nat, nat) -> bool)
    requires vout <= |outputs| && r(hp, hq)
    requires Tracks(p, q, a, network, r) && AddFrom(q, txid, outputs, vout, hq).Some?
    ensures AddFrom(p, txid, outputs, vout, hp).Some?
    ensures Tracks(AddFrom(p, txid, outputs, vout, hp).value, AddFrom(q, txid, outputs, vout, hq).value, a, network, r)
    decreases |outputs| - vout
  {
    if vout < |outputs| {
      var op := OutPoint(txid, vout);
      AddTracks(p[op := Utxo(outputs[vout], hp)], q[op := Utxo(outputs[vout], hq)],
                txid, outputs, vout + 1, hp, hq, a, network, r);
    }
  }

  lemma {:induction false} ApplyAllTracks(
    p: Entries, q: Entries, txs: seq<Transaction>, strict: bool, hp: nat, hq: nat,
    a: Address, network: Network, r: (nat, nat) -> bool)
    requires r(hp, hq) && Tracks(p, q, a, network, r) && ApplyAll(q, txs, hq, strict).Some?
    ensures ApplyAll(p, txs, hp, false).Some?
    ensures Tracks(ApplyAll(p, txs, hp, false).value, ApplyAll(q, txs, hq, strict).value, a, network, r)
    decreases |txs|
  {
    if txs != [] {
      var tx := txs[0];
      var p', q' := p, q;
      if !tx.IsCoinBase() {
        SpendTracks(p, q, tx.input, strict, a, network, r);
        p', q' := Spend(p, tx.input, false).value, Spend(q, tx.input, strict).value;
      }
      AddTracks(p', q', tx.Txid(), tx.output, 0, hp, hq, a, network, r);
      ApplyAllTracks(Apply(p, tx, hp, false).value, Apply(q, tx, hq, strict).value, txs[1..], strict, hp, hq, a, network, r);
    }
  }

  lemma {:induction false} ReplayTracks(
    p: Entries, q: Entries, blocks: seq<Block>, strict: bool, hp: nat, hq: nat,
    a: Address, network: Network, r: (nat, nat) -> bool)
    requires forall x: nat, y: nat | x >= hp && x - hp == y - hq :: r(x, y)
    requires Tracks(p, q, a, network, r) && Replay(q, blocks, hq, strict).Some?
    ensures Replay(p, blocks, hp, false).Some?
    ensures Tracks(Replay(p, blocks, hp, false).value, Replay(q, blocks, hq, strict).value, a, network, r)
    decreases |blocks|
  {
    if blocks != [] {
      ApplyAllTracks(p, q, blocks[0].txdata, strict, hp, hq, a, network, r);
      ReplayTracks(ApplyAll(p, blocks[0].txdata, hp, false).value, ApplyAll(q, blocks[0].txdata, hq, strict).value,
                   blocks[1..], strict, hp + 1, hq + 1, a, network, r);
    }
  }

  ghost const SAME_HEIGHT: (nat, nat) -> bool := (x, y) => x == y

  /**
   Replaying blocks on one address's outputs, without strictness, agrees with replaying them on
   the whole ledger: the address owns the same outputs after both, and the partial replay has
   no error when the whole one has none.
   */
  lemma LocalReplayRefinesGlobal(m: Entries, a: Address, network: Network, blocks: seq<Block>, height: nat, strict: bool)
    requires Replay(m, blocks, height, strict).Some?
    ensures Replay(OwnedBy(m, a, network), blocks, height, false).Some?
    ensures OwnedBy(Replay(OwnedBy(m, a, network), blocks, height, false).value, a, network)
         == OwnedBy(Replay(m, blocks, height, strict).value, a, network)
  {
    ReplayTracks(OwnedBy(m, a, network), m, blocks, strict, height, height, a, network, SAME_HEIGHT);
  }
}
