/**
 The address index agrees with the map of unspent outputs, so that `UtxoSet` refines the plain ledger.
 */
module IndexAgreement {
  import opened Wrappers
  import opened Bitcoin
  import opened Sequences
  import opened Ledger
  import opened UtxoIndex

  /**
   The index lists each output under its owner and nowhere else, no list is empty, and outputs
   are listed once unless their transaction has one of the two duplicate ids.
   */
  ghost predicate IndexAgrees(u: Indexed, network: Network)
  {
    && (forall a | a in u.index :: u.index[a] != [])
    && ListsAreRight(u, network)
    && (forall op | op in u.entries :: IsListed(u, op, network))
  }

  ghost predicate ListsAreRight(u: Indexed, network: Network)
  {
    forall a, op | a in u.index && op in u.index[a] :: op in u.entries && Owner(u.entries[op].output, network) == Some(a)
  }

  ghost predicate IsListed(u: Indexed, op: OutPoint, network: Network)
    requires op in u.entries
  {
    match Owner(u.entries[op].output, network)
    case None => true
    case Some(a) =>
      && a in u.index && op in u.index[a]
      && (op.txid !in DUPLICATE_TX_IDS ==> multiset(u.index[a])[op] == 1)
  }

  // ---------- One output at a time ----------

  lemma {:induction false} RemoveFirstBag(ops: seq<OutPoint>, op: OutPoint)
    ensures multiset(RemoveFirst(ops, op)) == multiset(ops) - multiset{op}
  {
    if ops != [] {
      assert ops == [ops[0]] + ops[1..];
      if ops[0] != op {
        RemoveFirstBag(ops[1..], op);
      }
    }
  }

  lemma InBag(ops: seq<OutPoint>)
    ensures forall op :: op in ops <==> op in multiset(ops)
  {
  }

  lemma InRemoved(ops: seq<OutPoint>, op: OutPoint)
    ensures forall o | o != op :: o in RemoveFirst(ops, op) <==> o in ops
    ensures forall o | o != op :: multiset(RemoveFirst(ops, op))[o] == multiset(ops)[o]
    ensures op in RemoveFirst(ops, op) <==> multiset(ops)[op] > 1
  {
    RemoveFirstBag(ops, op);
    InBag(ops);
    InBag(RemoveFirst(ops, op));
  }

  /** Spending never fails because of the index. */
  lemma SpendOneRefines(u: Indexed, op: OutPoint, strict: bool, network: Network)
    requires IndexAgrees(u, network)
    ensures SpendOne(u, op, strict, network).Some? <==> op in u.entries || !strict
    ensures SpendOne(u, op, strict, network).Some? ==> SpendOne(u, op, strict, network).value.entries == u.entries - {op}
  {
    if op in u.entries {
      assert IsListed(u, op, network);
    }
  }

  lemma SpendKeepsLists(u: Indexed, op: OutPoint, a: Address, v: Indexed, network: Network)
    requires ListsAreRight(u, network) && op in u.entries && a in u.index && op !in RemoveFirst(u.index[a], op)
    requires Owner(u.entries[op].output, network) == Some(a) && v.entries == u.entries - {op}
    requires v.index == Unlist(u.index, a, op)
    ensures ListsAreRight(v, network)
  {
    InRemoved(u.index[a], op);
    forall b, o | b in v.index && o in v.index[b]
      ensures o in v.entries && Owner(v.entries[o].output, network) == Some(b)
    {
      assert o in u.index[b];
    }
  }

  lemma SpendKeepsListed(u: Indexed, op: OutPoint, a: Address, v: Indexed, o: OutPoint, network: Network)
    requires o in u.entries && IsListed(u, o, network) && o != op && a in u.index && v.entries == u.entries - {op}
    requires v.index == Unlist(u.index, a, op)
    ensures IsListed(v, o, network)
  {
    InRemoved(u.index[a], op);
  }

  lemma OwnedSpendAgrees(u: Indexed, op: OutPoint, a: Address, v: Indexed, network: Network)
    requires IndexAgrees(u, network) && op in u.entries && a in u.index && op !in RemoveFirst(u.index[a], op)
    requires Owner(u.entries[op].output, network) == Some(a) && v.entries == u.entries - {op}
    requires v.index == Unlist(u.index, a, op)
    ensures IndexAgrees(v, network)
  {
    SpendKeepsLists(u, op, a, v, network);
    forall o | o in v.entries
      ensures IsListed(v, o, network)
    {
      SpendKeepsListed(u, op, a, v, o, network);
    }
  }

  lemma OwnedSpendAgreesIff(u: Indexed, op: OutPoint, a: Address, v: Indexed, network: Network)
    requires IndexAgrees(u, network) && op in u.entries && a in u.index && op in u.index[a]
    requires Owner(u.entries[op].output, network) == Some(a) && v.entries == u.entries - {op}
    requires v.index == Unlist(u.index, a, op)
    ensures IndexAgrees(v, network) <==> multiset(u.index[a])[op] == 1
  {
    hide IsListed, RemoveFirst;
    InRemoved(u.index[a], op);
    InBag(u.index[a]);
    if op in RemoveFirst(u.index[a], op) {
      assert a in v.index && op in v.index[a] && !ListsAreRight(v, network);
    } else {
      OwnedSpendAgrees(u, op, a, v, network);
    }
  }

  lemma UnownedSpendAgrees(u: Indexed, op: OutPoint, network: Network)
    requires IndexAgrees(u, network) && op in u.entries && Owner(u.entries[op].output, network).None?
    ensures IndexAgrees(Indexed(u.entries - {op}, u.index), network)
  {
  }

  /** Spending an output keeps the index in agreement if and only if the output is listed at most once. */
  lemma SpendOneAgreesIff(u: Indexed, op: OutPoint, strict: bool, network: Network)
    requires IndexAgrees(u, network) && SpendOne(u, op, strict, network).Some?
    ensures IndexAgrees(SpendOne(u, op, strict, network).value, network) <==>
      (op in u.entries && Owner(u.entries[op].output, network).Some? ==>
         multiset(u.index[Owner(u.entries[op].output, network).value])[op] == 1)
  {
    if op in u.entries {
      assert IsListed(u, op, network);
      match Owner(u.entries[op].output, network)
      case Some(a) => OwnedSpendAgreesIff(u, op, a, SpendOne(u, op, strict, network).value, network);
      case None => UnownedSpendAgrees(u, op, network);
    }
  }

  lemma InsertKeepsLists(u: Indexed, op: OutPoint, output: TxOut, height: nat, network: Network)
    requires ListsAreRight(u, network) && InsertOutpoint(u, op, output, height, network).Some?
    requires op in u.entries && Owner(u.entries[op].output, network).Some? ==>
               Owner(output, network) == Owner(u.entries[op].output, network)
    ensures ListsAreRight(InsertOutpoint(u, op, output, height, network).value, network)
  {
  }

  lemma InsertKeepsListed(u: Indexed, op: OutPoint, output: TxOut, height: nat, o: OutPoint, network: Network)
    requires ListsAreRight(u, network) && InsertOutpoint(u, op, output, height, network).Some?
    requires o == op || (o in u.entries && IsListed(u, o, network))
    ensures IsListed(InsertOutpoint(u, op, output, height, network).value, o, network)
  {
  }

  /**
   Inserting an output keeps the index in agreement if and only if it does not replace an output
   of another owner.
   */
  lemma InsertOutpointAgreesIff(u: Indexed, op: OutPoint, output: TxOut, height: nat, network: Network)
    requires IndexAgrees(u, network) && InsertOutpoint(u, op, output, height, network).Some?
    ensures IndexAgrees(InsertOutpoint(u, op, output, height, network).value, network) <==>
      (op in u.entries && Owner(u.entries[op].output, network).Some? ==>
         Owner(output, network) == Owner(u.entries[op].output, network))
  {
    var v := InsertOutpoint(u, op, output, height, network).value;
    if op in u.entries && Owner(u.entries[op].output, network).Some?
       && Owner(output, network) != Owner(u.entries[op].output, network) {
      assert IsListed(u, op, network);
      var a := Owner(u.entries[op].output, network).value;
      assert a in v.index && op in v.index[a] && Owner(v.entries[op].output, network) != Some(a);
    } else {
      InsertKeepsLists(u, op, output, height, network);
      forall o | o in v.entries
        ensures IsListed(v, o, network)
      {
        InsertKeepsListed(u, op, output, height, o, network);
      }
    }
  }

  // ---------- Duplicate ids ----------

  ghost predicate IsOutputOf(tx: Transaction, op: OutPoint, output: TxOut)
  {
    tx.Txid() == op.txid && op.vout < |tx.output| && tx.output[op.vout] == output
  }

  /** Outputs under a duplicate id are outputs of some transaction with that id. */
  ghost predicate Genuine(m: Entries)
  {
    forall op | op in m && op.txid in DUPLICATE_TX_IDS :: exists tx :: IsOutputOf(tx, op, m[op].output)
  }

  /** Transactions that share one of the duplicate ids have the same outputs. */
  ghost predicate DuplicatesRepeat()
  {
    forall t: Transaction, u: Transaction | t.Txid() == u.Txid() && t.Txid() in DUPLICATE_TX_IDS :: t.output == u.output
  }

  /** The transaction spends no output that exists twice. */
  ghost predicate SpendsNoDuplicate(tx: Transaction)
  {
    tx.IsCoinBase() || forall i | i in tx.input :: i.previousOutput.txid !in DUPLICATE_TX_IDS
  }

  ghost predicate Sound(u: Indexed, network: Network)
  {
    IndexAgrees(u, network) && Genuine(u.entries)
  }

  // ---------- Whole transactions ----------

  /** The result on the indexed set against the result on the plain ledger. */
  ghost predicate Refines(r: Option<Indexed>, spec: Option<Entries>, network: Network)
  {
    match spec
    case None => r.None?
    case Some(m) => r.Some? && r.value.entries == m && Sound(r.value, network)
  }

  lemma {:induction false} SpendInputsRefines(u: Indexed, inputs: seq<TxIn>, strict: bool, network: Network)
    requires Sound(u, network)
    requires forall i | i in inputs :: i.previousOutput.txid !in DUPLICATE_TX_IDS
    ensures Refines(SpendInputs(u, inputs, strict, network), Spend(u.entries, inputs, strict), network)
    decreases |inputs|
  {
    if inputs != [] {
      var op := inputs[0].previousOutput;
      assert inputs[0] in inputs;
      SpendOneRefines(u, op, strict, network);
      if op in u.entries || !strict {
        if op in u.entries {
          assert IsListed(u, op, network);
        }
        SpendOneAgreesIff(u, op, strict, network);
        SpendInputsRefines(SpendOne(u, op, strict, network).value, inputs[1..], strict, network);
      }
    }
  }

  lemma InsertOutpointRefines(u: Indexed, tx: Transaction, vout: nat, height: nat, network: Network)
    requires Sound(u, network) && DuplicatesRepeat() && vout < |tx.output|
    ensures Refines(InsertOutpoint(u, OutPoint(tx.Txid(), vout), tx.output[vout], height, network),
                    Add(u.entries, OutPoint(tx.Txid(), vout), tx.output[vout], height), network)
  {
    var op := OutPoint(tx.Txid(), vout);
    var r := InsertOutpoint(u, op, tx.output[vout], height, network);
    if r.Some? {
      assert IsOutputOf(tx, op, tx.output[vout]);
      if op in u.entries {
        var t :| IsOutputOf(t, op, u.entries[op].output);
        assert t.output == tx.output;
      }
      InsertOutpointAgreesIff(u, op, tx.output[vout], height, network);
      assert Genuine(r.value.entries);
    }
  }

  lemma {:induction false} InsertFromRefines(u: Indexed, tx: Transaction, vout: nat, height: nat, network: Network)
    requires Sound(u, network) && DuplicatesRepeat() && vout <= |tx.output|
    ensures Refines(InsertFrom(u, tx.Txid(), tx.output, vout, height, network),
                    AddFrom(u.entries, tx.Txid(), tx.output, vout, height), network)
    decreases |tx.output| - vout
  {
    if vout < |tx.output| {
      InsertOutpointRefines(u, tx, vout, height, network);
      var r := InsertOutpoint(u, OutPoint(tx.Txid(), vout), tx.output[vout], height, network);
      if r.Some? {
        InsertFromRefines(r.value, tx, vout + 1, height, network);
      }
    }
  }

  /** `insert_tx` does to the map what the ledger says, fails only when the ledger does, and keeps the index in agreement. */
  lemma InsertTxRefines(u: Indexed, tx: Transaction, height: nat, strict: bool, network: Network)
    requires Sound(u, network) && DuplicatesRepeat() && SpendsNoDuplicate(tx)
    ensures Refines(InsertTx(u, tx, height, strict, network), Apply(u.entries, tx, height, strict), network)
  {
    if !tx.IsCoinBase() {
      SpendInputsRefines(u, tx.input, strict, network);
    }
    var r := RemoveSpent(u, tx, strict, network);
    if r.Some? {
      InsertFromRefines(r.value, tx, 0, height, network);
    }
  }

  /**
   Exactly when `insert_tx` panics, and what it leaves otherwise: an ordinary transaction removes
   each output it spends, only the null outpoint counts as no input, and all its outputs are there.
   */
  lemma InsertTxIff(u: Indexed, tx: Transaction, height: nat, strict: bool, network: Network)
    requires Sound(u, network) && DuplicatesRepeat() && SpendsNoDuplicate(tx)
    ensures var r := InsertTx(u, tx, height, strict, network);
      && (r.Some? <==> (strict ==> CanConsume(u.entries, tx)) && CanProduce(u.entries, tx))
      && (r.Some? ==> r.value.entries == (u.entries - Consumed(tx)) + Produced(tx.Txid(), tx.output, 0, height))
  {
    hide InsertTx, Apply, Sound, DuplicatesRepeat, CanConsume, CanProduce, Produced, Consumed;
    InsertTxRefines(u, tx, height, strict, network);
    ApplyIff(u.entries, tx, height, strict);
  }

  lemma {:induction false} InsertAllRefines(u: Indexed, txs: seq<Transaction>, height: nat, strict: bool, network: Network)
    requires Sound(u, network) && DuplicatesRepeat() && forall tx | tx in txs :: SpendsNoDuplicate(tx)
    ensures Refines(InsertAll(u, txs, height, strict, network), ApplyAll(u.entries, txs, height, strict), network)
    decreases |txs|
  {
    if txs != [] {
      assert txs[0] in txs;
      InsertTxRefines(u, txs[0], height, strict, network);
      var r := InsertTx(u, txs[0], height, strict, network);
      if r.Some? {
        InsertAllRefines(r.value, txs[1..], height, strict, network);
      }
    }
  }

  // ---------- The part of an address ----------

  ghost function Selected(m: Entries, ops: seq<OutPoint>): Entries
  {
    map op | op in ops && op in m :: m[op]
  }

  ghost function PartOf(u: Indexed, a: Address, ops: seq<OutPoint>): Indexed
  {
    Indexed(Selected(u.entries, ops), if ops == [] then map[] else map[a := ops])
  }

  lemma SelectedGrows(m: Entries, ops: seq<OutPoint>, op: OutPoint)
    requires op in m
    ensures Selected(m, ops)[op := m[op]] == Selected(m, ops + [op])
    ensures op in Selected(m, ops) <==> op in ops
  {
  }

  /** The output is one that `get_utxos` can add to those of the address that it has added before. */
  ghost predicate IsNext(u: Indexed, a: Address, ops: seq<OutPoint>, op: OutPoint, network: Network)
  {
    && op in u.entries && Owner(u.entries[op].output, network) == Some(a)
    && (op in ops ==> op.txid in DUPLICATE_TX_IDS)
  }

  lemma PartGrows(u: Indexed, a: Address, ops: seq<OutPoint>, op: OutPoint, network: Network)
    requires IsNext(u, a, ops, op, network)
    ensures InsertOutpoint(PartOf(u, a, ops), op, u.entries[op].output, u.entries[op].height, network)
         == Some(PartOf(u, a, ops + [op]))
  {
    SelectedGrows(u.entries, ops, op);
    hide Selected;
    assert [] + [op] == [op];
    var part := PartOf(u, a, ops);
    assert part.index[a := ops + [op]] == map[a := ops + [op]];
  }

  lemma ListedIsNext(u: Indexed, a: Address, i: nat, network: Network)
    requires IndexAgrees(u, network) && a in u.index && i < |u.index[a]|
    ensures IsNext(u, a, u.index[a][..i], u.index[a][i], network)
  {
    var ops, op := u.index[a], u.index[a][i];
    assert op in ops && IsListed(u, op, network);
    if op in ops[..i] {
      ListedTwice(ops, i, op);
    }
  }

  lemma CollectStep(u: Indexed, ops: seq<OutPoint>, i: nat, part: Indexed, more: Indexed, network: Network)
    requires i < |ops| && ops[i] in u.entries
    requires InsertOutpoint(part, ops[i], u.entries[ops[i]].output, u.entries[ops[i]].height, network) == Some(more)
    ensures Collect(u, ops[i..], part, network) == Collect(u, ops[i + 1..], more, network)
  {
    hide InsertOutpoint;
    SliceStep(ops, i);
  }

  /** Collecting outputs one by one builds the part that their list selects. */
  lemma {:induction false} CollectIsPart(u: Indexed, a: Address, ops: seq<OutPoint>, i: nat, network: Network)
    requires i <= |ops| && forall k | 0 <= k < |ops| :: IsNext(u, a, ops[..k], ops[k], network)
    ensures Collect(u, ops[i..], PartOf(u, a, ops[..i]), network) == Some(PartOf(u, a, ops))
    decreases |ops| - i
  {
    if i == |ops| {
      assert ops[..i] == ops && ops[i..] == [];
    } else {
      hide InsertOutpoint, PartOf, Collect;
      assert IsNext(u, a, ops[..i], ops[i], network);
      SliceStep(ops, i);
      PartGrows(u, a, ops[..i], ops[i], network);
      CollectStep(u, ops, i, PartOf(u, a, ops[..i]), PartOf(u, a, ops[..i + 1]), network);
      CollectIsPart(u, a, ops, i + 1, network);
    }
  }

  lemma ListedTwice(ops: seq<OutPoint>, i: nat, op: OutPoint)
    requires i < |ops| && ops[i] == op && op in ops[..i]
    ensures multiset(ops)[op] >= 2
  {
    assert ops == ops[..i] + ops[i..];
    assert op in multiset(ops[..i]) && op in multiset(ops[i..]) by {
      assert ops[i..][0] == op;
    }
  }

  /** `get_utxos` does not panic, returns exactly the outputs of the address, and its index agrees. */
  lemma GetUtxosIsFilter(u: Indexed, a: Address, network: Network)
    requires Sound(u, network)
    ensures Refines(GetUtxos(u, a, network), Some(OwnedBy(u.entries, a, network)), network)
  {
    if a in u.index {
      var ops := u.index[a];
      forall k | 0 <= k < |ops|
        ensures IsNext(u, a, ops[..k], ops[k], network)
      {
        ListedIsNext(u, a, k, network);
      }
      hide IsListed;
      assert ops[..0] == [] && ops[0..] == ops;
      assert PartOf(u, a, []) == EMPTY;
      CollectIsPart(u, a, ops, 0, network);
      PartIsOwned(u, a, network);
    } else {
      NothingOwned(u, a, network);
    }
  }

  /** The same, output by output. */
  lemma GetUtxosOf(u: Indexed, a: Address, network: Network, op: OutPoint)
    requires Sound(u, network)
    ensures var r := GetUtxos(u, a, network);
      && r.Some?
      && (op in r.value.entries <==>
            op in u.entries && ADDRESS_FROM_SCRIPT(u.entries[op].output.scriptPubkey, network) == Some(a))
      && (op in r.value.entries ==> r.value.entries[op] == u.entries[op])
  {
    GetUtxosIsFilter(u, a, network);
  }

  lemma NothingOwned(u: Indexed, a: Address, network: Network)
    requires Sound(u, network) && a !in u.index
    ensures OwnedBy(u.entries, a, network) == map[] && Sound(EMPTY, network)
  {
  }

  /** The part that an address's list selects is what the address owns, and its index agrees. */
  lemma PartIsOwned(u: Indexed, a: Address, network: Network)
    requires Sound(u, network) && a in u.index && forall op | op in u.index[a] :: op in u.entries
    ensures var part := PartOf(u, a, u.index[a]);
      part.entries == OwnedBy(u.entries, a, network) && Sound(part, network)
  {
  }

  lemma InsertOneOutput(u: Indexed, tx: Transaction, height: nat, strict: bool, network: Network)
    requires tx.IsCoinBase() && |tx.output| == 1
    ensures InsertTx(u, tx, height, strict, network)
         == InsertOutpoint(u, OutPoint(tx.Txid(), 0), tx.output[0], height, network)
  {
    var r := InsertOutpoint(u, OutPoint(tx.Txid(), 0), tx.output[0], height, network);
    if r.Some? {
      assert InsertFrom(r.value, tx.Txid(), tx.output, 1, height, network) == r;
    }
  }

  /** An output that the index lists under `a`, and the map does not hold. */
  ghost predicate Dangles(u: Indexed, a: Address, op: OutPoint)
  {
    a in u.index && op in u.index[a] && op !in u.entries
  }

  lemma {:induction false} CollectPanics(u: Indexed, ops: seq<OutPoint>, part: Indexed, op: OutPoint, network: Network)
    requires op in ops && op !in u.entries
    ensures Collect(u, ops, part, network).None?
    decreases |ops|
  {
    if ops[0] in u.entries {
      assert ops == [ops[0]] + ops[1..];
      var r := InsertOutpoint(part, ops[0], u.entries[ops[0]].output, u.entries[ops[0]].height, network);
      if r.Some? {
        CollectPanics(u, ops[1..], r.value, op, network);
      }
    }
  }

  /** A dangling listing breaks the index, and the owner's next query panics. */
  lemma DanglingPanics(u: Indexed, a: Address, op: OutPoint, network: Network)
    requires Dangles(u, a, op)
    ensures !IndexAgrees(u, network) && GetUtxos(u, a, network).None?
  {
    CollectPanics(u, u.index[a], EMPTY, op, network);
  }

  /** New outputs of another transaction do not repair it. */
  lemma {:induction false} DanglingStays(
    u: Indexed, a: Address, op: OutPoint, txid: Txid, outputs: seq<TxOut>, vout: nat, height: nat, network: Network)
    requires Dangles(u, a, op) && txid != op.txid && vout <= |outputs|
    requires forall o | o in u.entries && o.txid == txid :: o.vout < vout
    ensures var r := InsertFrom(u, txid, outputs, vout, height, network);
      r.Some? && Dangles(r.value, a, op)
    decreases |outputs| - vout
  {
    if vout < |outputs| {
      var r := InsertOutpoint(u, OutPoint(txid, vout), outputs[vout], height, network);
      DanglingStays(r.value, a, op, txid, outputs, vout + 1, height, network);
    }
  }

  lemma SpendDuplicate(
    u: Indexed, spender: Transaction, a: Address, op: OutPoint, height: nat, strict: bool, network: Network)
    requires u.entries.Keys == {op} && Owner(u.entries[op].output, network) == Some(a)
    requires a in u.index && u.index[a] == [op, op]
    requires |spender.input| == 1 && spender.input[0].previousOutput == op && !op.IsNull() && spender.Txid() != op.txid
    ensures var spent := InsertTx(u, spender, height, strict, network);
      spent.Some? && Dangles(spent.value, a, op)
  {
    assert RemoveFirst([op, op], op) == [op];
    var rest := SpendOne(u, op, strict, network).value;
    assert op in rest.index[a];
    assert SpendInputs(rest, spender.input[1..], strict, network) == Some(rest);
    DanglingStays(rest, a, op, spender.Txid(), spender.output, 0, height, network);
  }

  /**
   Spending an output of a duplicate id does break the index: after such a coinbase transaction
   was inserted twice, and another transaction that spends its output, `get_utxos` of the owner panics.
   */
  lemma SpentDuplicateDangles(
    tx: Transaction, spender: Transaction, a: Address, h1: nat, h2: nat, h3: nat, strict: bool, network: Network)
    requires tx.IsCoinBase() && tx.Txid() in DUPLICATE_TX_IDS
    requires |tx.output| == 1 && Owner(tx.output[0], network) == Some(a)
    requires |spender.input| == 1 && spender.input[0].previousOutput == OutPoint(tx.Txid(), 0)
    requires spender.Txid() != tx.Txid()
    ensures var once := InsertTx(EMPTY, tx, h1, strict, network);
      once.Some? &&
      var twice := InsertTx(once.value, tx, h2, strict, network);
      twice.Some? &&
      var spent := InsertTx(twice.value, spender, h3, strict, network);
      spent.Some? && !IndexAgrees(spent.value, network) && GetUtxos(spent.value, a, network).None?
  {
    hide InsertTx, IndexAgrees, GetUtxos, SpendOne;
    var op := OutPoint(tx.Txid(), 0);
    var once := InsertOutpoint(EMPTY, op, tx.output[0], h1, network).value;
    var twice := InsertOutpoint(once, op, tx.output[0], h2, network).value;
    InsertOneOutput(EMPTY, tx, h1, strict, network);
    InsertOneOutput(once, tx, h2, strict, network);
    assert twice.index[a] == [op] + [op];
    SpendDuplicate(twice, spender, a, op, h3, strict, network);
    DanglingPanics(InsertTx(twice, spender, h3, strict, network).value, a, op, network);
  }
}
