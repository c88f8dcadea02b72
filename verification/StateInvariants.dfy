/**
 What holds in every reachable state: the state refines a log of final blocks.
 */
module StateInvariants {
  import opened Wrappers
  import opened Bitcoin
  import opened Sequences
  import opened BlockTrees
  import opened BlockForests
  import opened ForestInvariants
  import opened Finality
  import opened ForestListing
  import opened Ledger
  import opened UtxoIndex
  import opened ChainState

  // ---------- Heights ----------

  ghost predicate Bounded(m: Entries, bound: nat)
  {
    forall op | op in m :: m[op].height <= bound
  }

  lemma {:induction false} SpendBounded(m: Entries, inputs: seq<TxIn>, strict: bool, bound: nat)
    requires Bounded(m, bound) && Spend(m, inputs, strict).Some?
    ensures Bounded(Spend(m, inputs, strict).value, bound)
    decreases |inputs|
  {
    if inputs != [] {
      var op := inputs[0].previousOutput;
      SpendBounded(if op in m then m - {op} else m, inputs[1..], strict, bound);
    }
  }

  lemma {:induction false} AddBounded(m: Entries, txid: Txid, outputs: seq<TxOut>, vout: nat, height: nat, bound: nat)
    requires vout <= |outputs| && height <= bound
    requires Bounded(m, bound) && AddFrom(m, txid, outputs, vout, height).Some?
    ensures Bounded(AddFrom(m, txid, outputs, vout, height).value, bound)
    decreases |outputs| - vout
  {
    if vout < |outputs| {
      AddBounded(m[OutPoint(txid, vout) := Utxo(outputs[vout], height)], txid, outputs, vout + 1, height, bound);
    }
  }

  lemma {:induction false} ApplyAllBounded(m: Entries, txs: seq<Transaction>, height: nat, strict: bool, bound: nat)
    requires height <= bound && Bounded(m, bound) && ApplyAll(m, txs, height, strict).Some?
    ensures Bounded(ApplyAll(m, txs, height, strict).value, bound)
    decreases |txs|
  {
    if txs != [] {
      if !txs[0].IsCoinBase() {
        SpendBounded(m, txs[0].input, strict, bound);
      }
      AddBounded(SpendTx(m, txs[0], strict).value, txs[0].Txid(), txs[0].output, 0, height, bound);
      ApplyAllBounded(Apply(m, txs[0], height, strict).value, txs[1..], height, strict, bound);
    }
  }

  lemma {:induction false} ReplayBounded(m: Entries, blocks: seq<Block>, height: nat, strict: bool, bound: nat)
    requires height + |blocks| <= bound + 1 && Bounded(m, bound) && Replay(m, blocks, height, strict).Some?
    ensures Bounded(Replay(m, blocks, height, strict).value, bound)
    decreases |blocks|
  {
    if blocks != [] {
      ApplyAllBounded(m, blocks[0].txdata, height, strict, bound);
      ReplayBounded(ApplyAll(m, blocks[0].txdata, height, strict).value, blocks[1..], height + 1, strict, bound);
    }
  }

  /** Every output of `m'` is one of `m`, unchanged, or was recorded with the height `height`. */
  ghost predicate OnlyAddedAt(m: Entries, m': Entries, height: nat)
  {
    forall op | op in m' :: (op in m && m'[op] == m[op]) || m'[op].height == height
  }

  lemma {:induction false} SpendAddsNothing(m: Entries, inputs: seq<TxIn>, strict: bool, height: nat)
    requires Spend(m, inputs, strict).Some?
    ensures OnlyAddedAt(m, Spend(m, inputs, strict).value, height)
    decreases |inputs|
  {
    if inputs != [] {
      var op := inputs[0].previousOutput;
      SpendAddsNothing(if op in m then m - {op} else m, inputs[1..], strict, height);
    }
  }

  lemma {:induction false} AddAddsAt(m: Entries, txid: Txid, outputs: seq<TxOut>, vout: nat, height: nat)
    requires vout <= |outputs| && AddFrom(m, txid, outputs, vout, height).Some?
    ensures OnlyAddedAt(m, AddFrom(m, txid, outputs, vout, height).value, height)
    decreases |outputs| - vout
  {
    if vout < |outputs| {
      AddAddsAt(m[OutPoint(txid, vout) := Utxo(outputs[vout], height)], txid, outputs, vout + 1, height);
    }
  }

  lemma {:induction false} ApplyAllAddsAt(m: Entries, txs: seq<Transaction>, height: nat, strict: bool)
    requires ApplyAll(m, txs, height, strict).Some?
    ensures OnlyAddedAt(m, ApplyAll(m, txs, height, strict).value, height)
    decreases |txs|
  {
    if txs != [] {
      if !txs[0].IsCoinBase() {
        SpendAddsNothing(m, txs[0].input, strict, height);
      }
      AddAddsAt(SpendTx(m, txs[0], strict).value, txs[0].Txid(), txs[0].output, 0, height);
      ApplyAllAddsAt(Apply(m, txs[0], height, strict).value, txs[1..], height, strict);
    }
  }

  // ---------- The indexed set follows the ledger whenever it does not panic ----------

  lemma {:induction false} SpendInputsEntries(u: Indexed, inputs: seq<TxIn>, strict: bool, network: Network)
    requires SpendInputs(u, inputs, strict, network).Some?
    ensures Spend(u.entries, inputs, strict) == Some(SpendInputs(u, inputs, strict, network).value.entries)
    decreases |inputs|
  {
    if inputs != [] {
      SpendInputsEntries(SpendOne(u, inputs[0].previousOutput, strict, network).value, inputs[1..], strict, network);
    }
  }

  lemma {:induction false} InsertFromEntries(
    u: Indexed, txid: Txid, outputs: seq<TxOut>, vout: nat, height: nat, network: Network)
    requires vout <= |outputs| && InsertFrom(u, txid, outputs, vout, height, network).Some?
    ensures AddFrom(u.entries, txid, outputs, vout, height)
         == Some(InsertFrom(u, txid, outputs, vout, height, network).value.entries)
    decreases |outputs| - vout
  {
    if vout < |outputs| {
      var u' := InsertOutpoint(u, OutPoint(txid, vout), outputs[vout], height, network).value;
      InsertFromEntries(u', txid, outputs, vout + 1, height, network);
    }
  }

  lemma {:induction false} InsertAllEntries(u: Indexed, txs: seq<Transaction>, height: nat, strict: bool, network: Network)
    requires InsertAll(u, txs, height, strict, network).Some?
    ensures ApplyAll(u.entries, txs, height, strict) == Some(InsertAll(u, txs, height, strict, network).value.entries)
    decreases |txs|
  {
    if txs != [] {
      var tx := txs[0];
      if !tx.IsCoinBase() {
        SpendInputsEntries(u, tx.input, strict, network);
      }
      InsertFromEntries(RemoveSpent(u, tx, strict, network).value, tx.Txid(), tx.output, 0, height, network);
      InsertAllEntries(InsertTx(u, tx, height, strict, network).value, txs[1..], height, strict, network);
    }
  }

  // ---------- The log of final blocks ----------

  /** The outputs left by a log from genesis on. Genesis is recorded with height 1, and block `i` after it with height `i`. */
  ghost function ReplayLog(log: seq<Block>): Option<Entries>
    requires log != []
    decreases |log|
  {
    var n := |log| - 1;
    if n == 0 then
      ApplyAll(map[], log[0].txdata, 1, true)
    else
      var m :- ReplayLog(log[..n]);
      ApplyAll(m, log[n].txdata, n, true)
  }

  lemma {:induction false} ReplayLogSnoc(log: seq<Block>, last: Block)
    requires log != [] && ReplayLog(log).Some?
    ensures ReplayLog(log + [last]) == ApplyAll(ReplayLog(log).value, last.txdata, |log|, true)
  {
    assert (log + [last])[..|log|] == log;
  }

  ghost predicate IsLog(log: seq<Block>)
  {
    log != [] && forall i | 1 <= i < |log| :: log[i].Prev() == log[i - 1].Hash()
  }

  /** The state `s` is what the final blocks `log` and some unstable blocks lead to. */
  ghost predicate RefinesLog(s: Snapshot, log: seq<Block>)
  {
    && IsLog(log) && s.height == |log|
    && s.anchor == log[|log| - 1].Hash()
    && ReplayLog(log) == Some(s.utxos.entries)
    && Bounded(s.utxos.entries, s.height)
    && WellAnchored(s.trees, s.anchor)
  }

  /** Well-formed delivery to a state. */
  ghost predicate Arrives(s: Snapshot, block: Block)
  {
    Deliverable(s.trees, block) && block.Hash() != s.anchor
  }

  lemma NewRefines(delta: nat, network: Network, genesis: Block)
    requires New(delta, network, genesis).Some?
    ensures RefinesLog(New(delta, network, genesis).value, [genesis])
  {
    InsertAllEntries(EMPTY, genesis.txdata, 1, true, network);
    ApplyAllBounded(map[], genesis.txdata, 1, true, 1);
  }

  lemma ExtendedLogRefines(s: Snapshot, log: seq<Block>, b: Block, utxos: Indexed, rest: seq<BlockTree>)
    requires RefinesLog(s, log) && b.Prev() == s.anchor && WellAnchored(rest, b.Hash())
    requires ApplyAll(s.utxos.entries, b.txdata, s.height, true) == Some(utxos.entries)
    ensures RefinesLog(s.(height := s.height + 1, anchor := b.Hash(), utxos := utxos, trees := rest), log + [b])
  {
    ApplyAllBounded(s.utxos.entries, b.txdata, s.height, true, s.height + 1);
    ReplayLogSnoc(log, b);
  }

  lemma OtherTreesRefine(s: Snapshot, log: seq<Block>, rest: seq<BlockTree>)
    requires RefinesLog(s, log) && WellAnchored(rest, s.anchor)
    ensures RefinesLog(s.(trees := rest), log)
  {
  }

  /** Finalising a block appends it to the log. */
  lemma FinaliseRefines(s: Snapshot, log: seq<Block>)
    requires RefinesLog(s, log) && Finalise(s).Some?
    ensures RefinesLog(Finalise(s).value, log + match Popped(s.delta, s.trees, s.anchor).0 case Some(b) => [b] case None => [])
  {
    assert WellAnchored(s.trees, s.anchor);
    hide RefinesLog, WellAnchored, Popped, InsertAll, ApplyAll;
    var (popped, rest) := Popped(s.delta, s.trees, s.anchor);
    PopKeepsWellFormed(s.delta, s.trees, s.anchor);
    match popped
    case None =>
      OtherTreesRefine(s, log, rest);
      assert log + [] == log;
    case Some(b) =>
      InsertAllEntries(s.utxos, b.txdata, s.height, true, s.network);
      ExtendedLogRefines(s, log, b, InsertAll(s.utxos, b.txdata, s.height, true, s.network).value, rest);
  }

  /** The `assert_eq` in `insert_block` cannot fail: only an error in the transactions can. */
  lemma PoppedExtendsAnchor(s: Snapshot)
    requires Popped(s.delta, s.trees, s.anchor).0.Some?
    ensures Popped(s.delta, s.trees, s.anchor).0.value.Prev() == s.anchor
  {
    var t, _ := PopConserves(s.delta, s.trees, s.anchor);
  }

  /** The block that an insertion finalises, if any. */
  ghost function FinalisedBy(s: Snapshot, block: Block): seq<Block>
  {
    match Popped(s.delta, Pushed(s.trees, block), s.anchor).0
    case Some(b) => [b]
    case None => []
  }

  lemma PushKeepsRefines(s: Snapshot, log: seq<Block>, block: Block)
    requires RefinesLog(s, log) && Arrives(s, block)
    ensures RefinesLog(s.(trees := Pushed(s.trees, block)), log)
    ensures WellAnchored(Pushed(s.trees, block), s.anchor)
  {
    PushKeepsWellFormed(s.trees, block);
  }

  lemma InsertBlockRefines(s: Snapshot, log: seq<Block>, block: Block)
    requires RefinesLog(s, log) && Arrives(s, block) && InsertBlock(s, block).Some?
    ensures RefinesLog(InsertBlock(s, block).value, log + FinalisedBy(s, block))
  {
    PushKeepsRefines(s, log, block);
    FinaliseRefines(s.(trees := Pushed(s.trees, block)), log);
  }

  // ---------- Runs ----------

  ghost function Run(s: Snapshot, blocks: seq<Block>): Option<Snapshot>
    decreases |blocks|
  {
    if blocks == [] then
      Some(s)
    else
      var s' :- InsertBlock(s, blocks[0]);
      Run(s', blocks[1..])
  }

  ghost predicate WellDeliveredRun(s: Snapshot, blocks: seq<Block>)
    decreases |blocks|
  {
    blocks == [] ||
    (Arrives(s, blocks[0]) && (InsertBlock(s, blocks[0]).Some? ==> WellDeliveredRun(InsertBlock(s, blocks[0]).value, blocks[1..])))
  }

  /** The blocks that a run finalises, in order. */
  ghost function FinalisedIn(s: Snapshot, blocks: seq<Block>): seq<Block>
    requires Run(s, blocks).Some?
    decreases |blocks|
  {
    if blocks == [] then [] else FinalisedBy(s, blocks[0]) + FinalisedIn(InsertBlock(s, blocks[0]).value, blocks[1..])
  }

  /**
   Over every run without panics, the final blocks form a hash-linked log, the height is its
   length, and the unspent outputs are those of replaying it from nothing.
   */
  lemma {:induction false} RunRefinesLog(s: Snapshot, log: seq<Block>, blocks: seq<Block>)
    requires RefinesLog(s, log) && WellDeliveredRun(s, blocks) && Run(s, blocks).Some?
    ensures RefinesLog(Run(s, blocks).value, log + FinalisedIn(s, blocks))
    decreases |blocks|
  {
    if blocks == [] {
      assert log + [] == log;
    } else {
      var s' := InsertBlock(s, blocks[0]).value;
      InsertBlockRefines(s, log, blocks[0]);
      RunRefinesLog(s', log + FinalisedBy(s, blocks[0]), blocks[1..]);
      ConcatIsAssociative(log, FinalisedBy(s, blocks[0]), FinalisedIn(s', blocks[1..]));
    }
  }

  /** The log only grows: a longer run finalises what a shorter one did, and then perhaps more. */
  lemma {:induction false} LogOnlyGrows(s: Snapshot, blocks: seq<Block>, more: seq<Block>)
    requires Run(s, blocks + more).Some?
    ensures Run(s, blocks).Some? && Run(Run(s, blocks).value, more) == Run(s, blocks + more)
    ensures FinalisedIn(s, blocks + more) == FinalisedIn(s, blocks) + FinalisedIn(Run(s, blocks).value, more)
    decreases |blocks|
  {
    if blocks == [] {
      assert [] + more == more;
    } else {
      TailOfConcat(blocks, more);
      var s' := InsertBlock(s, blocks[0]).value;
      LogOnlyGrows(s', blocks[1..], more);
      ConcatIsAssociative(FinalisedBy(s, blocks[0]), FinalisedIn(s', blocks[1..]), FinalisedIn(Run(s', blocks[1..]).value, more));
    }
  }

  /** Parent-first delivery is well-formed delivery, over whole runs. */
  ghost predicate ParentFirstRun(s: Snapshot, blocks: seq<Block>)
    decreases |blocks|
  {
    blocks == [] ||
    (ParentFirst(s.trees, s.anchor, blocks[0])
     && (InsertBlock(s, blocks[0]).Some? ==> ParentFirstRun(InsertBlock(s, blocks[0]).value, blocks[1..])))
  }

  lemma {:induction false} ParentFirstRunIsWellDelivered(s: Snapshot, log: seq<Block>, blocks: seq<Block>)
    requires RefinesLog(s, log) && AllAttached(s.trees, s.anchor) && ParentFirstRun(s, blocks)
    ensures WellDeliveredRun(s, blocks)
    decreases |blocks|
  {
    if blocks != [] {
      var pushed := Pushed(s.trees, blocks[0]);
      ParentFirstIsDeliverable(s.trees, s.anchor, blocks[0]);
      PopKeepsAttached(s.delta, pushed, s.anchor);
      var r := InsertBlock(s, blocks[0]);
      if r.Some? {
        InsertBlockRefines(s, log, blocks[0]);
        ParentFirstRunIsWellDelivered(r.value, log + FinalisedBy(s, blocks[0]), blocks[1..]);
      }
    }
  }
}
