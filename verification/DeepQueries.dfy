/**
 Queries for more confirmations than the current chain is long. Such a query sees final blocks
 only, so making a block final can change its answer: here is how, and exactly when.
 */
module DeepQueries {
  import opened Wrappers
  import opened Bitcoin
  import opened BlockForests
  import opened ForestInvariants
  import opened Ledger
  import opened UtxoIndex
  import opened IndexAgreement
  import opened ChainState
  import opened Queries

  // ---------- What transactions do to an output ----------

  /** The last thing that transactions do to an outpoint. */
  datatype Fate = Untouched | Spent | Created(output: TxOut)

  ghost predicate Spends(inputs: seq<TxIn>, op: OutPoint)
  {
    exists i :: 0 <= i < |inputs| && inputs[i].previousOutput == op
  }

  /** A transaction first spends its inputs, then creates its outputs. */
  ghost function FateByTx(tx: Transaction, op: OutPoint): Fate
  {
    if op.txid == tx.Txid() && op.vout < |tx.output| then Created(tx.output[op.vout])
    else if !tx.IsCoinBase() && Spends(tx.input, op) then Spent
    else Untouched
  }

  ghost function FateBy(txs: seq<Transaction>, op: OutPoint): Fate
  {
    if txs == [] then
      Untouched
    else
      var later := FateBy(txs[1..], op);
      if later == Untouched then FateByTx(txs[0], op) else later
  }

  /** Does the ledger `m'` hold for `op` what its fate makes of the ledger `m`? */
  ghost predicate Befalls(fate: Fate, m: Entries, m': Entries, op: OutPoint, height: nat)
  {
    match fate
    case Untouched => (op in m' <==> op in m) && (op in m ==> m'[op] == m[op])
    case Spent => op !in m'
    case Created(output) => op in m' && m'[op] == Utxo(output, height)
  }

  lemma {:induction false} SpendFate(m: Entries, inputs: seq<TxIn>, strict: bool, op: OutPoint, height: nat)
    requires Spend(m, inputs, strict).Some?
    ensures Befalls(if Spends(inputs, op) then Spent else Untouched, m, Spend(m, inputs, strict).value, op, height)
    decreases |inputs|
  {
    if inputs != [] {
      var first := inputs[0].previousOutput;
      SpendFate(if first in m then m - {first} else m, inputs[1..], strict, op, height);
      assert Spends(inputs, op) <==> first == op || Spends(inputs[1..], op) by {
        assert inputs == [inputs[0]] + inputs[1..];
      }
    }
  }

  lemma {:induction false} AddFate(m: Entries, txid: Txid, outputs: seq<TxOut>, vout: nat, height: nat, op: OutPoint)
    requires vout <= |outputs| && AddFrom(m, txid, outputs, vout, height).Some?
    ensures Befalls(if op.txid == txid && vout <= op.vout < |outputs| then Created(outputs[op.vout]) else Untouched,
                    m, AddFrom(m, txid, outputs, vout, height).value, op, height)
    decreases |outputs| - vout
  {
    if vout < |outputs| {
      AddFate(m[OutPoint(txid, vout) := Utxo(outputs[vout], height)], txid, outputs, vout + 1, height, op);
    }
  }

  lemma TxFate(m: Entries, tx: Transaction, height: nat, strict: bool, op: OutPoint)
    requires Apply(m, tx, height, strict).Some?
    ensures Befalls(FateByTx(tx, op), m, Apply(m, tx, height, strict).value, op, height)
  {
    if !tx.IsCoinBase() {
      SpendFate(m, tx.input, strict, op, height);
    }
    AddFate(SpendTx(m, tx, strict).value, tx.Txid(), tx.output, 0, height, op);
  }

  /** The fate, read off the transactions alone, is what happens in any ledger that accepts them. */
  lemma {:induction false} FateIsExact(m: Entries, txs: seq<Transaction>, height: nat, strict: bool, op: OutPoint)
    requires ApplyAll(m, txs, height, strict).Some?
    ensures Befalls(FateBy(txs, op), m, ApplyAll(m, txs, height, strict).value, op, height)
    decreases |txs|
  {
    if txs != [] {
      TxFate(m, txs[0], height, strict, op);
      FateIsExact(Apply(m, txs[0], height, strict).value, txs[1..], height, strict, op);
    }
  }

  // ---------- Before and after a block is made final ----------

  ghost predicate CreatesFor(
    txs: seq<Transaction>, t: (OutPoint, TxOut, nat), a: Address, network: Network, height: nat)
  {
    FateBy(txs, t.0) == Created(t.1) && Owner(t.1, network) == Some(a) && t.2 == height
  }

  /** The answers on the ledger alone: `n` is the length of the current chain before. */
  lemma LedgersBeyond(
    m0: Entries, m1: Entries, txs: seq<Transaction>, h: nat, n: nat, c: nat, a: Address, network: Network,
    t: (OutPoint, TxOut, nat))
    requires c > n && ApplyAll(m0, txs, h, true) == Some(m1)
    ensures t in Confirmed(IntoSet(OwnedBy(m1, a, network)), n + h, c) <==>
      || (t in Confirmed(IntoSet(OwnedBy(m0, a, network)), n + h, c) && FateBy(txs, t.0) == Untouched)
      || (c == n + 1 && CreatesFor(txs, t, a, network, h))
  {
    FateIsExact(m0, txs, h, true, t.0);
    InIntoSet(OwnedBy(m0, a, network), t);
    InIntoSet(OwnedBy(m1, a, network), t);
  }

  lemma InIntoSet(m: Entries, t: (OutPoint, TxOut, nat))
    ensures t in IntoSet(m) <==> t.0 in m && m[t.0] == Utxo(t.1, t.2)
  {
    if t.0 in m && m[t.0] == Utxo(t.1, t.2) {
      assert t == (t.0, m[t.0].output, m[t.0].height);
    }
  }

  /**
   The answer after a block was made final, for more confirmations than the current chain is long.
   It keeps what the block leaves untouched. At one confirmation more than the length of the chain
   it gains what the block creates, because that is recorded one lower than while it was unstable.
   */
  lemma AnswerBeyond(s: Snapshot, s': Snapshot, b: Block, a: Address, c: nat)
    requires s.delta >= 1 && WellAnchored(s.trees, s.anchor) && IsFinalisation(s, s', b)
    requires Sound(s.utxos, s.network) && DuplicatesRepeat() && Spendable(s.Chain()) && c > |s.Chain()|
    ensures Query(s, a, c).Some? && Query(s', a, c).Some?
    ensures forall t :: t in Query(s', a, c).value <==>
      || (t in Query(s, a, c).value && FateBy(b.txdata, t.0) == Untouched)
      || (c == |s.Chain()| + 1 && CreatesFor(b.txdata, t, a, s.network, s.height))
  {
    hide Query, WellAnchored, Sound, ApplyAll, CurrentChain;
    FinalisationMovesHead(s, s', b);
    FinalisationKeepsSound(s, s', b);
    BeyondTheChain(s, a, c);
    BeyondTheChain(s', a, c);
    forall t {
      LedgersBeyond(s.utxos.entries, s'.utxos.entries, b.txdata, s.height, |s.Chain()|, c, a, s.network, t);
    }
  }

  /** The block neither spends nor rewrites an output of the answer, unless it puts back the very same. */
  ghost predicate LeavesAlone(txs: seq<Transaction>, answer: Answer, height: nat)
  {
    forall t | t in answer :: FateBy(txs, t.0) == Untouched || (FateBy(txs, t.0) == Created(t.1) && t.2 == height)
  }

  /** The block creates no output for the address that the answer does not hold already. */
  ghost predicate AddsNothing(txs: seq<Transaction>, answer: Answer, a: Address, network: Network, height: nat)
  {
    forall t | CreatesFor(txs, t, a, network, height) :: t in answer
  }

  /**
   Exactly when making a block final is invisible to a query for more confirmations than the
   current chain is long: the block must leave the outputs of the answer alone and, at one
   confirmation more than the length of the chain, add none to it.
   */
  lemma FinalisationIsInvisibleBeyondIff(s: Snapshot, s': Snapshot, b: Block, a: Address, c: nat)
    requires s.delta >= 1 && WellAnchored(s.trees, s.anchor) && IsFinalisation(s, s', b)
    requires Sound(s.utxos, s.network) && DuplicatesRepeat() && Spendable(s.Chain()) && c > |s.Chain()|
    ensures Query(s, a, c).Some? && Query(s', a, c).Some?
    ensures Query(s', a, c) == Query(s, a, c) <==>
      && LeavesAlone(b.txdata, Query(s, a, c).value, s.height)
      && (c == |s.Chain()| + 1 ==> AddsNothing(b.txdata, Query(s, a, c).value, a, s.network, s.height))
  {
    hide Sound, CurrentChain, FateBy, IsFinalisation, Query, DuplicatesRepeat;
    BeyondTheChain(s, a, c);
    AnswerBeyond(s, s', b, a, c);
    SameAnswerIff(b.txdata, Query(s, a, c).value, Query(s', a, c).value, OwnedBy(s.utxos.entries, a, s.network),
                  |s.Chain()|, c, s.height, a, s.network);
  }

  lemma SameAnswerIff(
    txs: seq<Transaction>, answer: Answer, answer': Answer, mine: Entries, n: nat, c: nat, h: nat,
    a: Address, network: Network)
    requires c > n && answer == Confirmed(IntoSet(mine), n + h, c) && mine == OwnedBy(mine, a, network)
    requires forall t :: t in answer' <==>
      (t in answer && FateBy(txs, t.0) == Untouched) || (c == n + 1 && CreatesFor(txs, t, a, network, h))
    ensures answer' == answer <==>
      LeavesAlone(txs, answer, h) && (c == n + 1 ==> AddsNothing(txs, answer, a, network, h))
  {
    forall t | t in answer
      ensures Owner(t.1, network) == Some(a) && (t.2 == h ==> c == n + 1)
    {
      InIntoSet(mine, t);
    }
    if LeavesAlone(txs, answer, h) && (c == n + 1 ==> AddsNothing(txs, answer, a, network, h)) {
      assert forall t :: t in answer' <==> t in answer;
    }
  }

  /** An output that the block spends is in the answer before, and not in it after. */
  lemma SpentOutputVanishes(s: Snapshot, s': Snapshot, b: Block, a: Address, c: nat, op: OutPoint)
    requires s.delta >= 1 && WellAnchored(s.trees, s.anchor) && IsFinalisation(s, s', b)
    requires Sound(s.utxos, s.network) && DuplicatesRepeat() && Spendable(s.Chain())
    requires op in OwnedBy(s.utxos.entries, a, s.network) && FateBy(b.txdata, op) == Spent
    requires |s.Chain()| < c <= s.MainChainHeight() - s.utxos.entries[op].height + 1
    ensures Query(s, a, c).Some? && Query(s', a, c).Some?
    ensures (op, s.utxos.entries[op].output, s.utxos.entries[op].height) in Query(s, a, c).value
    ensures forall t | t in Query(s', a, c).value :: t.0 != op
  {
    hide Sound, CurrentChain, FateBy, IsFinalisation, Query, DuplicatesRepeat, WellAnchored;
    var t := (op, s.utxos.entries[op].output, s.utxos.entries[op].height);
    BeyondTheChain(s, a, c);
    InIntoSet(OwnedBy(s.utxos.entries, a, s.network), t);
    AnswerBeyond(s, s', b, a, c);
  }
}
