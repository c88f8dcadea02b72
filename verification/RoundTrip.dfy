/**
 A state that was serialised and read back is as good as the original.
 */
module RoundTrip {
  import opened Wrappers
  import opened Bitcoin
  import opened Sequences
  import opened BlockTrees
  import opened BlockForests
  import opened Finality
  import opened ForestInvariants
  import opened Ledger
  import opened UtxoIndex
  import opened IndexAgreement
  import opened ChainState
  import opened StateInvariants
  import opened Queries
  import opened Runs
  import opened Serialization

  // ---------- The rebuilt index ----------

  /** Inserting the next listed output: it is new, so it is accepted and the index still agrees. */
  lemma OneListed(m: Entries, done: seq<OutPoint>, op: OutPoint, u: Indexed, network: Network)
    requires op in m && op !in done && IndexAgrees(u, network) && u.entries == Selected(m, done)
    ensures var r := InsertOutpoint(u, op, m[op].output, m[op].height, network);
      r.Some? && r.value.entries == Selected(m, done + [op]) && IndexAgrees(r.value, network)
  {
    SelectedGrows(m, done, op);
    InsertOutpointAgreesIff(u, op, m[op].output, m[op].height, network);
  }

  lemma ListedUnfolds(u: Indexed, op: OutPoint, utxo: Utxo, messages: seq<UtxoMessage>, network: Network)
    requires messages != [] && messages[0] == UtxoToProto(op, utxo)
    requires InsertOutpoint(u, op, utxo.output, utxo.height, network).Some?
    ensures InsertListed(u, messages, network)
         == InsertListed(InsertOutpoint(u, op, utxo.output, utxo.height, network).value, messages[1..], network)
  {
  }

  lemma NotInFront(order: seq<OutPoint>, i: nat)
    requires i < |order| && forall j, k | 0 <= j < k < |order| :: order[j] != order[k]
    ensures order[i] !in order[..i]
  {
  }

  lemma {:induction false} ListedRebuilds(m: Entries, order: seq<OutPoint>, i: nat, u: Indexed, network: Network)
    requires IsOrderOf(order, m) && i <= |order|
    requires IndexAgrees(u, network) && u.entries == Selected(m, order[..i])
    ensures var r := InsertListed(u, EntriesToProto(m, order)[i..], network);
      r.Some? && r.value.entries == m && IndexAgrees(r.value, network)
    decreases |order| - i
  {
    var messages := EntriesToProto(m, order);
    if i == |order| {
      assert order[..i] == order;
    } else {
      hide InsertOutpoint, IndexAgrees, InsertListed, UtxoToProto, Selected;
      var op := order[i];
      assert op in order;
      SliceStep(order, i);
      SliceStep(messages, i);
      NotInFront(order, i);
      OneListed(m, order[..i], op, u, network);
      ListedUnfolds(u, op, m[op], messages[i..], network);
      ListedRebuilds(m, order, i + 1, InsertOutpoint(u, op, m[op].output, m[op].height, network).value, network);
    }
  }

  /** Two indexes that agree with the same map differ only in the order of their lists, unless a duplicate id is present. */
  lemma IndexIsUniqueUpToOrder(u: Indexed, v: Indexed, a: Address, network: Network)
    requires IndexAgrees(u, network) && IndexAgrees(v, network) && u.entries == v.entries
    requires forall op | op in u.entries :: op.txid !in DUPLICATE_TX_IDS
    ensures a in u.index <==> a in v.index
    ensures a in u.index ==> multiset(u.index[a]) == multiset(v.index[a])
  {
    if a in u.index {
      ListedInBoth(u, v, a, network);
    }
    if a in v.index {
      ListedInBoth(v, u, a, network);
    }
    if a in u.index && a in v.index {
      forall op
        ensures multiset(u.index[a])[op] == multiset(v.index[a])[op]
      {
        InBag(u.index[a]);
        InBag(v.index[a]);
        if op in u.entries {
          assert IsListed(u, op, network) && IsListed(v, op, network);
        }
      }
    }
  }

  lemma ListedInBoth(u: Indexed, v: Indexed, a: Address, network: Network)
    requires IndexAgrees(u, network) && IndexAgrees(v, network) && u.entries == v.entries && a in u.index
    ensures a in v.index
  {
    var op := u.index[a][0];
    assert op in u.index[a];
    assert IsListed(v, op, network);
  }

  lemma StartsEmpty(m: Entries, network: Network)
    ensures EMPTY.entries == Selected(m, []) && IndexAgrees(EMPTY, network)
  {
  }

  // ---------- States that differ in the order of their index ----------

  /** The same state, but for the order of the outpoints of each address. */
  ghost predicate Alike(s: Snapshot, t: Snapshot)
  {
    && t == s.(utxos := t.utxos) && t.utxos.entries == s.utxos.entries
    && Healthy(s) && Healthy(t)
  }

  /**
   The round trip: for every iteration order of the map, reading back the record of a state yields
   the same height, anchor, forest and outputs, and an index that agrees with them. The record says
   whether the set is strict.
   */
  lemma StateRoundTrip(s: Snapshot, strict: bool, order: seq<OutPoint>)
    requires Healthy(s) && IsOrderOf(order, s.utxos.entries)
    ensures var m := StateToProto(s, strict, order);
      && m.utxos.Some? && m.utxos.value.strict == strict
      && StateFromProto(m).Some? && Alike(s, StateFromProto(m).value)
  {
    hide InsertListed, IndexAgrees, Selected, EntriesToProto;
    TreesRoundTrip(s.trees);
    StartsEmpty(s.utxos.entries, s.network);
    assert order[..0] == [];
    ListedRebuilds(s.utxos.entries, order, 0, EMPTY, s.network);
    assert EntriesToProto(s.utxos.entries, order)[0..] == EntriesToProto(s.utxos.entries, order);
    assert NetworkFromProto(NetworkToProto(s.network)) == Some(s.network);
  }

  /** Saving a state and reading it back yields another state, as strict as the first and alike. */
  method SaveAndRestore(state: Store.State, order: seq<OutPoint>) returns (r: Option<Store.State>)
    requires state.Valid() && Healthy(state.View()) && IsOrderOf(order, state.utxos.utxos)
    ensures r.Some? && fresh(r.value) && r.value.Valid() && Alike(state.View(), r.value.View())
  {
    StateRoundTrip(state.View(), true, order);
    var m := ToProto(state, order);
    r := NewStateFromProto(m);
  }

  lemma AlikeLedgers(s: Snapshot, t: Snapshot, a: Address, c: nat)
    requires t == s.(utxos := t.utxos) && t.utxos.entries == s.utxos.entries
    ensures LedgerAnswer(s, a, c) == LedgerAnswer(t, a, c)
  {
    assert t.Chain() == s.Chain();
  }

  /** Alike states answer every query alike. */
  lemma AlikeQueries(s: Snapshot, t: Snapshot, a: Address, c: nat)
    requires Alike(s, t) && WellAnchored(s.trees, s.anchor) && DuplicatesRepeat()
    ensures Query(s, a, c) == Query(t, a, c)
  {
    HealthyQuery(s, a, c);
    HealthyQuery(t, a, c);
    AlikeLedgers(s, t, a, c);
  }

  lemma AlikeInsertAll(u: Indexed, v: Indexed, txs: seq<Transaction>, height: nat, strict: bool, network: Network)
    requires Sound(u, network) && Sound(v, network) && u.entries == v.entries
    requires DuplicatesRepeat() && forall tx | tx in txs :: SpendsNoDuplicate(tx)
    ensures var r, q := InsertAll(u, txs, height, strict, network), InsertAll(v, txs, height, strict, network);
      if r.None? then q.None? else q.Some? && q.value.entries == r.value.entries
  {
    hide Sound, InsertAll, ApplyAll;
    InsertAllRefines(u, txs, height, strict, network);
    InsertAllRefines(v, txs, height, strict, network);
  }

  lemma AlikeFinalise(s: Snapshot, t: Snapshot)
    requires Alike(s, t) && DuplicatesRepeat()
    ensures Finalise(s).Some? <==> Finalise(t).Some?
    ensures Finalise(s).Some? ==> Alike(Finalise(s).value, Finalise(t).value)
  {
    hide Popped, InsertAll, Sound, IsSpendable, DuplicatesRepeat;
    var (popped, rest) := Popped(s.delta, s.trees, s.anchor);
    if popped.Some? {
      PoppedIsSpendable(s);
      AlikeInsertAll(s.utxos, t.utxos, popped.value.txdata, s.height, true, s.network);
    }
    if Finalise(s).Some? {
      FinaliseKeepsHealthy(s);
      FinaliseKeepsHealthy(t);
      hide Healthy;
    }
  }

  lemma PoppedIsSpendable(s: Snapshot)
    requires Healthy(s) && Popped(s.delta, s.trees, s.anchor).0.Some?
    ensures forall tx | tx in Popped(s.delta, s.trees, s.anchor).0.value.txdata :: SpendsNoDuplicate(tx)
  {
    var tree, _ := PopConserves(s.delta, s.trees, s.anchor);
    assert tree.root in BagOf(s.trees);
  }

  /** Alike states accept the same insertions, and stay alike. */
  lemma AlikeInsertions(s: Snapshot, t: Snapshot, block: Block)
    requires Alike(s, t) && DuplicatesRepeat() && IsSpendable(block)
    ensures InsertBlock(s, block).Some? <==> InsertBlock(t, block).Some?
    ensures InsertBlock(s, block).Some? ==> Alike(InsertBlock(s, block).value, InsertBlock(t, block).value)
  {
    PushConserves(s.trees, block);
    AlikeFinalise(s.(trees := Pushed(s.trees, block)), t.(trees := Pushed(t.trees, block)));
  }

  /** After a round trip, every later run is accepted or rejected as before and ends in an alike state. */
  lemma {:induction false} AlikeRuns(s: Snapshot, t: Snapshot, blocks: seq<Block>)
    requires Alike(s, t) && DuplicatesRepeat() && forall b | b in blocks :: IsSpendable(b)
    ensures Run(s, blocks).Some? <==> Run(t, blocks).Some?
    ensures Run(s, blocks).Some? ==> Alike(Run(s, blocks).value, Run(t, blocks).value)
    decreases |blocks|
  {
    if blocks != [] {
      AlikeInsertions(s, t, blocks[0]);
      if InsertBlock(s, blocks[0]).Some? {
        AlikeRuns(InsertBlock(s, blocks[0]).value, InsertBlock(t, blocks[0]).value, blocks[1..]);
      }
    }
  }
}
