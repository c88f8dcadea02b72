/**
 When creating a state, inserting a block, or a whole run panics, and the state that they lead to
 otherwise.
 */
module Acceptance {
  import opened Wrappers
  import opened Bitcoin
  import opened Sequences
  import opened BlockTrees
  import opened BlockForests
  import opened ForestInvariants
  import opened Finality
  import opened Ledger
  import opened UtxoIndex
  import opened IndexAgreement
  import opened ChainState
  import opened StateInvariants
  import opened Runs

  /** Exactly when creating a state panics, and the whole state otherwise. */
  lemma NewIff(delta: nat, network: Network, genesis: Block)
    requires IsSpendable(genesis) && DuplicatesRepeat()
    ensures var r, m := New(delta, network, genesis), ApplyAll(map[], genesis.txdata, 1, true);
      && (r.Some? <==> m.Some?)
      && (r.Some? ==>
            && r.value.delta == delta && r.value.network == network && r.value.height == 1
            && r.value.anchor == genesis.Hash() && r.value.utxos.entries == m.value && r.value.trees == [])
  {
    assert Sound(EMPTY, network);
    hide InsertAll, ApplyAll;
    InsertAllRefines(EMPTY, genesis.txdata, 1, true, network);
  }

  /** If a block became final, the state has taken it into account; otherwise only the forest changed. */
  ghost predicate IsAfter(s: Snapshot, s': Snapshot, finalised: seq<Block>, rest: seq<BlockTree>)
    requires |finalised| <= 1
  {
    && s'.delta == s.delta && s'.network == s.network && s'.trees == rest
    && if finalised == [] then
         s'.height == s.height && s'.anchor == s.anchor && s'.utxos == s.utxos
       else
         && s'.height == s.height + 1 && s'.anchor == finalised[0].Hash()
         && ApplyAll(s.utxos.entries, finalised[0].txdata, s.height, true) == Some(s'.utxos.entries)
  }

  /**
   Exactly when an insertion panics: when it makes a block final that the ledger of final blocks
   does not accept. Otherwise the new state has the trees that `push` and `pop` leave, and if a block
   became final, its outputs, its hash as the anchor, and a height one higher.
   */
  lemma InsertBlockIff(s: Snapshot, block: Block)
    requires Healthy(s) && IsSpendable(block) && DuplicatesRepeat()
    ensures InsertBlock(s, block).Some? <==>
      forall b | b in FinalisedBy(s, block) :: ApplyAll(s.utxos.entries, b.txdata, s.height, true).Some?
    ensures InsertBlock(s, block).Some? ==>
      IsAfter(s, InsertBlock(s, block).value, FinalisedBy(s, block),
              Popped(s.delta, Pushed(s.trees, block), s.anchor).1)
  {
    var pushed := s.(trees := Pushed(s.trees, block));
    PushConserves(s.trees, block);
    assert Healthy(pushed);
    hide Healthy, Sound, Pushed, Popped, InsertAll, ApplyAll, DuplicatesRepeat;
    if FinalisedBy(s, block) != [] {
      var b := FinalisedBy(s, block)[0];
      PoppedIsSound(pushed);
      PoppedExtendsAnchor(pushed);
      InsertAllRefines(s.utxos, b.txdata, s.height, true, s.network);
      assert b in FinalisedBy(s, block);
    }
  }

  lemma PoppedIsSound(s: Snapshot)
    requires Healthy(s) && Popped(s.delta, s.trees, s.anchor).0.Some?
    ensures Sound(s.utxos, s.network) && IsSpendable(Popped(s.delta, s.trees, s.anchor).0.value)
  {
    var tree, _ := PopConserves(s.delta, s.trees, s.anchor);
    assert tree.root in BagOf(s.trees);
  }

  /** The blocks that a run makes final if it does not panic, read off the forest alone. */
  ghost function FinalSequence(delta: nat, ts: seq<BlockTree>, anchor: BlockHash, blocks: seq<Block>): seq<Block>
    decreases |blocks|
  {
    if blocks == [] then
      []
    else
      var (popped, rest) := Popped(delta, Pushed(ts, blocks[0]), anchor);
      match popped
      case None => FinalSequence(delta, rest, anchor, blocks[1..])
      case Some(b) => [b] + FinalSequence(delta, rest, b.Hash(), blocks[1..])
  }

  /** The outputs and the height are those of the log. */
  ghost predicate HasLog(s: Snapshot, log: seq<Block>)
  {
    log != [] && s.height == |log| && ReplayLog(log) == Some(s.utxos.entries)
  }

  lemma {:induction false} ReplayOfPrefix(log: seq<Block>, more: seq<Block>)
    requires log != [] && ReplayLog(log + more).Some?
    ensures ReplayLog(log).Some?
    decreases |more|
  {
    if more == [] {
      assert log + more == log;
    } else {
      var n := |more| - 1;
      assert (log + more)[..|log + more| - 1] == log + more[..n];
      ReplayOfPrefix(log, more[..n]);
    }
  }

  lemma InsertBlockFollows(s: Snapshot, log: seq<Block>, block: Block)
    requires HasLog(s, log) && Healthy(s) && IsSpendable(block) && DuplicatesRepeat()
    ensures InsertBlock(s, block).Some? <==> ReplayLog(log + FinalisedBy(s, block)).Some?
    ensures InsertBlock(s, block).Some? ==> HasLog(InsertBlock(s, block).value, log + FinalisedBy(s, block))
  {
    InsertBlockIff(s, block);
    hide InsertBlock, ReplayLog, ApplyAll, Healthy;
    if FinalisedBy(s, block) == [] {
      assert log + [] == log;
    } else {
      var b := FinalisedBy(s, block)[0];
      assert b in FinalisedBy(s, block) && FinalisedBy(s, block) == [b];
      ReplayLogSnoc(log, b);
    }
  }

  /**
   Exactly when a run panics, in any order of delivery: when the ledger does not accept the blocks
   that the forest makes final. A run that does not panic makes exactly those final.
   */
  lemma {:induction false} RunIff(s: Snapshot, log: seq<Block>, blocks: seq<Block>)
    requires HasLog(s, log) && Healthy(s) && DuplicatesRepeat() && forall b | b in blocks :: IsSpendable(b)
    ensures Run(s, blocks).Some? <==> ReplayLog(log + FinalSequence(s.delta, s.trees, s.anchor, blocks)).Some?
    ensures Run(s, blocks).Some? ==> FinalisedIn(s, blocks) == FinalSequence(s.delta, s.trees, s.anchor, blocks)
    decreases |blocks|
  {
    if blocks == [] {
      assert log + [] == log;
    } else {
      var r, first := InsertBlock(s, blocks[0]), FinalisedBy(s, blocks[0]);
      var (popped, rest) := Popped(s.delta, Pushed(s.trees, blocks[0]), s.anchor);
      var later := FinalSequence(s.delta, rest, if popped.Some? then popped.value.Hash() else s.anchor, blocks[1..]);
      hide Healthy, ReplayLog, ApplyAll, InsertBlock, Popped, Pushed;
      InsertBlockFollows(s, log, blocks[0]);
      InsertBlockIff(s, blocks[0]);
      assert first + later == FinalSequence(s.delta, s.trees, s.anchor, blocks);
      ConcatIsAssociative(log, first, later);
      if r.Some? {
        InsertBlockKeepsHealthy(s, blocks[0]);
        RunIff(r.value, log + first, blocks[1..]);
      } else if ReplayLog(log + first + later).Some? {
        ReplayOfPrefix(log + first, later);
      }
    }
  }

  // ---------- An unforked chain ----------

  /** One in-order block: if `delta` blocks were waiting, the oldest is final next. */
  lemma SequenceStep(delta: nat, anchor: BlockHash, waiting: seq<Block>, b: Block, rest: seq<Block>)
    requires InOrder(anchor, waiting + [b])
    ensures var grown := waiting + [b];
      FinalSequence(delta, Window(waiting), anchor, [b] + rest) ==
      if |grown| <= delta then FinalSequence(delta, Window(grown), anchor, rest)
      else [grown[0]] + FinalSequence(delta, Window(grown[1..]), grown[0].Hash(), rest)
  {
    hide Window, Popped, Pushed, InOrder;
    assert ([b] + rest)[1..] == rest;
    InOrderHead(anchor, waiting + [b]);
    PushExtendsWindow(anchor, waiting, b);
    PopCutsWindow(delta, anchor, waiting + [b]);
  }

  lemma FirstOfExcess(all: seq<Block>, delta: nat)
    requires |all| > delta
    ensures [all[0]] + all[1..][..Excess(|all[1..]|, delta)] == all[..Excess(|all|, delta)]
  {
    DropAndTake(all, Excess(|all|, delta));
  }

  lemma {:induction false} InOrderSequence(delta: nat, anchor: BlockHash, waiting: seq<Block>, blocks: seq<Block>)
    requires |waiting| <= delta && InOrder(anchor, waiting + blocks)
    ensures FinalSequence(delta, Window(waiting), anchor, blocks)
         == (waiting + blocks)[..Excess(|waiting + blocks|, delta)]
    decreases |blocks|
  {
    if blocks != [] {
      hide Window, InOrder, FinalSequence;
      var b, rest := blocks[0], blocks[1..];
      var all, grown := waiting + blocks, waiting + [b];
      FirstAndTail(blocks);
      ConcatIsAssociative(waiting, [b], rest);
      InOrderParts(anchor, grown, rest);
      SequenceStep(delta, anchor, waiting, b, rest);
      if |grown| <= delta {
        InOrderSequence(delta, anchor, grown, rest);
      } else {
        var tail := all[1..];
        assert tail == grown[1..] + rest && all[0] == grown[0] by {
          TailOfConcat(grown, rest);
        }
        InOrderSequence(delta, grown[0].Hash(), grown[1..], rest);
        FirstOfExcess(all, delta);
        hide Excess;
      }
    }
  }

  lemma InOrderHead(anchor: BlockHash, blocks: seq<Block>)
    requires InOrder(anchor, blocks) && blocks != []
    ensures blocks[0].Prev() == anchor
  {
  }

  lemma ReplayOfGenesis(genesis: Block)
    ensures ReplayLog([genesis]) == ApplyAll(map[], genesis.txdata, 1, true)
  {
  }

  /** In-order insertions from genesis succeed exactly if the ledger accepts genesis and the first `n - delta` of them. */
  lemma InOrderRunIff(delta: nat, network: Network, genesis: Block, blocks: seq<Block>)
    requires InOrder(genesis.Hash(), blocks) && DuplicatesRepeat()
    requires IsSpendable(genesis) && forall b | b in blocks :: IsSpendable(b)
    ensures var s0, n := New(delta, network, genesis), if |blocks| <= delta then 0 else |blocks| - delta;
      s0.Some? && Run(s0.value, blocks).Some? <==> ReplayLog([genesis] + blocks[..n]).Some?
  {
    hide New, Run, InOrder, Healthy, ApplyAll, ReplayLog, FinalSequence, DuplicatesRepeat;
    NewIff(delta, network, genesis);
    ReplayOfGenesis(genesis);
    var s0, n := New(delta, network, genesis), Excess(|blocks|, delta);
    if s0.Some? {
      NewIsHealthy(delta, network, genesis);
      assert FinalSequence(delta, [], genesis.Hash(), blocks) == blocks[..n] by {
        assert [] + blocks == blocks;
        InOrderSequence(delta, genesis.Hash(), [], blocks);
      }
      RunIff(s0.value, [genesis], blocks);
    } else if ReplayLog([genesis] + blocks[..n]).Some? {
      ReplayOfPrefix([genesis], blocks[..n]);
    }
  }
}
