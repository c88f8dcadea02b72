/**
 Whole runs of `insert_block`: the queries' assumptions hold in every reachable state, value is
 conserved, and an unforked chain becomes final block by block.
 */
module Runs {
  import opened Wrappers
  import opened Bitcoin
  import opened Sequences
  import opened BlockTrees
  import opened BlockForests
  import opened ForestInvariants
  import opened Finality
  import opened ChainSelection
  import opened UtxoIndex
  import opened IndexAgreement
  import opened Conservation
  import opened ChainState
  import opened StateInvariants
  import opened Queries
  import opened DeepQueries

  // ---------- Reachable states are sound ----------

  ghost predicate IsSpendable(b: Block)
  {
    forall tx | tx in b.txdata :: SpendsNoDuplicate(tx)
  }

  /** The index agrees with the map, and no unstable block spends an output that exists twice. */
  ghost predicate Healthy(s: Snapshot)
  {
    Sound(s.utxos, s.network) && forall b | b in BagOf(s.trees) :: IsSpendable(b)
  }

  lemma NewIsHealthy(delta: nat, network: Network, genesis: Block)
    requires New(delta, network, genesis).Some? && IsSpendable(genesis) && DuplicatesRepeat()
    ensures Healthy(New(delta, network, genesis).value)
  {
    assert Sound(EMPTY, network);
    InsertAllRefines(EMPTY, genesis.txdata, 1, true, network);
  }

  lemma FinaliseKeepsHealthy(s: Snapshot)
    requires Healthy(s) && Finalise(s).Some? && DuplicatesRepeat()
    ensures Healthy(Finalise(s).value)
  {
    if Popped(s.delta, s.trees, s.anchor).0.None? {
      FailedPopPermutes(s.delta, s.trees, s.anchor);
    } else {
      var t, discarded := PopConserves(s.delta, s.trees, s.anchor);
      assert t.root in BagOf(s.trees);
      InsertAllRefines(s.utxos, t.root.txdata, s.height, true, s.network);
    }
  }

  lemma InsertBlockKeepsHealthy(s: Snapshot, block: Block)
    requires Healthy(s) && InsertBlock(s, block).Some? && IsSpendable(block) && DuplicatesRepeat()
    ensures Healthy(s.(trees := Pushed(s.trees, block))) && Healthy(InsertBlock(s, block).value)
  {
    PushConserves(s.trees, block);
    FinaliseKeepsHealthy(s.(trees := Pushed(s.trees, block)));
  }

  lemma {:induction false} RunKeepsHealthy(s: Snapshot, blocks: seq<Block>)
    requires Healthy(s) && Run(s, blocks).Some? && DuplicatesRepeat() && forall b | b in blocks :: IsSpendable(b)
    ensures Healthy(Run(s, blocks).value)
    decreases |blocks|
  {
    if blocks != [] {
      InsertBlockKeepsHealthy(s, blocks[0]);
      RunKeepsHealthy(InsertBlock(s, blocks[0]).value, blocks[1..]);
    }
  }

  lemma CurrentChainHasBlocks(blocks: set<Block>, anchor: BlockHash, r: BlockChain)
    requires IsCurrentChain(blocks, anchor, r)
    ensures forall b | b in r :: b in blocks
  {
    var p :| IsLongestPath(blocks, anchor, p);
    assert r <= p;
  }

  lemma ChainIsInForest(s: Snapshot)
    requires WellAnchored(s.trees, s.anchor)
    ensures forall b | b in s.Chain() :: b in BagOf(s.trees)
  {
    CurrentChainIsCurrent(s.trees, s.anchor);
    CurrentChainHasBlocks(Blocks(s.trees), s.anchor, s.Chain());
  }

  lemma HealthyChainIsSpendable(s: Snapshot)
    requires Healthy(s) && WellAnchored(s.trees, s.anchor)
    ensures Spendable(s.Chain())
  {
    ChainIsInForest(s);
  }

  lemma HealthyQuery(s: Snapshot, a: Address, c: nat)
    requires Healthy(s) && WellAnchored(s.trees, s.anchor) && DuplicatesRepeat()
    ensures Query(s, a, c) == LedgerAnswer(s, a, c)
  {
    HealthyChainIsSpendable(s);
    QueryIsLedgerAnswer(s, a, c);
  }

  /**
   In every run, with `delta` at least 1: when an insertion finalises a block, every query that
   was answered between the push and the pop is answered the same way after the pop, but for the
   recorded heights of that block's outputs.
   */
  lemma InsertionHidesFinalisation(s: Snapshot, log: seq<Block>, block: Block, b: Block, a: Address, c: nat)
    requires s.delta >= 1 && RefinesLog(s, log) && Healthy(s) && DuplicatesRepeat()
    requires Arrives(s, block) && IsSpendable(block) && InsertBlock(s, block).Some? && FinalisedBy(s, block) == [b]
    ensures var pushed, s' := s.(trees := Pushed(s.trees, block)), InsertBlock(s, block).value;
      && s'.MainChainHeight() == pushed.MainChainHeight()
      && (c <= |pushed.Chain()| && Query(pushed, a, c).Some? ==>
            Query(s', a, c) == Some(LoweredAnswer(s.height, Query(pushed, a, c).value)))
  {
    var pushed := s.(trees := Pushed(s.trees, block));
    PushKeepsRefines(s, log, block);
    InsertBlockKeepsHealthy(s, block);
    hide Query, Arrives, Pushed, CurrentChain, RefinesLog, WellAnchored;
    HealthyChainIsSpendable(pushed);
    FinalisationIsInvisible(pushed, InsertBlock(s, block).value, b, log, a, c);
  }

  /** And exactly when it is invisible to a query for more confirmations than the current chain is long. */
  lemma InsertionHidesFinalisationBeyondIff(
    s: Snapshot, log: seq<Block>, block: Block, b: Block, a: Address, c: nat)
    requires s.delta >= 1 && RefinesLog(s, log) && Healthy(s) && DuplicatesRepeat()
    requires Arrives(s, block) && IsSpendable(block) && InsertBlock(s, block).Some? && FinalisedBy(s, block) == [b]
    ensures var pushed, s' := s.(trees := Pushed(s.trees, block)), InsertBlock(s, block).value;
      var n := |pushed.Chain()|;
      c > n ==>
        && Query(pushed, a, c).Some?
        && (Query(s', a, c) == Query(pushed, a, c) <==>
             && LeavesAlone(b.txdata, Query(pushed, a, c).value, s.height)
             && (c == n + 1 ==> AddsNothing(b.txdata, Query(pushed, a, c).value, a, s.network, s.height)))
  {
    var pushed := s.(trees := Pushed(s.trees, block));
    PushKeepsRefines(s, log, block);
    InsertBlockKeepsHealthy(s, block);
    hide Query, Arrives, Pushed, CurrentChain, RefinesLog, WellAnchored, LeavesAlone, AddsNothing;
    HealthyChainIsSpendable(pushed);
    if c > |pushed.Chain()| {
      FinalisationIsInvisibleBeyondIff(pushed, InsertBlock(s, block).value, b, a, c);
    }
  }

  // ---------- Value ----------

  ghost function SpentInLog(log: seq<Block>): nat
    requires log != [] && ReplayLog(log).Some?
    decreases |log|
  {
    var n := |log| - 1;
    if n == 0 then SpentByAll(map[], log[0].txdata, 1, true)
    else SpentInLog(log[..n]) + SpentByAll(ReplayLog(log[..n]).value, log[n].txdata, n, true)
  }

  ghost function CreatedInLog(log: seq<Block>): nat
    decreases |log|
  {
    if log == [] then 0 else CreatedInLog(log[..|log| - 1]) + CreatedByAll(log[|log| - 1].txdata)
  }

  ghost function ReplacedInLog(log: seq<Block>): nat
    requires log != [] && ReplayLog(log).Some?
    decreases |log|
  {
    var n := |log| - 1;
    if n == 0 then ReplacedByAll(map[], log[0].txdata, 1, true)
    else ReplacedInLog(log[..n]) + ReplacedByAll(ReplayLog(log[..n]).value, log[n].txdata, n, true)
  }

  /**
   The outputs of a state hold exactly what the final blocks created, and neither spent nor, with
   a duplicate transaction id, replaced.
   */
  lemma {:induction false} LogConservesValue(log: seq<Block>)
    requires log != [] && ReplayLog(log).Some?
    ensures Total(ReplayLog(log).value) + SpentInLog(log) + ReplacedInLog(log) == CreatedInLog(log)
    ensures (forall b, tx | b in log && tx in b.txdata :: tx.Txid() !in DUPLICATE_TX_IDS) ==> ReplacedInLog(log) == 0
    decreases |log|
  {
    var n := |log| - 1;
    var m := if n == 0 then map[] else ReplayLog(log[..n]).value;
    var height := if n == 0 then 1 else n;
    if n == 0 {
      assert CreatedInLog(log[..0]) == 0;
    } else {
      LogConservesValue(log[..n]);
    }
    ApplyAllConserves(m, log[n].txdata, height, true);
    if forall b, tx | b in log && tx in b.txdata :: tx.Txid() !in DUPLICATE_TX_IDS {
      assert log[n] in log;
      NothingIsReplaced(m, log[n].txdata, height, true);
    }
  }

  // ---------- Progress on an unforked chain ----------

  /** Each block follows the one before it, the first one the anchor. */
  ghost predicate InOrder(anchor: BlockHash, blocks: seq<Block>)
  {
    && (blocks != [] ==> blocks[0].Prev() == anchor)
    && (forall i | 1 <= i < |blocks| :: blocks[i].Prev() == blocks[i - 1].Hash())
  }

  lemma InOrderParts(anchor: BlockHash, first: seq<Block>, second: seq<Block>)
    requires InOrder(anchor, first + second)
    ensures InOrder(anchor, first)
    ensures first != [] ==> InOrder(first[0].Hash(), first[1..] + second)
  {
    var all := first + second;
    forall i | 1 <= i < |first|
      ensures first[i].Prev() == first[i - 1].Hash()
    {
      assert first[i] == all[i] && first[i - 1] == all[i - 1];
    }
    if first != [] {
      assert first[0] == all[0];
      var rest := first[1..] + second;
      forall i | 0 <= i < |rest|
        ensures rest[i] == all[i + 1]
      {
      }
    }
  }

  ghost function Spine(blocks: seq<Block>): BlockTree
    requires blocks != []
  {
    BlockTree(blocks[0], if |blocks| == 1 then [] else [Spine(blocks[1..])])
  }

  /** The forest that holds one unforked chain. */
  ghost function Window(blocks: seq<Block>): seq<BlockTree>
  {
    if blocks == [] then [] else [Spine(blocks)]
  }

  lemma OneChildDepth(b: Block, t: BlockTree)
    ensures Depth(BlockTree(b, [t])) == 1 + Depth(t)
  {
    assert DepthOf([t][1..]) == 0;
  }

  lemma {:induction false} SpineDepth(blocks: seq<Block>)
    requires blocks != []
    ensures Depth(Spine(blocks)) == |blocks| - 1
  {
    if |blocks| > 1 {
      SpineDepth(blocks[1..]);
      OneChildDepth(blocks[0], Spine(blocks[1..]));
    }
  }

  lemma FirstOrRest(blocks: seq<Block>, h: BlockHash)
    requires blocks != []
    ensures (exists b :: b in blocks && b.Hash() == h)
            <==> blocks[0].Hash() == h || exists b :: b in blocks[1..] && b.Hash() == h
  {
    assert blocks == [blocks[0]] + blocks[1..];
    assert blocks[0] in blocks;
  }

  lemma SingleChild(b: Block, t: BlockTree, h: BlockHash)
    ensures HasHash(BlockTree(b, [t]), h) <==> b.Hash() == h || HasHash(t, h)
  {
    assert t in BlockTree(b, [t]).children;
  }

  lemma {:induction false} SpineHasHash(blocks: seq<Block>, h: BlockHash)
    requires blocks != []
    ensures HasHash(Spine(blocks), h) <==> exists b :: b in blocks && b.Hash() == h
  {
    FirstOrRest(blocks, h);
    if |blocks| > 1 {
      SpineHasHash(blocks[1..], h);
      SingleChild(blocks[0], Spine(blocks[1..]), h);
    } else {
      assert Spine(blocks) == BlockTree(blocks[0], []);
    }
  }

  lemma {:induction false} LaterGenerations(anchor: BlockHash, blocks: seq<Block>, i: nat)
    requires InOrder(anchor, blocks) && i < |blocks|
    ensures blocks[i].Hash().Generation() == anchor.Generation() + i + 1
    decreases i
  {
    if i > 0 {
      LaterGenerations(anchor, blocks, i - 1);
    }
  }

  lemma GraftBelow(b: Block, t: BlockTree, h: BlockHash, s: BlockTree)
    requires b.Hash() != h && HasHash(t, h)
    ensures Graft(BlockTree(b, [t]), h, s) == BlockTree(b, [Graft(t, h, s)])
  {
    assert First([t], c => HasHash(c, h)) == 0;
  }

  lemma {:induction false} GraftExtendsSpine(anchor: BlockHash, blocks: seq<Block>, b: Block)
    requires blocks != [] && InOrder(anchor, blocks + [b])
    ensures Graft(Spine(blocks), b.Prev(), BlockTree(b, [])) == Spine(blocks + [b])
    decreases |blocks|
  {
    var all := blocks + [b];
    assert all[|blocks|] == b && b.Prev() == all[|blocks| - 1].Hash();
    TailOfConcat(blocks, [b]);
    if |blocks| == 1 {
      assert Spine([b]) == BlockTree(b, []);
    } else {
      var rest := blocks[1..];
      InOrderParts(anchor, blocks, [b]);
      GraftExtendsSpine(blocks[0].Hash(), rest, b);
      LaterGenerations(anchor, all, 0);
      LaterGenerations(anchor, all, |blocks| - 1);
      SpineHasHash(rest, b.Prev());
      assert rest[|rest| - 1] in rest;
      GraftBelow(blocks[0], Spine(rest), b.Prev(), BlockTree(b, []));
    }
  }

  lemma PushExtendsWindow(anchor: BlockHash, blocks: seq<Block>, b: Block)
    requires InOrder(anchor, blocks + [b])
    ensures Pushed(Window(blocks), b) == Window(blocks + [b])
  {
    var all := blocks + [b];
    if blocks == [] {
      assert all == [b] && [b][1..] == [];
    } else {
      LaterGenerations(anchor, all, |blocks|);
      forall c | c in blocks
        ensures c.Hash() != b.Hash()
      {
        var i :| 0 <= i < |blocks| && blocks[i] == c;
        LaterGenerations(anchor, all, i);
      }
      SpineHasHash(blocks, b.Hash());
      SpineHasHash(blocks, b.Prev());
      assert all[|blocks| - 1] in blocks;
      assert WaitingIndex(Window(blocks), b.Hash()) == 1;
      assert First(Window(blocks), t => Accepts(t, b)) == 0;
      GraftExtendsSpine(anchor, blocks, b);
    }
  }

  lemma PopCutsWindow(delta: nat, anchor: BlockHash, blocks: seq<Block>)
    requires blocks != [] && blocks[0].Prev() == anchor
    ensures Popped(delta, Window(blocks), anchor) ==
      if |blocks| <= delta then (None, Window(blocks)) else (Some(blocks[0]), Window(blocks[1..]))
  {
    SpineDepth(blocks);
    SingleTree(delta, Spine(blocks), anchor);
  }

  lemma SingleTree(delta: nat, t: BlockTree, anchor: BlockHash)
    requires t.root.Prev() == anchor
    ensures Popped(delta, [t], anchor) == if Depth(t) < delta then (None, [t]) else (Some(t.root), t.children)
  {
    assert [t][1..] == [];
    assert Attached([t], anchor) == [t] + Attached([], anchor) == [t];
    assert Detached([t], anchor) == [] + Detached([], anchor) == [];
    assert SortByDepth([t]) == [t];
    assert [t] + [] == [t] && [] + t.children == t.children;
  }

  lemma {:induction false} SpineChain(blocks: seq<Block>)
    requires blocks != []
    ensures Blockchains(Spine(blocks)) == [blocks]
  {
    if |blocks| > 1 {
      var below := Spine(blocks[1..]);
      SpineChain(blocks[1..]);
      assert [below][1..] == [];
      assert ChainsOf([below]) == [blocks[1..]];
      assert [blocks[0]] + blocks[1..] == blocks;
    } else {
      assert [blocks[0]] == blocks;
    }
  }

  lemma OnlyChain(chain: BlockChain)
    ensures CommonChain([chain]) == chain
  {
    LongestExists([chain]);
    var longest := Longest([chain]);
    assert longest[0] in longest;
    var k := Agreement(longest, 0, |chain|);
    assert k < |chain| ==> AgreeAt(longest, k);
  }

  /** The current chain of an unforked chain of blocks is all of it. */
  lemma WindowChain(anchor: BlockHash, blocks: seq<Block>)
    requires InOrder(anchor, blocks)
    ensures CurrentChain(Window(blocks), anchor) == blocks
  {
    if blocks != [] {
      var t := Spine(blocks);
      SpineChain(blocks);
      assert [t][1..] == [];
      assert Attached([t], anchor) == [t] + Attached([], anchor) == [t];
      assert ChainsOf([t]) == [blocks];
      OnlyChain(blocks);
    }
  }

  lemma FinaliseWindow(s: Snapshot, blocks: seq<Block>)
    requires s.trees == Window(blocks) && blocks != [] && blocks[0].Prev() == s.anchor && Finalise(s).Some?
    ensures var s' := Finalise(s).value;
      && s'.delta == s.delta
      && if |blocks| <= s.delta then
           s'.trees == Window(blocks) && s'.height == s.height && s'.anchor == s.anchor
         else
           s'.trees == Window(blocks[1..]) && s'.height == s.height + 1 && s'.anchor == blocks[0].Hash()
  {
    PopCutsWindow(s.delta, s.anchor, blocks);
  }

  /** One insertion at the tip of an unforked chain: if `delta` blocks were waiting, the oldest becomes final. */
  lemma InOrderStep(s: Snapshot, waiting: seq<Block>, b: Block)
    requires s.trees == Window(waiting) && |waiting| <= s.delta && InOrder(s.anchor, waiting + [b])
    requires InsertBlock(s, b).Some?
    ensures var s', all := InsertBlock(s, b).value, waiting + [b];
      && s'.delta == s.delta
      && if |waiting| < s.delta then
           s'.trees == Window(all) && s'.height == s.height && s'.anchor == s.anchor && FinalisedBy(s, b) == []
         else
           s'.trees == Window(all[1..]) && s'.height == s.height + 1 && s'.anchor == all[0].Hash() && FinalisedBy(s, b) == [all[0]]
  {
    var all := waiting + [b];
    assert all[0].Prev() == s.anchor;
    PushExtendsWindow(s.anchor, waiting, b);
    PopCutsWindow(s.delta, s.anchor, all);
    FinaliseWindow(s.(trees := Pushed(s.trees, b)), all);
  }

  ghost function Excess(n: nat, delta: nat): nat
  {
    if n <= delta then 0 else n - delta
  }

  lemma DropAndTake(all: seq<Block>, n: nat)
    requires 0 < n <= |all|
    ensures [all[0]] + all[1..][..n - 1] == all[..n] && all[1..][n - 1..] == all[n..]
  {
  }

  /** After the run: the first blocks are final and the others wait. */
  ghost predicate IsProgress(s: Snapshot, s': Snapshot, finalised: seq<Block>, all: seq<Block>)
  {
    var n := Excess(|all|, s.delta);
    && finalised == all[..n] && s'.height == s.height + n
    && s'.trees == Window(all[n..]) && InOrder(s'.anchor, all[n..])
  }

  lemma ProgressStep(s: Snapshot, s': Snapshot, s'': Snapshot, finalised: seq<Block>, all: seq<Block>)
    requires |all| > s.delta && s'.delta == s.delta && s'.height == s.height + 1
    requires IsProgress(s', s'', finalised, all[1..])
    ensures IsProgress(s, s'', [all[0]] + finalised, all)
  {
    DropAndTake(all, Excess(|all|, s.delta));
  }

  lemma NothingFinalised(s: Snapshot, s': Snapshot, s'': Snapshot, finalised: seq<Block>, all: seq<Block>)
    requires s'.delta == s.delta && s'.height == s.height && IsProgress(s', s'', finalised, all)
    ensures IsProgress(s, s'', [] + finalised, all)
  {
    assert [] + finalised == finalised;
  }

  /** How a run starts, for a block `b` and the rest of the blocks. */
  lemma RunUnfolds(s: Snapshot, blocks: seq<Block>)
    requires blocks != [] && Run(s, blocks).Some?
    ensures InsertBlock(s, blocks[0]).Some?
    ensures Run(InsertBlock(s, blocks[0]).value, blocks[1..]) == Run(s, blocks)
    ensures FinalisedIn(s, blocks) == FinalisedBy(s, blocks[0]) + FinalisedIn(InsertBlock(s, blocks[0]).value, blocks[1..])
  {
  }

  lemma {:induction false} InOrderRun(s: Snapshot, waiting: seq<Block>, blocks: seq<Block>)
    requires s.trees == Window(waiting) && |waiting| <= s.delta && InOrder(s.anchor, waiting + blocks)
    requires Run(s, blocks).Some?
    ensures IsProgress(s, Run(s, blocks).value, FinalisedIn(s, blocks), waiting + blocks)
    decreases |blocks|
  {
    if blocks == [] {
      assert waiting + blocks == waiting;
    } else {
      RunUnfolds(s, blocks);
      hide Run, FinalisedIn;
      hide IsProgress, InsertBlock, FinalisedBy, Window, InOrder;
      var b, s', rest := blocks[0], InsertBlock(s, blocks[0]).value, blocks[1..];
      var grown := waiting + [b];
      FirstAndTail(blocks);
      ConcatIsAssociative(waiting, [b], rest);
      InOrderParts(s.anchor, grown, rest);
      InOrderStep(s, waiting, b);
      if |waiting| < s.delta {
        InOrderRun(s', grown, rest);
        NothingFinalised(s, s', Run(s', rest).value, FinalisedIn(s', rest), waiting + blocks);
      } else {
        InOrderRun(s', grown[1..], rest);
        TailOfConcat(grown, rest);
        ProgressStep(s, s', Run(s', rest).value, FinalisedIn(s', rest), waiting + blocks);
      }
    }
  }

  lemma NewIsEmpty(delta: nat, network: Network, genesis: Block)
    requires New(delta, network, genesis).Some?
    ensures var s := New(delta, network, genesis).value;
      s.delta == delta && s.height == 1 && s.anchor == genesis.Hash() && s.trees == Window([])
  {
  }

  /**
   Progress: after `n` in-order insertions from genesis exactly the first `n - delta` blocks are
   final (none if `n <= delta`), and the forest holds the others as one unforked tree, all of it
   the current chain.
   */
  lemma {:induction false} ProgressOnUnforkedChain(delta: nat, network: Network, genesis: Block, blocks: seq<Block>)
    requires New(delta, network, genesis).Some? && InOrder(genesis.Hash(), blocks)
    requires Run(New(delta, network, genesis).value, blocks).Some?
    ensures var s0 := New(delta, network, genesis).value;
      var s, n := Run(s0, blocks).value, if |blocks| <= delta then 0 else |blocks| - delta;
      && FinalisedIn(s0, blocks) == blocks[..n] && s.height == 1 + n
      && s.trees == Window(blocks[n..]) && s.Chain() == blocks[n..]
  {
    hide New, Run, FinalisedIn, InOrder, Window, CurrentChain;
    var s0 := New(delta, network, genesis).value;
    NewIsEmpty(delta, network, genesis);
    assert [] + blocks == blocks;
    InOrderRun(s0, [], blocks);
    var s := Run(s0, blocks).value;
    WindowChain(s.anchor, blocks[Excess(|blocks|, delta)..]);
  }
}
