/**
 Parent-first delivery, and what `get_blocks` lists.
 */
module ForestListing {
  import opened Bitcoin
  import opened Sequences
  import opened BlockTrees
  import opened BlockForests
  import opened ForestInvariants
  import opened Finality

  // ---------- Parent-first delivery ----------

  ghost predicate AllAttached(ts: seq<BlockTree>, anchor: BlockHash)
  {
    forall t | t in ts :: t.root.Prev() == anchor
  }

  /** The block's parent is the anchor or in the forest. */
  ghost predicate ParentFirst(ts: seq<BlockTree>, anchor: BlockHash, block: Block)
  {
    block.Hash() != anchor && (block.Prev() == anchor || Present(BagOf(ts), block.Prev()))
  }

  /** If every block so far came after its parent, the next one is delivered well, and all trees stay attached. */
  lemma ParentFirstIsDeliverable(ts: seq<BlockTree>, anchor: BlockHash, block: Block)
    requires WellAnchored(ts, anchor) && AllAttached(ts, anchor) && ParentFirst(ts, anchor, block)
    ensures Deliverable(ts, block)
    ensures WellAnchored(Pushed(ts, block), anchor) && AllAttached(Pushed(ts, block), anchor)
  {
    forall t | t in ts
      ensures t.root.Prev() != block.Hash()
    {
    }
    PushKeepsWellFormed(ts, block);
    if Present(BagOf(ts), block.Hash()) {
      PushPresent(ts, block);
    } else {
      PushedAttached(ts, anchor, block);
    }
  }

  lemma PushedAttached(ts: seq<BlockTree>, anchor: BlockHash, block: Block)
    requires WellFormed(ts) && AllAttached(ts, anchor) && ParentFirst(ts, anchor, block)
    requires Deliverable(ts, block) && !Present(BagOf(ts), block.Hash())
    ensures AllAttached(Pushed(ts, block), anchor)
  {
    assert WaitingIndex(ts, block.Hash()) == |ts|;
    hide Distinct, Adopted, Extended;
    var i := First(ts, t => Accepts(t, block));
    if i < |ts| {
      var taker := Adopted(Extended(ts[i], block), block.Hash(), []);
      assert ts[i] in ts;
      BagIn(ts, i);
      HasHashMeaning(ts[i], block.Hash());
      TakerLinked(ts[i], block, []);
      InUpdate(ts, i, taker);
    } else {
      if b :| b in BagOf(ts) && b.Hash() == block.Prev() {
        NewRoot(ts, block);
      }
    }
  }

  /** A pop leaves only attached trees, if there were no others. */
  lemma PopKeepsAttached(delta: nat, ts: seq<BlockTree>, anchor: BlockHash)
    requires WellAnchored(ts, anchor) && AllAttached(ts, anchor)
    ensures AllAttached(Popped(delta, ts, anchor).1, NextAnchor(Popped(delta, ts, anchor).0, anchor))
  {
    if Popped(delta, ts, anchor).0.None? {
      FailedPopPermutes(delta, ts, anchor);
      forall t | t in Popped(delta, ts, anchor).1
        ensures t in ts
      {
        assert t in multiset(Popped(delta, ts, anchor).1);
      }
    } else {
      var t, _ := PopConserves(delta, ts, anchor);
      var _ := TreeIn(ts, t);
    }
  }

  // ---------- get_blocks ----------

  ghost function Leaves(t: BlockTree): nat
  {
    if t.children == [] then 1 else LeavesOf(t.children)
  }

  ghost function LeavesOf(ts: seq<BlockTree>): nat
  {
    if ts == [] then 0 else Leaves(ts[0]) + LeavesOf(ts[1..])
  }

  /** For each node that holds `b`, the number of leaves below it, summed. */
  ghost function LeavesBelow(t: BlockTree, b: Block): nat
  {
    (if t.root == b then Leaves(t) else 0) + LeavesBelowIn(t.children, b)
  }

  ghost function LeavesBelowIn(ts: seq<BlockTree>, b: Block): nat
  {
    if ts == [] then 0 else LeavesBelow(ts[0], b) + LeavesBelowIn(ts[1..], b)
  }

  lemma {:induction false} ConcatAppend(c: seq<BlockChain>, d: seq<BlockChain>)
    ensures Concat(c + d) == Concat(c) + Concat(d)
  {
    if c == [] {
      assert c + d == d;
    } else {
      ConcatAppend(c[1..], d);
      TailOfConcat(c, d);
    }
  }

  lemma {:induction false} ConcatPrepend(x: Block, c: seq<BlockChain>, b: Block)
    ensures multiset(Concat(Prepend(x, c)))[b] == multiset(Concat(c))[b] + if x == b then |c| else 0
  {
    if c != [] {
      ConcatPrepend(x, c[1..], b);
      assert Prepend(x, c)[1..] == Prepend(x, c[1..]);
    }
  }

  lemma {:induction false} CountLeaves(t: BlockTree)
    ensures |Blockchains(t)| == Leaves(t) >= 1
  {
    CountLeavesOf(t.children);
  }

  lemma {:induction false} CountLeavesOf(ts: seq<BlockTree>)
    ensures |ChainsOf(ts)| == LeavesOf(ts) && (ts != [] ==> LeavesOf(ts) >= 1)
  {
    if ts != [] {
      CountLeaves(ts[0]);
      CountLeavesOf(ts[1..]);
    }
  }

  lemma {:induction false} TreeListing(t: BlockTree, b: Block)
    ensures multiset(Concat(Blockchains(t)))[b] == LeavesBelow(t, b)
    ensures LeavesBelow(t, b) > 0 <==> b in Bag(t)
  {
    CountLeaves(t);
    Listing(t.children, b);
    if t.children == [] {
      assert Blockchains(t)[1..] == [];
      assert Concat(Blockchains(t)) == [t.root];
    } else {
      ConcatPrepend(t.root, ChainsOf(t.children), b);
    }
  }

  /** `get_blocks` lists exactly the blocks of the forest, each once per leaf below it. */
  lemma {:induction false} Listing(ts: seq<BlockTree>, b: Block)
    ensures multiset(Concat(ChainsOf(ts)))[b] == LeavesBelowIn(ts, b)
    ensures LeavesBelowIn(ts, b) > 0 <==> b in BagOf(ts)
  {
    if ts != [] {
      TreeListing(ts[0], b);
      Listing(ts[1..], b);
      ConcatAppend(Blockchains(ts[0]), ChainsOf(ts[1..]));
    }
  }

  /** The same, of the object. */
  lemma GetBlocksLists(forest: BlockForest, b: Block)
    ensures multiset(forest.GetBlocks())[b] == LeavesBelowIn(forest.trees, b)
    ensures b in forest.GetBlocks() <==> b in BagOf(forest.trees)
  {
    Listing(forest.trees, b);
    assert b in forest.GetBlocks() <==> b in multiset(forest.GetBlocks());
  }

  lemma {:induction false} ChainsOfAppend(ts: seq<BlockTree>, us: seq<BlockTree>)
    ensures ChainsOf(ts + us) == ChainsOf(ts) + ChainsOf(us)
  {
    if ts == [] {
      assert ts + us == us;
    } else {
      TailOfConcat(ts, us);
      ChainsOfAppend(ts[1..], us);
      ConcatIsAssociative(Blockchains(ts[0]), ChainsOf(ts[1..]), ChainsOf(us));
    }
  }

  /** A new successor of a root that has others starts the last chain that is listed. */
  lemma SiblingIsListedLast(t: BlockTree, block: Block)
    requires t.children != []
    ensures Blockchains(Graft(t, t.root.Hash(), BlockTree(block, []))) == Blockchains(t) + [[t.root, block]]
  {
    var leaf := BlockTree(block, []);
    ChainsOfAppend(t.children, [leaf]);
    assert [leaf][1..] == [];
    assert ChainsOf([leaf]) == [[block]];
    assert [t.root] + [block] == [t.root, block];
    var chains := ChainsOf(t.children);
    assert Prepend(t.root, chains + [[block]]) == Prepend(t.root, chains) + [[t.root, block]];
  }
}
