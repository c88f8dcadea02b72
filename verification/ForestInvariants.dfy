/**
 What `push` and `pop` keep: the shape of the forest, and its blocks.
 */
module ForestInvariants {
  import opened Bitcoin
  import opened BlockTrees
  import opened BlockForests

  /** Children name their parents, hashes are distinct, and no root could be moved below another block. */
  ghost predicate WellFormed(ts: seq<BlockTree>)
  {
    && (forall t | t in ts :: Linked(t))
    && Distinct(BagOf(ts))
    && (forall t, b | t in ts && b in BagOf(ts) :: b.Hash() != t.root.Prev())
  }

  ghost predicate Present(m: multiset<Block>, h: BlockHash)
  {
    exists b :: b in m && b.Hash() == h
  }

  /** The anchor itself is not waiting to become final. */
  ghost predicate WellAnchored(ts: seq<BlockTree>, anchor: BlockHash)
  {
    WellFormed(ts) && !Present(BagOf(ts), anchor)
  }

  /** Well-formed delivery: at most one root waits for the block. */
  ghost predicate Deliverable(ts: seq<BlockTree>, block: Block)
  {
    forall i, j | 0 <= i < j < |ts| :: ts[i].root.Prev() != block.Hash() || ts[j].root.Prev() != block.Hash()
  }

  lemma TreeIn(ts: seq<BlockTree>, t: BlockTree) returns (i: nat)
    requires t in ts
    ensures i < |ts| && ts[i] == t && Bag(t) <= BagOf(ts)
  {
    i :| i < |ts| && ts[i] == t;
    BagIn(ts, i);
  }

  /** In a well-formed forest, the successors of a block lie in its tree, below the root. */
  lemma SuccessorInside(ts: seq<BlockTree>, i: nat, n: Block, c: Block)
    requires WellFormed(ts) && i < |ts| && n in Bag(ts[i])
    requires c in BagOf(ts) && c.Prev() == n.Hash()
    ensures c in BagOf(ts[i].children)
  {
    BagIn(ts, i);
    var k := TreeOf(ts, c);
    BagIn(ts, k);
    assert ts[k] in ts;
    if c in BagOf(ts[k].children) {
      var p := ParentInside(ts[k], c);
      assert p == n;
      SameTree(ts, i, k, n);
    }
  }

  // ---------- push ----------

  lemma TakeTreeSplits(ts: seq<BlockTree>, h: BlockHash)
    ensures BagOf(ts) == BagOf(Successors(ts, h)) + BagOf(Remaining(ts, h))
    ensures forall t | t in Successors(ts, h) :: t in ts && t.root.Prev() == h
    ensures forall t | t in Remaining(ts, h) :: t in ts
  {
    hide Bag;
    var i := WaitingIndex(ts, h);
    if i < |ts| {
      BagOfSplit(ts, i);
      BagOfAppend(ts[..i], ts[i + 1..]);
      BagOfOne(ts[i]);
    }
  }

  lemma NoneWaits(ts: seq<BlockTree>, block: Block)
    requires Deliverable(ts, block)
    ensures forall t | t in Remaining(ts, block.Hash()) :: t.root.Prev() != block.Hash()
  {
  }

  lemma AdoptedBag(t: BlockTree, h: BlockHash, successors: seq<BlockTree>)
    requires HasHash(t, h) && |successors| <= 1
    ensures Bag(Adopted(t, h, successors)) == Bag(t) + BagOf(successors)
  {
    if successors != [] {
      GraftBag(t, h, successors[0]);
      BagOfOne(successors[0]);
    }
  }

  /** The tree that takes the pushed block gains the block, if new, and the tree that waited for it. */
  lemma TakerGains(t: BlockTree, block: Block, successors: seq<BlockTree>)
    requires Accepts(t, block) && |successors| <= 1
    ensures Bag(Adopted(Extended(t, block), block.Hash(), successors)) ==
            Bag(t) + (BagOf(successors) + if HasHash(t, block.Hash()) then multiset{} else multiset{block})
  {
    ExtendedHasBlock(t, block);
    AdoptedBag(Extended(t, block), block.Hash(), successors);
  }

  lemma PushTaken(ts: seq<BlockTree>, block: Block, i: nat)
    requires i == First(Remaining(ts, block.Hash()), t => Accepts(t, block)) < |Remaining(ts, block.Hash())|
    ensures var gain := if HasHash(Remaining(ts, block.Hash())[i], block.Hash()) then multiset{} else multiset{block};
      BagOf(Pushed(ts, block)) == BagOf(ts) + gain
  {
    hide Bag, BagOf, Adopted, Extended, Accepts, Successors, Remaining;
    var successors := Successors(ts, block.Hash());
    var rest := Remaining(ts, block.Hash());
    TakeTreeSplits(ts, block.Hash());
    TakerGains(rest[i], block, successors);
    var gain := if HasHash(rest[i], block.Hash()) then multiset{} else multiset{block};
    BagOfUpdate(rest, i, Adopted(Extended(rest[i], block), block.Hash(), successors), BagOf(successors) + gain);
  }

  lemma PushAlone(ts: seq<BlockTree>, block: Block)
    requires First(Remaining(ts, block.Hash()), t => Accepts(t, block)) == |Remaining(ts, block.Hash())|
    ensures BagOf(Pushed(ts, block)) == BagOf(ts) + multiset{block}
  {
    var t := BlockTree(block, Successors(ts, block.Hash()));
    TakeTreeSplits(ts, block.Hash());
    BagOfAppend(Remaining(ts, block.Hash()), [t]);
    BagOfOne(t);
  }

  /** For every forest: `push` adds the block and nothing else, or adds nothing because the hash is present. */
  lemma PushConserves(ts: seq<BlockTree>, block: Block)
    ensures BagOf(Pushed(ts, block)) == BagOf(ts) + multiset{block}
         || (BagOf(Pushed(ts, block)) == BagOf(ts) && Present(BagOf(ts), block.Hash()))
  {
    var rest := Remaining(ts, block.Hash());
    var i := First(rest, t => Accepts(t, block));
    if i == |rest| {
      PushAlone(ts, block);
    } else {
      PushTaken(ts, block, i);
      HasHashMeaning(rest[i], block.Hash());
      TakeTreeSplits(ts, block.Hash());
      BagIn(rest, i);
    }
  }

  lemma DistinctPlus(m: multiset<Block>, block: Block)
    requires Distinct(m) && !Present(m, block.Hash())
    ensures Distinct(m + multiset{block})
  {
    assert block !in m;
  }

  /** A tree that accepts a present block holds it: if it held the parent only, the block would be there as well. */
  lemma AcceptorHolds(ts: seq<BlockTree>, i: nat, block: Block, b: Block)
    requires WellFormed(ts) && i < |ts| && b in BagOf(ts) && b.Hash() == block.Hash() && Accepts(ts[i], block)
    ensures HasHash(ts[i], block.Hash())
  {
    hide HasHash, WellFormed, BagOf;
    HasHashMeaning(ts[i], block.Prev());
    HasHashMeaning(ts[i], block.Hash());
    if p :| p in Bag(ts[i]) && p.Hash() == block.Prev() {
      SuccessorInside(ts, i, p, b);
    }
  }

  lemma NoneWaitsForPresent(ts: seq<BlockTree>, b: Block)
    requires WellFormed(ts) && b in BagOf(ts)
    ensures Successors(ts, b.Hash()) == [] && Remaining(ts, b.Hash()) == ts
  {
    assert WaitingIndex(ts, b.Hash()) == |ts|;
  }

  /** Pushing a block that is present changes nothing. */
  lemma PushPresent(ts: seq<BlockTree>, block: Block)
    requires WellFormed(ts) && Present(BagOf(ts), block.Hash())
    ensures Pushed(ts, block) == ts
  {
    hide Bag, BagOf, HasHash, WellFormed, Successors, Remaining;
    var b :| b in BagOf(ts) && b.Hash() == block.Hash();
    NoneWaitsForPresent(ts, b);
    var k := TreeOf(ts, b);
    HasHashMeaning(ts[k], block.Hash());
    assert Accepts(ts[k], block);
    var i := First(ts, t => Accepts(t, block));
    AcceptorHolds(ts, i, block, b);
    assert ts[i := ts[i]] == ts;
  }

  /** Every root of the new forest is an old root that does not wait for the block, or the block itself. */
  lemma PushRoots(ts: seq<BlockTree>, block: Block)
    requires WellFormed(ts) && Deliverable(ts, block) && !Present(BagOf(ts), block.Hash())
    ensures forall t | t in Pushed(ts, block) :: Linked(t)
    ensures forall t | t in Pushed(ts, block) ::
              t.root.Prev() != block.Hash() && forall b | b in BagOf(ts) :: b.Hash() != t.root.Prev()
  {
    var h := block.Hash();
    var successors := Successors(ts, h);
    var rest := Remaining(ts, h);
    TakeTreeSplits(ts, h);
    NoneWaits(ts, block);
    var i := First(rest, t => Accepts(t, block));
    if i < |rest| {
      BagIn(rest, i);
      HasHashMeaning(rest[i], h);
      TakerLinked(rest[i], block, successors);
      var taker := Adopted(Extended(rest[i], block), h, successors);
      assert Linked(taker) && taker.root == rest[i].root;
      assert rest[i] in rest;
      InUpdate(rest, i, taker);
    } else {
      NewRoot(ts, block);
    }
  }

  lemma InUpdate(ts: seq<BlockTree>, i: nat, u: BlockTree)
    requires i < |ts|
    ensures forall t | t in ts[i := u] :: t == u || t in ts
  {
  }

  lemma TakerLinked(t: BlockTree, block: Block, successors: seq<BlockTree>)
    requires Linked(t) && !HasHash(t, block.Hash())
    requires |successors| <= 1 && forall s | s in successors :: Linked(s) && s.root.Prev() == block.Hash()
    ensures Linked(Adopted(Extended(t, block), block.Hash(), successors))
    ensures Adopted(Extended(t, block), block.Hash(), successors).root == t.root
  {
    GraftLinked(t, block.Prev(), BlockTree(block, []));
    if successors != [] {
      assert successors[0] in successors;
      GraftLinked(Extended(t, block), block.Hash(), successors[0]);
    }
  }

  /** A block that no tree accepts starts a tree of its own: its parent is nowhere in the forest. */
  lemma NewRoot(ts: seq<BlockTree>, block: Block)
    requires WellFormed(ts)
    requires First(Remaining(ts, block.Hash()), t => Accepts(t, block)) == |Remaining(ts, block.Hash())|
    ensures forall b | b in BagOf(ts) :: b.Hash() != block.Prev()
  {
    var successors := Successors(ts, block.Hash());
    var rest := Remaining(ts, block.Hash());
    TakeTreeSplits(ts, block.Hash());
    forall b | b in BagOf(ts)
      ensures b.Hash() != block.Prev()
    {
      if b in BagOf(rest) {
        var k := TreeOf(rest, b);
        assert !Accepts(rest[k], block);
        HasHashMeaning(rest[k], block.Prev());
      } else {
        BagOfOne(successors[0]);
        RootIsOldest(successors[0], b);
      }
    }
  }

  /** Pushing a new block keeps the forest well formed. */
  lemma PushNew(ts: seq<BlockTree>, block: Block)
    requires WellFormed(ts) && Deliverable(ts, block) && !Present(BagOf(ts), block.Hash())
    ensures WellFormed(Pushed(ts, block))
  {
    PushConserves(ts, block);
    DistinctPlus(BagOf(ts), block);
    PushRoots(ts, block);
  }

  lemma PushKeepsWellFormed(ts: seq<BlockTree>, block: Block)
    requires WellFormed(ts) && Deliverable(ts, block)
    ensures WellFormed(Pushed(ts, block))
    ensures BagOf(Pushed(ts, block)) ==
            BagOf(ts) + if Present(BagOf(ts), block.Hash()) then multiset{} else multiset{block}
  {
    if Present(BagOf(ts), block.Hash()) {
      PushPresent(ts, block);
    } else {
      PushNew(ts, block);
      PushConserves(ts, block);
    }
  }

  /** If two roots wait for a block, one of them still does after the block was taken into account. */
  lemma SecondStillWaits(ts: seq<BlockTree>, block: Block) returns (t: BlockTree)
    requires !Deliverable(ts, block)
    ensures t in Remaining(ts, block.Hash()) && t.root.Prev() == block.Hash()
  {
    var h := block.Hash();
    var i, j :| 0 <= i < j < |ts| && ts[i].root.Prev() == h && ts[j].root.Prev() == h;
    var k := WaitingIndex(ts, h);
    assert k <= i;
    t := ts[j];
    assert t == ts[k + 1..][j - k - 1];
  }

  /** The roots of the trees that were not taken stay roots. */
  lemma RootsStay(ts: seq<BlockTree>, block: Block, t: BlockTree) returns (u: BlockTree)
    requires t in Remaining(ts, block.Hash())
    ensures u in Pushed(ts, block) && u.root == t.root
  {
    hide Adopted, Extended, Accepts, Successors, Remaining;
    var rest := Remaining(ts, block.Hash());
    var successors := Successors(ts, block.Hash());
    var k :| 0 <= k < |rest| && rest[k] == t;
    var i := First(rest, t => Accepts(t, block));
    TakerRoot(t, block, successors);
    u := if i == k then Adopted(Extended(t, block), block.Hash(), successors) else t;
    assert u == Pushed(ts, block)[k];
  }

  lemma TakerRoot(t: BlockTree, block: Block, successors: seq<BlockTree>)
    ensures Adopted(Extended(t, block), block.Hash(), successors).root == t.root
  {
  }

  /** For a well-formed forest: pushing a block keeps it well formed if and only if at most one root waits for the block. */
  lemma PushKeepsWellFormedIff(ts: seq<BlockTree>, block: Block)
    requires WellFormed(ts)
    ensures WellFormed(Pushed(ts, block)) <==> Deliverable(ts, block)
  {
    if Deliverable(ts, block) {
      PushKeepsWellFormed(ts, block);
    } else {
      var t := SecondStillWaits(ts, block);
      TakeTreeSplits(ts, block.Hash());
      var u := RootsStay(ts, block, t);
      assert !Present(BagOf(ts), block.Hash());
      PushConserves(ts, block);
      assert block in BagOf(Pushed(ts, block));
    }
  }

  /**
   The same with the anchor: it stays outside the forest if and only if, in addition, the pushed
   block is not the anchor itself, delivered again.
   */
  lemma PushKeepsWellAnchoredIff(ts: seq<BlockTree>, anchor: BlockHash, block: Block)
    requires WellAnchored(ts, anchor)
    ensures WellAnchored(Pushed(ts, block), anchor) <==> Deliverable(ts, block) && block.Hash() != anchor
  {
    PushKeepsWellFormedIff(ts, block);
    PushConserves(ts, block);
    if block.Hash() == anchor {
      assert block in BagOf(Pushed(ts, block));
    }
  }
}
