/**
 When `pop` finalises a block, which one, and what it keeps.
 */
module Finality {
  import opened Wrappers
  import opened Bitcoin
  import opened BlockTrees
  import opened BlockForests
  import opened ForestInvariants

  /** The rule for finality: deep enough, and deeper by `delta` than each competing tree. */
  ghost predicate Stable(delta: nat, attached: seq<BlockTree>, t: BlockTree)
  {
    && t in attached
    && Depth(t) >= delta
    && forall u | u in multiset(attached) - multiset{t} :: Depth(t) - Depth(u) >= delta
  }

  // ---------- Which block is popped ----------

  lemma InFront(ts: seq<BlockTree>)
    requires ts != []
    ensures multiset(ts) - multiset{ts[|ts| - 1]} == multiset(ts[..|ts| - 1])
  {
    assert ts == ts[..|ts| - 1] + [ts[|ts| - 1]];
  }

  /** In a sorted list, comparing the last two trees is comparing the last with all. */
  lemma LastDecides(delta: nat, ts: seq<BlockTree>)
    requires SortedByDepth(ts) && ts != []
    ensures var n := |ts|;
      (Depth(ts[n - 1]) >= delta && (n >= 2 ==> Depth(ts[n - 1]) - Depth(ts[n - 2]) >= delta))
      <==> Stable(delta, ts, ts[n - 1])
  {
    hide Depth;
    var n := |ts|;
    InFront(ts);
    if n >= 2 {
      assert ts[n - 2] == ts[..n - 1][n - 2];
      assert ts[n - 2] in multiset(ts[..n - 1]);
      forall u | u in multiset(ts[..n - 1])
        ensures Depth(u) <= Depth(ts[n - 2])
      {
        var k :| 0 <= k < n - 1 && ts[..n - 1][k] == u;
      }
    }
  }

  /** If any tree is stable, the last of the sorted list is. */
  lemma LastIsStable(delta: nat, ts: seq<BlockTree>, t: BlockTree)
    requires SortedByDepth(ts) && Stable(delta, ts, t)
    ensures Stable(delta, ts, ts[|ts| - 1])
  {
  }

  lemma StableAnyOrder(delta: nat, ts: seq<BlockTree>, us: seq<BlockTree>, t: BlockTree)
    requires multiset(ts) == multiset(us)
    ensures Stable(delta, ts, t) <==> Stable(delta, us, t)
  {
    assert t in ts <==> t in multiset(ts);
    assert t in us <==> t in multiset(us);
  }

  lemma SortedStable(delta: nat, sorted: seq<BlockTree>, t: BlockTree)
    requires SortedByDepth(sorted)
    ensures StableTree(delta, sorted) == Some(t) ==> Stable(delta, sorted, t)
    ensures Stable(delta, sorted, t) ==> StableTree(delta, sorted).Some?
  {
    if sorted != [] {
      LastDecides(delta, sorted);
      if Stable(delta, sorted, t) {
        LastIsStable(delta, sorted, t);
      }
    }
  }

  /** The sorted list yields a stable tree if there is one, and otherwise nothing. */
  lemma StableTreeIsExact(delta: nat, attached: seq<BlockTree>, t: BlockTree)
    ensures StableTree(delta, SortByDepth(attached)) == Some(t) ==> Stable(delta, attached, t)
    ensures Stable(delta, attached, t) ==> StableTree(delta, SortByDepth(attached)).Some?
  {
    SortIsSorted(attached);
    StableAnyOrder(delta, attached, SortByDepth(attached), t);
    SortedStable(delta, SortByDepth(attached), t);
  }

  /** `pop` returns a block exactly when some attached tree is stable, and then it is the root of one. */
  lemma PopIsExact(delta: nat, ts: seq<BlockTree>, anchor: BlockHash)
    ensures Popped(delta, ts, anchor).0.Some? <==> exists t :: Stable(delta, Attached(ts, anchor), t)
    ensures Popped(delta, ts, anchor).0.Some? ==>
      exists t :: Stable(delta, Attached(ts, anchor), t) && Popped(delta, ts, anchor).0.value == t.root
               && Popped(delta, ts, anchor).1 == Detached(ts, anchor) + t.children
  {
    var attached := Attached(ts, anchor);
    forall t {
      StableTreeIsExact(delta, attached, t);
    }
  }

  /** With `delta` at least 1, ties are impossible: the stable tree is unique, and occurs once. */
  lemma StableIsUnique(delta: nat, attached: seq<BlockTree>, t: BlockTree, u: BlockTree)
    requires delta >= 1 && Stable(delta, attached, t) && Stable(delta, attached, u)
    ensures t == u && multiset(attached)[t] == 1
  {
  }

  // ---------- No block is lost or invented ----------

  lemma {:induction false} InsertBag(t: BlockTree, ts: seq<BlockTree>)
    ensures BagOf(InsertByDepth(t, ts)) == Bag(t) + BagOf(ts)
  {
    var r := InsertByDepth(t, ts);
    if ts == [] || Depth(t) <= Depth(ts[0]) {
      assert r[1..] == ts;
    } else {
      InsertBag(t, ts[1..]);
      assert r[1..] == InsertByDepth(t, ts[1..]);
    }
  }

  lemma {:induction false} SortBag(ts: seq<BlockTree>)
    ensures BagOf(SortByDepth(ts)) == BagOf(ts)
  {
    if ts != [] {
      SortBag(ts[1..]);
      InsertBag(ts[0], SortByDepth(ts[1..]));
    }
  }

  lemma BagOfOptional(t: BlockTree, keep: bool, ts: seq<BlockTree>)
    ensures BagOf((if keep then [t] else []) + ts) == (if keep then Bag(t) else multiset{}) + BagOf(ts)
  {
    if keep {
      assert ([t] + ts)[1..] == ts;
    } else {
      assert [] + ts == ts;
    }
  }

  lemma {:induction false} PartitionBag(ts: seq<BlockTree>, anchor: BlockHash)
    ensures BagOf(Attached(ts, anchor)) + BagOf(Detached(ts, anchor)) == BagOf(ts)
  {
    if ts != [] {
      PartitionBag(ts[1..], anchor);
      BagOfOptional(ts[0], ts[0].root.Prev() == anchor, Attached(ts[1..], anchor));
      BagOfOptional(ts[0], ts[0].root.Prev() != anchor, Detached(ts[1..], anchor));
    }
  }

  lemma FirstAndOthers(ts: seq<BlockTree>)
    requires ts != []
    ensures multiset(ts) == multiset{ts[0]} + multiset(ts[1..])
  {
    assert ts == [ts[0]] + ts[1..];
  }

  lemma FirstOfPartition(ts: seq<BlockTree>, anchor: BlockHash)
    requires ts != []
    ensures multiset(Attached(ts, anchor)) + multiset(Detached(ts, anchor))
         == multiset{ts[0]} + multiset(Attached(ts[1..], anchor)) + multiset(Detached(ts[1..], anchor))
  {
    var isAttached := ts[0].root.Prev() == anchor;
    assert Attached(ts, anchor) == (if isAttached then [ts[0]] else []) + Attached(ts[1..], anchor);
    assert Detached(ts, anchor) == (if isAttached then [] else [ts[0]]) + Detached(ts[1..], anchor);
  }

  lemma {:induction false} PartitionTrees(ts: seq<BlockTree>, anchor: BlockHash)
    ensures multiset(Attached(ts, anchor)) + multiset(Detached(ts, anchor)) == multiset(ts)
  {
    if ts != [] {
      hide Attached, Detached;
      PartitionTrees(ts[1..], anchor);
      FirstOfPartition(ts, anchor);
      FirstAndOthers(ts);
    }
  }

  /** A pop that returns nothing only reorders the trees. */
  lemma FailedPopPermutes(delta: nat, ts: seq<BlockTree>, anchor: BlockHash)
    requires Popped(delta, ts, anchor).0.None?
    ensures multiset(Popped(delta, ts, anchor).1) == multiset(ts)
    ensures BagOf(Popped(delta, ts, anchor).1) == BagOf(ts)
  {
    var attached := Attached(ts, anchor);
    PartitionTrees(ts, anchor);
    SortIsSorted(attached);
    PartitionBag(ts, anchor);
    SortBag(attached);
    BagOfAppend(SortByDepth(attached), Detached(ts, anchor));
  }

  lemma StableTreeBag(delta: nat, attached: seq<BlockTree>) returns (t: BlockTree, discarded: seq<BlockTree>)
    requires StableTree(delta, SortByDepth(attached)).Some?
    ensures t == StableTree(delta, SortByDepth(attached)).value
    ensures multiset(attached) == multiset(discarded) + multiset{t}
    ensures BagOf(attached) == multiset{t.root} + BagOf(t.children) + BagOf(discarded)
  {
    hide Bag, BagOf, SortByDepth, Depth;
    var sorted := SortByDepth(attached);
    t, discarded := sorted[|sorted| - 1], sorted[..|sorted| - 1];
    assert multiset(attached) == multiset(discarded) + multiset{t} by {
      SortIsSorted(attached);
      assert sorted == discarded + [t];
    }
    SortBag(attached);
    BagOfLast(sorted);
  }

  /** A pop splits the blocks into the popped one, those that stay, and those of the competing attached trees. */
  lemma PopConserves(delta: nat, ts: seq<BlockTree>, anchor: BlockHash) returns (t: BlockTree, discarded: seq<BlockTree>)
    requires Popped(delta, ts, anchor).0.Some?
    ensures Stable(delta, Attached(ts, anchor), t) && Popped(delta, ts, anchor).0 == Some(t.root)
    ensures Popped(delta, ts, anchor).1 == Detached(ts, anchor) + t.children
    ensures multiset(Attached(ts, anchor)) == multiset(discarded) + multiset{t}
    ensures BagOf(ts) == multiset{t.root} + BagOf(Popped(delta, ts, anchor).1) + BagOf(discarded)
  {
    t, discarded := StableTreeBag(delta, Attached(ts, anchor));
    StableTreeIsExact(delta, Attached(ts, anchor), t);
    PartitionBag(ts, anchor);
    BagOfAppend(Detached(ts, anchor), t.children);
  }

  lemma BagOfLast(ts: seq<BlockTree>)
    requires ts != []
    ensures BagOf(ts) == BagOf(ts[..|ts| - 1]) + multiset{ts[|ts| - 1].root} + BagOf(ts[|ts| - 1].children)
  {
    BagOfSplit(ts, |ts| - 1);
    assert ts[|ts|..] == [];
  }

  // ---------- pop keeps the forest well formed ----------

  /** The anchor after a pop: the popped block, if any. */
  ghost function NextAnchor(popped: Option<Block>, anchor: BlockHash): BlockHash
  {
    match popped
    case Some(b) => b.Hash()
    case None => anchor
  }

  /** The same trees in another order. */
  lemma PermutedIsWellFormed(ts: seq<BlockTree>, us: seq<BlockTree>)
    requires WellFormed(ts) && multiset(us) == multiset(ts) && BagOf(us) == BagOf(ts)
    ensures WellFormed(us)
  {
    forall t | t in us
      ensures t in ts
    {
      assert t in multiset(us);
    }
  }

  /** The trees below a root, with some of the other trees. */
  lemma CutIsWellFormed(ts: seq<BlockTree>, t: BlockTree, kept: seq<BlockTree>)
    requires WellFormed(ts) && t in ts && (forall u | u in kept :: u in ts)
    requires multiset{t.root} + BagOf(kept + t.children) <= BagOf(ts)
    ensures WellFormed(kept + t.children) && !Present(BagOf(kept + t.children), t.root.Hash())
  {
    var rest := kept + t.children;
    assert t.root in BagOf(ts) && BagOf(ts)[t.root] == 1;
    assert t.root !in BagOf(rest);
    forall b | b in BagOf(rest)
      ensures b in BagOf(ts) && b.Hash() != t.root.Hash() && BagOf(rest)[b] == 1
    {
      assert BagOf(ts)[b] == 1;
    }
  }

  /** `pop` keeps the forest well formed, and the new anchor is outside it. */
  lemma PopKeepsWellFormed(delta: nat, ts: seq<BlockTree>, anchor: BlockHash)
    requires WellAnchored(ts, anchor)
    ensures WellAnchored(Popped(delta, ts, anchor).1, NextAnchor(Popped(delta, ts, anchor).0, anchor))
  {
    if Popped(delta, ts, anchor).0.None? {
      FailedPopPermutes(delta, ts, anchor);
      PermutedIsWellFormed(ts, Popped(delta, ts, anchor).1);
    } else {
      var t, discarded := PopConserves(delta, ts, anchor);
      CutIsWellFormed(ts, t, Detached(ts, anchor));
    }
  }
}
