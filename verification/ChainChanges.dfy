/**
 How the current chain changes when a block is popped, and when a block is pushed.
 */
module ChainChanges {
  import opened Wrappers
  import opened Bitcoin
  import opened BlockTrees
  import opened BlockForests
  import opened ForestInvariants
  import opened Finality
  import opened ChainSelection

  // ---------- pop ----------

  /** Is every other attached tree shallower than `t`? */
  ghost predicate Untied(attached: seq<BlockTree>, t: BlockTree)
  {
    t in attached && forall u | u in multiset(attached) - multiset{t} :: Depth(u) < Depth(t)
  }

  /** The longest chain of an attached tree that is not shallower than any other is a longest path. */
  lemma DeepestChainIsLongest(ts: seq<BlockTree>, anchor: BlockHash, t: BlockTree) returns (p: BlockChain)
    requires WellAnchored(ts, anchor) && t in Attached(ts, anchor)
    requires forall u | u in Attached(ts, anchor) :: Depth(u) <= Depth(t)
    ensures IsLongestPath(Blocks(ts), anchor, p) && |p| == Depth(t) + 1 && p[0] == t.root
  {
    p := DepthIsLongestChain(t);
    var i := TreeIn(ts, t);
    TreesAreInside(ts, i);
    ChainIsMaximal(t, Blocks(ts), p);
    forall q | IsPath(Blocks(ts), anchor, q)
      ensures |q| <= |p|
    {
      if q != [] {
        var u, c := PathInForest(ts, anchor, q);
        var _ := DepthIsLongestChain(u);
      }
    }
  }

  /** If one attached tree is deeper than all others, every longest path starts at its root. */
  lemma LongestPathsStartAt(ts: seq<BlockTree>, anchor: BlockHash, t: BlockTree, p: BlockChain)
    requires WellAnchored(ts, anchor) && Untied(Attached(ts, anchor), t)
    requires IsLongestPath(Blocks(ts), anchor, p)
    ensures p != [] && p[0] == t.root
  {
    OthersAreShallower(Attached(ts, anchor), t);
    var q := DeepestChainIsLongest(ts, anchor, t);
    var u, c := PathInForest(ts, anchor, p);
    var _ := DepthIsLongestChain(u);
  }

  lemma OthersAreShallower(attached: seq<BlockTree>, t: BlockTree)
    requires Untied(attached, t)
    ensures forall u | u in attached :: u == t || Depth(u) < Depth(t)
  {
  }

  /** The paths that go on from the root of a tree stay below it. */
  lemma {:induction false} PathStaysBelow(t: BlockTree, s: set<Block>, q: BlockChain)
    requires Inside(t, s) && IsPath(s, t.root.Hash(), q)
    ensures forall b | b in q :: b in BagOf(t.children)
  {
    if q != [] {
      var front := q[..|q| - 1];
      PathStaysBelow(t, s, front);
      var last := q[|q| - 1];
      assert last in s;
      if front != [] {
        assert front[|front| - 1] in front;
      }
      assert q == front + [last];
    }
  }

  /** Paths in a smaller set of blocks that still holds everything below the root are the same. */
  lemma SamePathsBelow(t: BlockTree, s: set<Block>, rest: set<Block>, q: BlockChain)
    requires Inside(t, s) && rest <= s && forall b | b in BagOf(t.children) :: b in rest
    ensures IsPath(s, t.root.Hash(), q) <==> IsPath(rest, t.root.Hash(), q)
  {
    if IsPath(s, t.root.Hash(), q) {
      PathStaysBelow(t, s, q);
    }
  }

  /** If all longest paths go through `b`, the rest of each is a longest path from `b`, and conversely. */
  lemma LongestPathTails(s: set<Block>, rest: set<Block>, anchor: BlockHash, b: Block, q: BlockChain)
    requires b in s && b.Prev() == anchor
    requires exists p :: IsLongestPath(s, anchor, p)
    requires forall p | IsLongestPath(s, anchor, p) :: p != [] && p[0] == b
    requires forall q :: IsPath(s, b.Hash(), q) <==> IsPath(rest, b.Hash(), q)
    ensures IsLongestPath(s, anchor, [b] + q) <==> IsLongestPath(rest, b.Hash(), q)
  {
    assert ([b] + q)[1..] == q;
    PathTail(s, anchor, [b] + q);
    if IsLongestPath(s, anchor, [b] + q) {
      forall q' | IsPath(rest, b.Hash(), q')
        ensures |q'| <= |q|
      {
        assert ([b] + q')[1..] == q';
        PathTail(s, anchor, [b] + q');
      }
    }
    if IsLongestPath(rest, b.Hash(), q) {
      var p :| IsLongestPath(s, anchor, p);
      PathTail(s, anchor, p);
      assert IsPath(rest, b.Hash(), p[1..]);
    }
  }

  lemma SharedTail(s: set<Block>, rest: set<Block>, anchor: BlockHash, b: Block, q: BlockChain)
    requires forall q :: IsLongestPath(s, anchor, [b] + q) <==> IsLongestPath(rest, b.Hash(), q)
    requires IsShared(s, anchor, q) && q != []
    ensures IsShared(rest, b.Hash(), q[1..])
  {
  }

  lemma SharedWithHead(s: set<Block>, rest: set<Block>, anchor: BlockHash, b: Block, r: BlockChain)
    requires forall p | IsLongestPath(s, anchor, p) :: p != [] && p[0] == b
    requires forall q :: IsLongestPath(s, anchor, [b] + q) <==> IsLongestPath(rest, b.Hash(), q)
    requires IsShared(rest, b.Hash(), r)
    ensures IsShared(s, anchor, [b] + r)
  {
    forall p | IsLongestPath(s, anchor, p)
      ensures [b] + r <= p
    {
      assert p == [b] + p[1..];
      assert IsLongestPath(rest, b.Hash(), p[1..]);
    }
  }

  lemma CurrentChainTail(s: set<Block>, rest: set<Block>, anchor: BlockHash, b: Block, r: BlockChain)
    requires forall p | IsLongestPath(s, anchor, p) :: p != [] && p[0] == b
    requires forall q :: IsLongestPath(s, anchor, [b] + q) <==> IsLongestPath(rest, b.Hash(), q)
    requires IsCurrentChain(rest, b.Hash(), r)
    ensures IsCurrentChain(s, anchor, [b] + r)
  {
    var q0 :| IsLongestPath(rest, b.Hash(), q0);
    assert IsLongestPath(s, anchor, [b] + q0);
    SharedWithHead(s, rest, anchor, b, r);
    forall q | IsShared(s, anchor, q)
      ensures |q| <= 1 + |r|
    {
      if q != [] {
        SharedTail(s, rest, anchor, b, q);
      }
    }
  }

  lemma LongestPathsAllStartAt(ts: seq<BlockTree>, anchor: BlockHash, t: BlockTree)
    requires WellAnchored(ts, anchor) && Untied(Attached(ts, anchor), t)
    ensures exists p :: IsLongestPath(Blocks(ts), anchor, p)
    ensures forall p | IsLongestPath(Blocks(ts), anchor, p) :: p != [] && p[0] == t.root
  {
    OthersAreShallower(Attached(ts, anchor), t);
    var longest := DeepestChainIsLongest(ts, anchor, t);
    forall p | IsLongestPath(Blocks(ts), anchor, p)
      ensures p != [] && p[0] == t.root
    {
      LongestPathsStartAt(ts, anchor, t, p);
    }
  }

  lemma PathsBelowAreKept(ts: seq<BlockTree>, rest: seq<BlockTree>, t: BlockTree)
    requires WellFormed(ts) && t in ts && BagOf(t.children) <= BagOf(rest) <= BagOf(ts)
    ensures t.root in Blocks(ts)
    ensures forall q :: IsPath(Blocks(ts), t.root.Hash(), q) <==> IsPath(Blocks(rest), t.root.Hash(), q)
  {
    var i := TreeIn(ts, t);
    TreesAreInside(ts, i);
    var s, s' := Blocks(ts), Blocks(rest);
    forall q
      ensures IsPath(s, t.root.Hash(), q) <==> IsPath(s', t.root.Hash(), q)
    {
      SamePathsBelow(t, s, s', q);
    }
  }

  /** The longest paths before a pop are those after it, with the popped block in front. */
  lemma PopCutsLongestPaths(ts: seq<BlockTree>, rest: seq<BlockTree>, anchor: BlockHash, t: BlockTree)
    requires WellAnchored(ts, anchor) && Untied(Attached(ts, anchor), t)
    requires BagOf(t.children) <= BagOf(rest) <= BagOf(ts)
    ensures forall p | IsLongestPath(Blocks(ts), anchor, p) :: p != [] && p[0] == t.root
    ensures forall q :: IsLongestPath(Blocks(ts), anchor, [t.root] + q) <==> IsLongestPath(Blocks(rest), t.root.Hash(), q)
  {
    LongestPathsAllStartAt(ts, anchor, t);
    PathsBelowAreKept(ts, rest, t);
    var s, s' := Blocks(ts), Blocks(rest);
    forall q
      ensures IsLongestPath(s, anchor, [t.root] + q) <==> IsLongestPath(s', t.root.Hash(), q)
    {
      LongestPathTails(s, s', anchor, t.root, q);
    }
  }

  /** If the popped tree is deeper than the others, the pop takes the head of the current chain, and leaves its tail. */
  lemma UntiedPopTakesHead(ts: seq<BlockTree>, rest: seq<BlockTree>, anchor: BlockHash, t: BlockTree)
    requires WellAnchored(ts, anchor) && Untied(Attached(ts, anchor), t)
    requires WellAnchored(rest, t.root.Hash()) && BagOf(t.children) <= BagOf(rest) <= BagOf(ts)
    ensures CurrentChain(ts, anchor) == [t.root] + CurrentChain(rest, t.root.Hash())
  {
    var r := CurrentChain(rest, t.root.Hash());
    PopCutsLongestPaths(ts, rest, anchor, t);
    CurrentChainIsCurrent(ts, anchor);
    CurrentChainIsCurrent(rest, t.root.Hash());
    CurrentChainTail(Blocks(ts), Blocks(rest), anchor, t.root, r);
    CurrentChainIsUnique(Blocks(ts), anchor, CurrentChain(ts, anchor), [t.root] + r);
  }

  lemma UntiedPop(ts: seq<BlockTree>, anchor: BlockHash, t: BlockTree, kept: seq<BlockTree>)
    requires WellAnchored(ts, anchor) && Untied(Attached(ts, anchor), t)
    requires WellAnchored(kept + t.children, t.root.Hash()) && BagOf(kept + t.children) <= BagOf(ts)
    ensures CurrentChain(ts, anchor) == [t.root] + CurrentChain(kept + t.children, t.root.Hash())
  {
    BagOfAppend(kept, t.children);
    UntiedPopTakesHead(ts, kept + t.children, anchor, t);
  }

  /** With `delta` at least 1, a pop takes the head of the current chain. */
  lemma PopTakesHead(delta: nat, ts: seq<BlockTree>, anchor: BlockHash)
    requires delta >= 1 && WellAnchored(ts, anchor) && Popped(delta, ts, anchor).0.Some?
    ensures var (popped, rest) := Popped(delta, ts, anchor);
      CurrentChain(ts, anchor) == [popped.value] + CurrentChain(rest, popped.value.Hash())
  {
    var t, discarded := PopConserves(delta, ts, anchor);
    PopKeepsWellFormed(delta, ts, anchor);
    UntiedPop(ts, anchor, t, Detached(ts, anchor));
  }

  /** If two attached trees are equally deep and none is deeper, the current chain is empty. */
  lemma TiedTreesContest(ts: seq<BlockTree>, anchor: BlockHash, t: BlockTree, u: BlockTree)
    requires WellAnchored(ts, anchor) && t.root != u.root && Depth(t) == Depth(u)
    requires t in Attached(ts, anchor) && u in Attached(ts, anchor)
    requires forall v | v in Attached(ts, anchor) :: Depth(v) <= Depth(t)
    ensures CurrentChain(ts, anchor) == []
  {
    var p := DeepestChainIsLongest(ts, anchor, t);
    var q := DeepestChainIsLongest(ts, anchor, u);
    CurrentChainIsCurrent(ts, anchor);
    assert CurrentChain(ts, anchor) <= p && CurrentChain(ts, anchor) <= q;
  }

  lemma StableIsDeepest(delta: nat, attached: seq<BlockTree>, t: BlockTree)
    requires Stable(delta, attached, t)
    ensures forall v | v in attached :: Depth(v) <= Depth(t)
  {
  }

  /** A discarded tree has another root than the popped one. */
  lemma DiscardedRootDiffers(ts: seq<BlockTree>, t: BlockTree, discarded: seq<BlockTree>, u: BlockTree)
    requires Distinct(BagOf(ts)) && multiset{t.root} + BagOf(discarded) <= BagOf(ts) && u in discarded
    ensures t.root != u.root
  {
    var i := TreeIn(discarded, u);
    assert BagOf(discarded)[u.root] >= 1;
    assert u.root in BagOf(ts) && BagOf(ts)[u.root] == 1;
  }

  lemma TiedPop(ts: seq<BlockTree>, anchor: BlockHash, t: BlockTree, discarded: seq<BlockTree>, delta: nat)
    requires WellAnchored(ts, anchor) && Stable(delta, Attached(ts, anchor), t) && !Untied(Attached(ts, anchor), t)
    requires multiset(Attached(ts, anchor)) == multiset(discarded) + multiset{t}
    requires multiset{t.root} + BagOf(discarded) <= BagOf(ts)
    ensures CurrentChain(ts, anchor) == []
  {
    var u :| u in multiset(Attached(ts, anchor)) - multiset{t} && Depth(u) >= Depth(t);
    assert u in multiset(discarded) && u in multiset(Attached(ts, anchor));
    StableIsDeepest(delta, Attached(ts, anchor), t);
    DiscardedRootDiffers(ts, t, discarded, u);
    TiedTreesContest(ts, anchor, t, u);
  }

  /**
   For every `delta`, zero included: the popped block heads the current chain if and only if no
   competing tree is as deep as the popped one.
   */
  lemma PopTakesHeadUnlessTied(delta: nat, ts: seq<BlockTree>, anchor: BlockHash) returns (t: BlockTree)
    requires WellAnchored(ts, anchor) && Popped(delta, ts, anchor).0.Some?
    ensures Stable(delta, Attached(ts, anchor), t) && Popped(delta, ts, anchor).0 == Some(t.root)
    ensures (CurrentChain(ts, anchor) != [] && CurrentChain(ts, anchor)[0] == t.root)
            <==> Untied(Attached(ts, anchor), t)
  {
    var discarded;
    t, discarded := PopConserves(delta, ts, anchor);
    if Untied(Attached(ts, anchor), t) {
      PopKeepsWellFormed(delta, ts, anchor);
      UntiedPop(ts, anchor, t, Detached(ts, anchor));
    } else {
      TiedPop(ts, anchor, t, discarded, delta);
    }
  }

  // ---------- push ----------

  /** Each step of a path is one generation later. */
  lemma {:induction false} PathGeneration(s: set<Block>, anchor: BlockHash, p: BlockChain)
    requires IsPath(s, anchor, p)
    ensures Tip(anchor, p).Generation() == anchor.Generation() + |p|
  {
    if p != [] {
      PathGeneration(s, anchor, p[..|p| - 1]);
    }
  }

  /** There is one path to a block. */
  lemma {:induction false} PathIsUnique(s: set<Block>, anchor: BlockHash, p: BlockChain, q: BlockChain)
    requires HashesIdentify(s) && IsPath(s, anchor, p) && IsPath(s, anchor, q)
    requires Tip(anchor, p) == Tip(anchor, q)
    ensures p == q
  {
    PathGeneration(s, anchor, p);
    PathGeneration(s, anchor, q);
    if p != [] {
      var n := |p| - 1;
      assert p[n] == q[n];
      PathIsUnique(s, anchor, p[..n], q[..n]);
      assert p == p[..n] + [p[n]] && q == q[..n] + [q[n]];
    }
  }

  /** A block that is new, and that no known block extends. */
  ghost predicate IsFreshLeaf(s: set<Block>, b: Block)
  {
    forall c | c in s :: c.Hash() != b.Hash() && c.Prev() != b.Hash()
  }

  /** A fresh leaf adds one path: the one that ends in it. */
  lemma FreshLeafPaths(s: set<Block>, b: Block, anchor: BlockHash, path: BlockChain, q: BlockChain)
    requires HashesIdentify(s) && IsFreshLeaf(s, b)
    requires IsPath(s + {b}, anchor, path) && path != [] && path[|path| - 1] == b
    ensures IsPath(s + {b}, anchor, q) <==> IsPath(s, anchor, q) || q == path
  {
    if IsPath(s + {b}, anchor, q) && !IsPath(s, anchor, q) {
      LeafIsLast(s, b, anchor, q);
      PathIsUnique(s + {b}, anchor, q, path);
    }
  }

  lemma LeafIsLast(s: set<Block>, b: Block, anchor: BlockHash, q: BlockChain)
    requires IsFreshLeaf(s, b) && IsPath(s + {b}, anchor, q) && !IsPath(s, anchor, q)
    ensures q != [] && q[|q| - 1] == b
  {
    var i :| 0 <= i < |q| && q[i] !in s;
    assert q[i] == b;
    assert b.Hash().Generation() == 1 + b.Prev().Generation();
    if i + 1 < |q| {
      assert q[i + 1].Prev() == q[i].Hash();
    }
  }

  /** The first index at which two chains differ, or one of them ends. */
  ghost function MeetLength(p: BlockChain, q: BlockChain, i: nat): (k: nat)
    requires i <= |p| && i <= |q| && p[..i] == q[..i]
    ensures k <= |p| && k <= |q| && p[..k] == q[..k]
    ensures k < |p| && k < |q| ==> p[k] != q[k]
    decreases |p| - i
  {
    if i == |p| || i == |q| || p[i] != q[i] then
      i
    else
      assert p[..i + 1] == p[..i] + [p[i]] == q[..i + 1];
      MeetLength(p, q, i + 1)
  }

  /** The longest common prefix of two chains. */
  ghost function Meet(p: BlockChain, q: BlockChain): BlockChain
  {
    p[..MeetLength(p, q, 0)]
  }

  lemma MeetIsLongest(p: BlockChain, q: BlockChain, c: BlockChain)
    ensures Meet(p, q) <= p && Meet(p, q) <= q
    ensures c <= p && c <= q ==> |c| <= |Meet(p, q)|
  {
    var k := MeetLength(p, q, 0);
    assert c <= p && k < |c| ==> p[k] == c[k];
  }

  /** The current chain after a fresh leaf, whose path has length `|path|` against the longest length `|longest|`. */
  ghost function Reorganised(r: BlockChain, longest: nat, path: BlockChain): BlockChain
  {
    if |path| < longest then r else if |path| == longest then Meet(r, path) else path
  }

  lemma LongestWithLeaf(s: set<Block>, b: Block, anchor: BlockHash, path: BlockChain, longest: BlockChain, q: BlockChain)
    requires HashesIdentify(s) && IsFreshLeaf(s, b)
    requires IsPath(s + {b}, anchor, path) && path != [] && path[|path| - 1] == b
    requires IsLongestPath(s, anchor, longest)
    ensures IsLongestPath(s + {b}, anchor, q) <==>
      || (IsLongestPath(s, anchor, q) && |path| <= |longest|)
      || (q == path && |path| >= |longest|)
  {
    forall p
      ensures IsPath(s + {b}, anchor, p) <==> IsPath(s, anchor, p) || p == path
    {
      FreshLeafPaths(s, b, anchor, path, p);
    }
  }

  /** If the longest paths of `s'` are those of `s`, the current chains are the same. */
  lemma SameLongestPaths(s: set<Block>, s': set<Block>, anchor: BlockHash, r: BlockChain)
    requires forall q :: IsLongestPath(s', anchor, q) <==> IsLongestPath(s, anchor, q)
    requires IsCurrentChain(s, anchor, r)
    ensures IsCurrentChain(s', anchor, r)
  {
    forall q
      ensures IsShared(s', anchor, q) <==> IsShared(s, anchor, q)
    {
    }
  }

  /** If the only longest path is `path`, it is the current chain. */
  lemma OnlyLongestPath(s': set<Block>, anchor: BlockHash, path: BlockChain)
    requires forall q :: IsLongestPath(s', anchor, q) <==> q == path
    ensures IsCurrentChain(s', anchor, path)
  {
    assert IsLongestPath(s', anchor, path);
  }

  /** One more longest path cuts the current chain back to what it shares with that path. */
  lemma OneMoreLongestPath(s: set<Block>, s': set<Block>, anchor: BlockHash, path: BlockChain, r: BlockChain)
    requires forall q :: IsLongestPath(s', anchor, q) <==> IsLongestPath(s, anchor, q) || q == path
    requires IsCurrentChain(s, anchor, r)
    ensures IsCurrentChain(s', anchor, Meet(r, path))
  {
    hide IsLongestPath, Meet;
    assert IsLongestPath(s', anchor, path);
    MeetIsLongest(r, path, []);
    var longest :| IsLongestPath(s, anchor, longest);
    forall q | IsShared(s', anchor, q)
      ensures |q| <= |Meet(r, path)|
    {
      assert IsShared(s, anchor, q);
      assert q <= longest && r <= longest && |q| <= |r|;
      assert q <= r;
      MeetIsLongest(r, path, q);
    }
    forall p | IsLongestPath(s', anchor, p)
      ensures Meet(r, path) <= p
    {
      assert p != path ==> r <= p;
    }
  }

  lemma LeafReorganises(s: set<Block>, b: Block, anchor: BlockHash, path: BlockChain, longest: BlockChain, r: BlockChain)
    requires HashesIdentify(s) && IsFreshLeaf(s, b)
    requires IsPath(s + {b}, anchor, path) && path != [] && path[|path| - 1] == b
    requires IsLongestPath(s, anchor, longest) && IsCurrentChain(s, anchor, r)
    ensures IsCurrentChain(s + {b}, anchor, Reorganised(r, |longest|, path))
  {
    var s' := s + {b};
    forall q
      ensures IsLongestPath(s', anchor, q) <==>
        (IsLongestPath(s, anchor, q) && |path| <= |longest|) || (q == path && |path| >= |longest|)
    {
      LongestWithLeaf(s, b, anchor, path, longest, q);
    }
    if |path| < |longest| {
      SameLongestPaths(s, s', anchor, r);
    } else if |path| == |longest| {
      OneMoreLongestPath(s, s', anchor, path, r);
    } else {
      OnlyLongestPath(s', anchor, path);
    }
  }

  lemma LongestLengthIsLongestPath(ts: seq<BlockTree>, anchor: BlockHash) returns (longest: BlockChain)
    requires WellAnchored(ts, anchor)
    ensures IsLongestPath(Blocks(ts), anchor, longest)
    ensures |longest| == LongestLength(ChainsOf(Attached(ts, anchor)))
  {
    var chains := ChainsOf(Attached(ts, anchor));
    if chains == [] {
      longest := [];
      NoChainsNoPaths(ts, anchor);
    } else {
      LongestExists(chains);
      longest := Longest(chains)[0];
      assert longest in Longest(chains);
      LongestChainsAreLongestPaths(ts, anchor, longest);
    }
  }

  lemma {:induction false} LeafIsDeliverable(ts: seq<BlockTree>, block: Block)
    requires IsFreshLeaf(Blocks(ts), block)
    ensures Deliverable(ts, block) && !Present(BagOf(ts), block.Hash())
  {
    forall t | t in ts
      ensures t.root.Prev() != block.Hash()
    {
      var i := TreeIn(ts, t);
      assert t.root in Blocks(ts);
    }
    forall b | b in BagOf(ts)
      ensures b.Hash() != block.Hash()
    {
      assert b in Blocks(ts);
    }
  }

  /**
   The reorganisation law. Pushing a fresh leaf whose path from the anchor is shorter than the
   longest leaves the current chain unchanged; one of equal length cuts the current chain back to
   what it shares with the new path; a longer one becomes the current chain.
   */
  lemma Reorganisation(ts: seq<BlockTree>, anchor: BlockHash, block: Block, path: BlockChain)
    requires WellAnchored(ts, anchor) && IsFreshLeaf(Blocks(ts), block) && block.Hash() != anchor
    requires IsPath(Blocks(ts) + {block}, anchor, path) && path != [] && path[|path| - 1] == block
    ensures CurrentChain(Pushed(ts, block), anchor) ==
            Reorganised(CurrentChain(ts, anchor), LongestLength(ChainsOf(Attached(ts, anchor))), path)
  {
    assert HashesIdentify(Blocks(ts));
    hide Pushed, CurrentChain, WellFormed, Deliverable, IsPath, IsCurrentChain, ChainsOf, HashesIdentify;
    var us := Pushed(ts, block);
    LeafIsDeliverable(ts, block);
    PushKeepsWellFormed(ts, block);
    BlocksGain(ts, us, block);
    CurrentChainIsCurrent(ts, anchor);
    CurrentChainIsCurrent(us, anchor);
    var longest := LongestLengthIsLongestPath(ts, anchor);
    var r := Reorganised(CurrentChain(ts, anchor), |longest|, path);
    LeafReorganises(Blocks(ts), block, anchor, path, longest, CurrentChain(ts, anchor));
    CurrentChainIsUnique(Blocks(us), anchor, CurrentChain(us, anchor), r);
  }

  /** A fresh leaf that no path from the anchor reaches leaves the current chain unchanged. */
  lemma DetachedLeafChangesNothing(ts: seq<BlockTree>, anchor: BlockHash, block: Block)
    requires WellAnchored(ts, anchor) && IsFreshLeaf(Blocks(ts), block) && block.Hash() != anchor
    requires forall p | IsPath(Blocks(ts) + {block}, anchor, p) :: p == [] || p[|p| - 1] != block
    ensures CurrentChain(Pushed(ts, block), anchor) == CurrentChain(ts, anchor)
  {
    var s, us := Blocks(ts), Pushed(ts, block);
    LeafIsDeliverable(ts, block);
    PushKeepsWellFormed(ts, block);
    BlocksGain(ts, us, block);
    forall q
      ensures IsPath(s + {block}, anchor, q) <==> IsPath(s, anchor, q)
    {
      if IsPath(s + {block}, anchor, q) && !IsPath(s, anchor, q) {
        LeafIsLast(s, block, anchor, q);
      }
    }
    hide Pushed, CurrentChain, IsPath, WellFormed, BagOf;
    CurrentChainIsCurrent(ts, anchor);
    CurrentChainIsCurrent(us, anchor);
    SameLongestPaths(s, s + {block}, anchor, CurrentChain(ts, anchor));
    CurrentChainIsUnique(Blocks(us), anchor, CurrentChain(us, anchor), CurrentChain(ts, anchor));
  }
}
