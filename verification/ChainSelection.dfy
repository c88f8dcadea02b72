/**
 What `get_current_chain` computes, in terms of hash-linked paths of blocks: a definition that
 mentions neither trees nor the order in which blocks arrived.
 */
module ChainSelection {
  import opened Bitcoin
  import opened BlockTrees
  import opened BlockForests
  import opened ForestInvariants

  /** A path of blocks of `s` that starts right after `anchor`. */
  ghost predicate IsPath(s: set<Block>, anchor: BlockHash, p: BlockChain)
  {
    && (forall i | 0 <= i < |p| :: p[i] in s)
    && (p != [] ==> p[0].Prev() == anchor)
    && (forall i | 1 <= i < |p| :: p[i].Prev() == p[i - 1].Hash())
  }

  ghost function Tip(anchor: BlockHash, p: BlockChain): BlockHash
  {
    if p == [] then anchor else p[|p| - 1].Hash()
  }

  /** A non-empty path that no block of `s` extends. */
  ghost predicate IsMaximalPath(s: set<Block>, anchor: BlockHash, p: BlockChain)
  {
    IsPath(s, anchor, p) && p != [] && forall b | b in s :: b.Prev() != Tip(anchor, p)
  }

  ghost predicate IsLongestPath(s: set<Block>, anchor: BlockHash, p: BlockChain)
  {
    IsPath(s, anchor, p) && forall q | IsPath(s, anchor, q) :: |q| <= |p|
  }

  /** Do all longest paths start with `r`? */
  ghost predicate IsShared(s: set<Block>, anchor: BlockHash, r: BlockChain)
  {
    forall p | IsLongestPath(s, anchor, p) :: r <= p
  }

  /** The definition of the current chain: the longest common prefix of all longest paths. */
  ghost predicate IsCurrentChain(s: set<Block>, anchor: BlockHash, r: BlockChain)
  {
    && (exists p :: IsLongestPath(s, anchor, p))
    && IsShared(s, anchor, r)
    && forall q | IsShared(s, anchor, q) :: |q| <= |r|
  }

  lemma CurrentChainIsUnique(s: set<Block>, anchor: BlockHash, r: BlockChain, q: BlockChain)
    requires IsCurrentChain(s, anchor, r) && IsCurrentChain(s, anchor, q)
    ensures r == q
  {
    var p :| IsLongestPath(s, anchor, p);
    assert r <= p && q <= p;
  }

  // ---------- Paths inside one tree ----------

  /** The successors in `s` of each block of the tree are in the tree, below the root. */
  ghost predicate Inside(t: BlockTree, s: set<Block>)
  {
    && Linked(t) && Distinct(Bag(t))
    && (forall b | b in Bag(t) :: b in s)
    && (forall n, c | n in Bag(t) && c in s && c.Prev() == n.Hash() :: c in BagOf(t.children))
  }

  lemma TreesAreInside(ts: seq<BlockTree>, i: nat)
    requires WellFormed(ts) && i < |ts|
    ensures Inside(ts[i], Blocks(ts))
  {
    BagIn(ts, i);
    DistinctPart(BagOf(ts), Bag(ts[i]));
    forall n, c | n in Bag(ts[i]) && c in Blocks(ts) && c.Prev() == n.Hash()
      ensures c in BagOf(ts[i].children)
    {
      SuccessorInside(ts, i, n, c);
    }
  }

  lemma DistinctPart(m: multiset<Block>, n: multiset<Block>)
    requires Distinct(m) && n <= m
    ensures Distinct(n)
  {
  }

  lemma ChildrenAreInside(t: BlockTree, s: set<Block>, i: nat)
    requires Inside(t, s) && i < |t.children|
    ensures Inside(t.children[i], s)
  {
    var u := t.children[i];
    assert BagOf(t.children) <= Bag(t);
    DistinctPart(Bag(t), BagOf(t.children));
    BagIn(t.children, i);
    DistinctPart(Bag(t), Bag(u));
    forall n, c | n in Bag(u) && c in s && c.Prev() == n.Hash()
      ensures c in BagOf(u.children)
    {
      var k := TreeOf(t.children, c);
      BagIn(t.children, k);
      var _ := ParentInside(t, n);
      var p := ParentInside(t.children[k], c);
      assert p == n;
      SameTree(t.children, i, k, n);
    }
  }

  /** The successors of the root are the roots of its children. */
  lemma RootSuccessor(t: BlockTree, s: set<Block>, c: Block) returns (i: nat)
    requires Inside(t, s) && c in s && c.Prev() == t.root.Hash()
    ensures i < |t.children| && t.children[i].root == c
  {
    i := TreeOf(t.children, c);
    if c != t.children[i].root {
      var p := ParentInside(t.children[i], c);
      BagIn(t.children, i);
      var _ := ParentInside(t, p);
    }
  }

  lemma PathTail(s: set<Block>, anchor: BlockHash, p: BlockChain)
    requires p != []
    ensures IsPath(s, anchor, p) <==> p[0] in s && p[0].Prev() == anchor && IsPath(s, p[0].Hash(), p[1..])
  {
  }

  /** Every chain of a tree is a maximal path. */
  lemma {:induction false} ChainIsMaximal(t: BlockTree, s: set<Block>, p: BlockChain)
    requires Inside(t, s) && p in Blockchains(t)
    ensures IsMaximalPath(s, t.root.Prev(), p) && p[0] == t.root
  {
    ChainCases(t, p);
    PathTail(s, t.root.Prev(), p);
    if t.children != [] {
      var i :| 0 <= i < |t.children| && p[1..] in Blockchains(t.children[i]);
      ChildrenAreInside(t, s, i);
      ChainIsMaximal(t.children[i], s, p[1..]);
    }
  }

  /** Every path from the root of a tree stays in the tree: it is the start of one of its chains. */
  lemma {:induction false} PathInTree(t: BlockTree, s: set<Block>, p: BlockChain) returns (c: BlockChain)
    requires Inside(t, s) && IsPath(s, t.root.Prev(), p) && p != [] && p[0] == t.root
    ensures c in Blockchains(t) && p <= c
  {
    if |p| == 1 {
      c := DepthIsLongestChain(t);
      ChainCases(t, c);
    } else {
      PathTail(s, t.root.Prev(), p);
      var i := RootSuccessor(t, s, p[1]);
      ChildrenAreInside(t, s, i);
      var below := PathInTree(t.children[i], s, p[1..]);
      c := [t.root] + below;
      assert c[1..] == below;
      ChainCases(t, c);
    }
  }

  // ---------- Paths of a forest ----------

  /** A successor of the anchor is the root of an attached tree. */
  lemma AttachedRoot(ts: seq<BlockTree>, anchor: BlockHash, b: Block) returns (t: BlockTree)
    requires WellAnchored(ts, anchor) && b in BagOf(ts) && b.Prev() == anchor
    ensures t in Attached(ts, anchor) && t.root == b && Inside(t, Blocks(ts))
  {
    var i := TreeOf(ts, b);
    t := ts[i];
    assert t in ts;
    TreesAreInside(ts, i);
    if b in BagOf(t.children) {
      var q := ParentInside(t, b);
      BagIn(ts, i);
    }
  }

  /** A path from the anchor runs inside one attached tree. */
  lemma PathInForest(ts: seq<BlockTree>, anchor: BlockHash, p: BlockChain) returns (t: BlockTree, c: BlockChain)
    requires WellAnchored(ts, anchor) && IsPath(Blocks(ts), anchor, p) && p != []
    ensures t in Attached(ts, anchor) && t.root == p[0] && Inside(t, Blocks(ts))
    ensures c in Blockchains(t) && p <= c
  {
    assert p[0] in Blocks(ts);
    t := AttachedRoot(ts, anchor, p[0]);
    c := PathInTree(t, Blocks(ts), p);
  }

  lemma AttachedChain(ts: seq<BlockTree>, anchor: BlockHash, p: BlockChain) returns (t: BlockTree)
    requires WellFormed(ts) && p in ChainsOf(Attached(ts, anchor))
    ensures t in Attached(ts, anchor) && p in Blockchains(t) && Inside(t, Blocks(ts))
    ensures IsMaximalPath(Blocks(ts), anchor, p) && p[0] == t.root
  {
    ChainsOfMeaning(Attached(ts, anchor), p);
    var k :| 0 <= k < |Attached(ts, anchor)| && p in Blockchains(Attached(ts, anchor)[k]);
    t := Attached(ts, anchor)[k];
    var i := TreeIn(ts, t);
    TreesAreInside(ts, i);
    ChainIsMaximal(t, Blocks(ts), p);
  }

  lemma ChainOfAttached(ts: seq<BlockTree>, anchor: BlockHash, t: BlockTree, p: BlockChain)
    requires t in Attached(ts, anchor) && p in Blockchains(t)
    ensures p in ChainsOf(Attached(ts, anchor))
  {
    ChainsOfMeaning(Attached(ts, anchor), p);
    var k :| 0 <= k < |Attached(ts, anchor)| && Attached(ts, anchor)[k] == t;
  }

  lemma PathGoesOn(s: set<Block>, anchor: BlockHash, p: BlockChain, c: BlockChain)
    requires IsPath(s, anchor, c) && p < c
    ensures exists b :: b in s && b.Prev() == Tip(anchor, p)
  {
    assert c[|p|] in s;
    assert p != [] ==> p[|p| - 1] == c[|p| - 1];
  }

  /** The chains of the attached trees are exactly the maximal paths from the anchor. */
  lemma ChainsAreMaximalPaths(ts: seq<BlockTree>, anchor: BlockHash, p: BlockChain)
    requires WellAnchored(ts, anchor)
    ensures p in ChainsOf(Attached(ts, anchor)) <==> IsMaximalPath(Blocks(ts), anchor, p)
  {
    if p in ChainsOf(Attached(ts, anchor)) {
      var _ := AttachedChain(ts, anchor, p);
    }
    if IsMaximalPath(Blocks(ts), anchor, p) {
      var t, c := PathInForest(ts, anchor, p);
      ChainIsMaximal(t, Blocks(ts), c);
      if p != c {
        PathGoesOn(Blocks(ts), anchor, p, c);
      }
      ChainOfAttached(ts, anchor, t, c);
    }
  }

  /** The longest of the chains are exactly the longest paths. */
  lemma LongestChainsAreLongestPaths(ts: seq<BlockTree>, anchor: BlockHash, p: BlockChain)
    requires WellAnchored(ts, anchor) && ChainsOf(Attached(ts, anchor)) != []
    ensures p in Longest(ChainsOf(Attached(ts, anchor))) <==> IsLongestPath(Blocks(ts), anchor, p)
  {
    var chains := ChainsOf(Attached(ts, anchor));
    LongestExists(chains);
    LongestLengthMeaning(chains);
    forall q | IsPath(Blocks(ts), anchor, q)
      ensures |q| <= LongestLength(chains)
    {
      if q != [] {
        var t, c := PathInForest(ts, anchor, q);
        ChainOfAttached(ts, anchor, t, c);
      }
    }
    if p in Longest(chains) {
      ChainsAreMaximalPaths(ts, anchor, p);
    }
    if IsLongestPath(Blocks(ts), anchor, p) {
      var longest :| longest in chains && |longest| == LongestLength(chains);
      ChainsAreMaximalPaths(ts, anchor, longest);
      assert |p| == |longest| > 0;
      var t, c := PathInForest(ts, anchor, p);
      ChainOfAttached(ts, anchor, t, c);
      assert p == c;
    }
  }

  lemma NoChainsNoPaths(ts: seq<BlockTree>, anchor: BlockHash)
    requires WellAnchored(ts, anchor) && ChainsOf(Attached(ts, anchor)) == []
    ensures forall p :: IsPath(Blocks(ts), anchor, p) <==> p == []
  {
    forall p | IsPath(Blocks(ts), anchor, p)
      ensures p == []
    {
      if p != [] {
        var t, c := PathInForest(ts, anchor, p);
        ChainOfAttached(ts, anchor, t, c);
      }
    }
  }

  /** `get_current_chain` meets the definition. */
  lemma CurrentChainIsCurrent(ts: seq<BlockTree>, anchor: BlockHash)
    requires WellAnchored(ts, anchor)
    ensures IsCurrentChain(Blocks(ts), anchor, CurrentChain(ts, anchor))
  {
    var s := Blocks(ts);
    var chains := ChainsOf(Attached(ts, anchor));
    var r := CurrentChain(ts, anchor);
    if chains == [] {
      NoChainsNoPaths(ts, anchor);
      assert IsLongestPath(s, anchor, []);
    } else {
      LongestExists(chains);
      var longest := Longest(chains);
      var n := LongestLength(chains);
      forall p
        ensures p in longest <==> IsLongestPath(s, anchor, p)
      {
        LongestChainsAreLongestPaths(ts, anchor, p);
      }
      assert longest[0] in longest;
      forall p | p in longest
        ensures r <= p
      {
        AgreementIsPrefix(s, anchor, longest, n, p);
      }
      forall q | IsShared(s, anchor, q)
        ensures |q| <= |r|
      {
        SharedIsAgreement(longest, n, q);
      }
    }
  }

  /** A common prefix cannot be longer than the part on which the chains agree. */
  lemma SharedIsAgreement(longest: seq<BlockChain>, n: nat, q: BlockChain)
    requires longest != [] && forall c | c in longest :: |c| == n && q <= c
    ensures |q| <= Agreement(longest, 0, n)
  {
    var k := Agreement(longest, 0, n);
    assert longest[0] in longest;
    if k < n {
      assert AgreeAt(longest, k) || k >= |q|;
    }
  }

  /** The part on which chains agree is, in terms of blocks, a prefix of each. */
  lemma AgreementIsPrefix(s: set<Block>, anchor: BlockHash, longest: seq<BlockChain>, n: nat, p: BlockChain)
    requires HashesIdentify(s)
    requires longest != [] && p in longest && forall c | c in longest :: |c| == n && IsPath(s, anchor, c)
    ensures longest[0][..Agreement(longest, 0, n)] <= p
  {
    var k := Agreement(longest, 0, n);
    assert longest[0] in longest;
    forall i | 0 <= i < k
      ensures longest[0][i] == p[i]
    {
      assert AgreeAt(longest, i);
    }
  }

  // ---------- Is the tip uncontested? ----------

  /** No other block is at the height of the tip of `r`: no other path is as long. */
  ghost predicate IsUncontested(s: set<Block>, anchor: BlockHash, r: BlockChain)
  {
    forall p | IsPath(s, anchor, p) && |p| == |r| :: p == r
  }

  /** Every chain that reaches the height of the tip of `r`, but is not a longest one, goes through that tip. */
  ghost predicate ShorterChainsPass(chains: seq<BlockChain>, r: BlockChain)
  {
    forall c | c in chains && |r| <= |c| < LongestLength(chains) :: r <= c
  }

  lemma PathPrefix(s: set<Block>, anchor: BlockHash, c: BlockChain, n: nat)
    requires IsPath(s, anchor, c) && n <= |c|
    ensures IsPath(s, anchor, c[..n])
  {
  }

  lemma ReachingChainPasses(ts: seq<BlockTree>, anchor: BlockHash, c: BlockChain)
    requires WellAnchored(ts, anchor) && c in ChainsOf(Attached(ts, anchor))
    requires ShorterChainsPass(ChainsOf(Attached(ts, anchor)), CurrentChain(ts, anchor))
    requires |c| >= |CurrentChain(ts, anchor)|
    ensures CurrentChain(ts, anchor) <= c
  {
    var chains := ChainsOf(Attached(ts, anchor));
    CurrentChainIsCurrent(ts, anchor);
    LongestExists(chains);
    LongestLengthMeaning(chains);
    if |c| == LongestLength(chains) {
      LongestChainsAreLongestPaths(ts, anchor, c);
    }
  }

  /**
   The tip of the current chain is uncontested if and only if no shorter chain forks off below it
   and reaches its height.
   */
  lemma UncontestedIff(ts: seq<BlockTree>, anchor: BlockHash)
    requires WellAnchored(ts, anchor)
    ensures IsUncontested(Blocks(ts), anchor, CurrentChain(ts, anchor))
            <==> ShorterChainsPass(ChainsOf(Attached(ts, anchor)), CurrentChain(ts, anchor))
  {
    hide WellAnchored, CurrentChain;
    var s, r, chains := Blocks(ts), CurrentChain(ts, anchor), ChainsOf(Attached(ts, anchor));
    if IsUncontested(s, anchor, r) {
      forall c | c in chains && |r| <= |c| < LongestLength(chains)
        ensures r <= c
      {
        ChainsAreMaximalPaths(ts, anchor, c);
        PathPrefix(s, anchor, c, |r|);
        assert c[..|r|] == r;
      }
    }
    if ShorterChainsPass(chains, r) {
      forall p | IsPath(s, anchor, p) && |p| == |r|
        ensures p == r
      {
        if p != [] {
          var t, c := PathInForest(ts, anchor, p);
          ChainOfAttached(ts, anchor, t, c);
          ReachingChainPasses(ts, anchor, c);
        }
      }
    }
  }

  // ---------- The order of arrival does not matter ----------

  /** The current chain depends only on the set of blocks and the anchor. */
  lemma SameBlocksSameChain(ts: seq<BlockTree>, us: seq<BlockTree>, anchor: BlockHash)
    requires WellAnchored(ts, anchor) && WellAnchored(us, anchor) && Blocks(ts) == Blocks(us)
    ensures CurrentChain(ts, anchor) == CurrentChain(us, anchor)
  {
    CurrentChainIsCurrent(ts, anchor);
    CurrentChainIsCurrent(us, anchor);
    CurrentChainIsUnique(Blocks(ts), anchor, CurrentChain(ts, anchor), CurrentChain(us, anchor));
  }

  ghost function PushAll(ts: seq<BlockTree>, blocks: seq<Block>): seq<BlockTree>
    decreases |blocks|
  {
    if blocks == [] then ts else PushAll(Pushed(ts, blocks[0]), blocks[1..])
  }

  /** Each block of the sequence arrives when at most one root waits for it. */
  ghost predicate WellDelivered(ts: seq<BlockTree>, blocks: seq<Block>)
    decreases |blocks|
  {
    blocks == [] || (Deliverable(ts, blocks[0]) && WellDelivered(Pushed(ts, blocks[0]), blocks[1..]))
  }

  ghost predicate HashesIdentify(s: set<Block>)
  {
    forall b, c | b in s && c in s && b.Hash() == c.Hash() :: b == c
  }

  lemma BlocksGain(ts: seq<BlockTree>, us: seq<BlockTree>, block: Block)
    requires BagOf(us) == BagOf(ts) + multiset{block} || (BagOf(us) == BagOf(ts) && block in BagOf(ts))
    ensures Blocks(us) == Blocks(ts) + {block}
  {
  }

  lemma PushAddsBlock(ts: seq<BlockTree>, block: Block)
    requires WellFormed(ts) && Deliverable(ts, block) && HashesIdentify(Blocks(ts) + {block})
    ensures WellFormed(Pushed(ts, block)) && Blocks(Pushed(ts, block)) == Blocks(ts) + {block}
  {
    PushKeepsWellFormed(ts, block);
    var us := Pushed(ts, block);
    if Present(BagOf(ts), block.Hash()) {
      var b :| b in BagOf(ts) && b.Hash() == block.Hash();
      assert b in Blocks(ts);
    }
    BlocksGain(ts, us, block);
  }

  ghost function Elements(blocks: seq<Block>): set<Block>
  {
    set b | b in blocks
  }

  lemma FirstAndRest(blocks: seq<Block>)
    requires blocks != []
    ensures Elements(blocks) == {blocks[0]} + Elements(blocks[1..])
  {
    assert blocks == [blocks[0]] + blocks[1..];
  }

  lemma {:induction false} PushAllBlocks(ts: seq<BlockTree>, blocks: seq<Block>)
    requires WellFormed(ts) && WellDelivered(ts, blocks)
    requires HashesIdentify(Blocks(ts) + Elements(blocks))
    ensures WellFormed(PushAll(ts, blocks))
    ensures Blocks(PushAll(ts, blocks)) == Blocks(ts) + Elements(blocks)
    decreases |blocks|
  {
    if blocks != [] {
      var us := Pushed(ts, blocks[0]);
      var all := Blocks(ts) + Elements(blocks);
      FirstAndRest(blocks);
      assert Blocks(ts) + {blocks[0]} <= all;
      PushAddsBlock(ts, blocks[0]);
      assert all == Blocks(us) + Elements(blocks[1..]);
      PushAllBlocks(us, blocks[1..]);
    }
  }

  /**
   However two forests came about, and in whatever order further blocks are delivered to each: if
   both end up with the same blocks, they have the same current chain.
   */
  lemma PushOrderIsIrrelevant(
    ts: seq<BlockTree>, us: seq<BlockTree>, first: seq<Block>, second: seq<Block>, anchor: BlockHash)
    requires WellFormed(ts) && WellFormed(us)
    requires Blocks(ts) + Elements(first) == Blocks(us) + Elements(second)
    requires HashesIdentify(Blocks(ts) + Elements(first))
    requires WellDelivered(ts, first) && WellDelivered(us, second)
    requires forall b | b in Blocks(ts) + Elements(first) :: b.Hash() != anchor
    ensures CurrentChain(PushAll(ts, first), anchor) == CurrentChain(PushAll(us, second), anchor)
  {
    PushAllBlocks(ts, first);
    PushAllBlocks(us, second);
    hide CurrentChain, PushAll, WellFormed, Elements;
    AnchorIsOutside(PushAll(ts, first), anchor);
    AnchorIsOutside(PushAll(us, second), anchor);
    SameBlocksSameChain(PushAll(ts, first), PushAll(us, second), anchor);
  }

  lemma AnchorIsOutside(ts: seq<BlockTree>, anchor: BlockHash)
    requires WellFormed(ts) && forall b | b in Blocks(ts) :: b.Hash() != anchor
    ensures WellAnchored(ts, anchor)
  {
    forall b | b in BagOf(ts)
      ensures b.Hash() != anchor
    {
      assert b in Blocks(ts);
    }
  }
}
