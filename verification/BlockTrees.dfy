/**
 `BlockTree`: a tree of blocks in which every child names its parent's hash. A tree owns its
 children, so it is modelled as a value; the methods below are the source's loops over it.
 */
module BlockTrees {
  import opened Wrappers
  import opened Bitcoin
  import opened Sequences

  type BlockChain = seq<Block>

  datatype BlockTree = BlockTree(root: Block, children: seq<BlockTree>)

  // ---------- What a tree contains ----------

  /** The blocks of a tree, each as often as it occurs. */
  ghost function Bag(t: BlockTree): multiset<Block>
  {
    multiset{t.root} + BagOf(t.children)
  }

  ghost function BagOf(ts: seq<BlockTree>): multiset<Block>
  {
    if ts == [] then multiset{} else Bag(ts[0]) + BagOf(ts[1..])
  }

  ghost function Blocks(ts: seq<BlockTree>): set<Block>
  {
    set b | b in BagOf(ts)
  }

  /** Does some block of the tree have hash `h`? */
  predicate HasHash(t: BlockTree, h: BlockHash)
  {
    t.root.Hash() == h || exists c | c in t.children :: HasHash(c, h)
  }

  /** Every child names its parent's hash. */
  ghost predicate Linked(t: BlockTree)
  {
    forall c | c in t.children :: c.root.Prev() == t.root.Hash() && Linked(c)
  }

  /** No block occurs twice, and no two blocks share a hash. */
  ghost predicate Distinct(m: multiset<Block>)
  {
    && (forall b | b in m :: m[b] == 1)
    && (forall b, c | b in m && c in m && b.Hash() == c.Hash() :: b == c)
  }

  lemma {:induction false} BagOfSplit(ts: seq<BlockTree>, i: nat)
    requires i < |ts|
    ensures BagOf(ts) == BagOf(ts[..i]) + Bag(ts[i]) + BagOf(ts[i + 1..])
  {
    hide Bag;
    if i == 0 {
      assert ts[..0] == [];
    } else {
      var tail := ts[1..];
      BagOfSplit(tail, i - 1);
      assert tail[..i - 1] == ts[..i][1..] && tail[i - 1] == ts[i] && tail[i..] == ts[i + 1..] && ts[..i][0] == ts[0];
    }
  }

  lemma {:induction false} BagOfAppend(ts: seq<BlockTree>, us: seq<BlockTree>)
    ensures BagOf(ts + us) == BagOf(ts) + BagOf(us)
  {
    if ts == [] {
      assert ts + us == us;
    } else {
      BagOfAppend(ts[1..], us);
      TailOfConcat(ts, us);
    }
  }

  lemma BagOfOne(t: BlockTree)
    ensures BagOf([t]) == Bag(t)
  {
    assert [t][1..] == [];
  }

  /** Replacing one tree by another with more blocks. */
  lemma BagOfUpdate(ts: seq<BlockTree>, i: nat, t: BlockTree, extra: multiset<Block>)
    requires i < |ts| && Bag(t) == Bag(ts[i]) + extra
    ensures BagOf(ts[i := t]) == BagOf(ts) + extra
  {
    var us := ts[i := t];
    BagOfSplit(ts, i);
    BagOfSplit(us, i);
    assert us[..i] == ts[..i] && us[i + 1..] == ts[i + 1..];
  }

  lemma {:induction false} TreeOf(ts: seq<BlockTree>, b: Block) returns (i: nat)
    requires b in BagOf(ts)
    ensures i < |ts| && b in Bag(ts[i])
  {
    if b in Bag(ts[0]) {
      i := 0;
    } else {
      i := TreeOf(ts[1..], b);
      i := i + 1;
    }
  }

  lemma BagIn(ts: seq<BlockTree>, i: nat)
    requires i < |ts|
    ensures Bag(ts[i]) <= BagOf(ts)
  {
    BagOfSplit(ts, i);
  }

  lemma TwoTrees(ts: seq<BlockTree>, i: nat, j: nat)
    requires i < j < |ts|
    ensures Bag(ts[i]) + Bag(ts[j]) <= BagOf(ts)
  {
    var front := ts[..j];
    BagOfSplit(ts, j);
    BagOfSplit(front, i);
  }

  /** In a bag of distinct blocks, a block lies in one tree only. */
  lemma SameTree(ts: seq<BlockTree>, i: nat, j: nat, b: Block)
    requires i < |ts| && j < |ts| && Distinct(BagOf(ts))
    requires b in Bag(ts[i]) && b in Bag(ts[j])
    ensures i == j
  {
    BagIn(ts, i);
    assert BagOf(ts)[b] == 1;
    if i < j {
      TwoTrees(ts, i, j);
    } else if j < i {
      TwoTrees(ts, j, i);
    }
  }

  lemma {:induction false} HasHashMeaning(t: BlockTree, h: BlockHash)
    ensures HasHash(t, h) <==> exists b :: b in Bag(t) && b.Hash() == h
  {
    hide BagOf;
    if c :| c in t.children && HasHash(c, h) {
      var i :| 0 <= i < |t.children| && t.children[i] == c;
      HasHashMeaning(c, h);
      BagIn(t.children, i);
    }
    if b :| b in BagOf(t.children) && b.Hash() == h {
      var i := TreeOf(t.children, b);
      HasHashMeaning(t.children[i], h);
    }
  }

  /** A block below the root has the parent it names inside the tree, and a later generation than the root. */
  lemma {:induction false} ParentInside(t: BlockTree, b: Block) returns (p: Block)
    requires Linked(t) && b in BagOf(t.children)
    ensures p in Bag(t) && p.Hash() == b.Prev()
    ensures b.Hash().Generation() > t.root.Hash().Generation()
  {
    var i := TreeOf(t.children, b);
    var c := t.children[i];
    BagIn(t.children, i);
    if b in BagOf(c.children) {
      p := ParentInside(c, b);
    } else {
      p := t.root;
    }
  }

  /** No block of a linked tree is the one the root waits for. */
  lemma RootIsOldest(t: BlockTree, b: Block)
    requires Linked(t) && b in Bag(t)
    ensures b.Hash().Generation() >= t.root.Hash().Generation()
    ensures b.Hash() != t.root.Prev()
  {
    if b in BagOf(t.children) {
      var _ := ParentInside(t, b);
    }
  }

  // ---------- contains ----------

  method Contains(t: BlockTree, block: Block) returns (r: bool)
    ensures r == HasHash(t, block.Hash())
  {
    if t.root.Hash() == block.Hash() {
      return true;
    }
    for i := 0 to |t.children|
      invariant forall k | 0 <= k < i :: !HasHash(t.children[k], block.Hash())
    {
      var inside := Contains(t.children[i], block);
      if inside {
        return true;
      }
    }
    return false;
  }

  // ---------- find_mut, and a push onto the children found ----------

  /** The index of the first element with property `p`, or the length. */
  function First<T>(s: seq<T>, p: T -> bool): (i: nat)
    ensures i <= |s| && (forall k | 0 <= k < i :: !p(s[k])) && (i < |s| ==> p(s[i]))
  {
    if s == [] || p(s[0]) then 0 else 1 + First(s[1..], p)
  }

  /** `t` with `s` appended to the children of the first node, in preorder, whose hash is `h`. */
  ghost function Graft(t: BlockTree, h: BlockHash, s: BlockTree): BlockTree
  {
    if t.root.Hash() == h then
      BlockTree(t.root, t.children + [s])
    else
      var i := First(t.children, c => HasHash(c, h));
      if i < |t.children| then
        BlockTree(t.root, t.children[i := Graft(t.children[i], h, s)])
      else
        t
  }

  method FindAndPush(t: BlockTree, h: BlockHash, s: BlockTree) returns (r: Option<BlockTree>)
    ensures r == if HasHash(t, h) then Some(Graft(t, h, s)) else None
    ensures t.root.Hash() == h ==> r == Some(BlockTree(t.root, t.children + [s]))
  {
    if t.root.Hash() == h {
      return Some(BlockTree(t.root, t.children + [s]));
    }
    for i := 0 to |t.children|
      invariant forall k | 0 <= k < i :: !HasHash(t.children[k], h)
    {
      var found := FindAndPush(t.children[i], h, s);
      if found.Some? {
        assert First(t.children, c => HasHash(c, h)) == i;
        return Some(BlockTree(t.root, t.children[i := found.value]));
      }
    }
    return None;
  }

  lemma {:induction false} GraftBag(t: BlockTree, h: BlockHash, s: BlockTree)
    requires HasHash(t, h)
    ensures Bag(Graft(t, h, s)) == Bag(t) + Bag(s)
  {
    if t.root.Hash() == h {
      BagOfAppend(t.children, [s]);
      BagOfOne(s);
    } else {
      var i := First(t.children, c => HasHash(c, h));
      GraftBag(t.children[i], h, s);
      BagOfUpdate(t.children, i, Graft(t.children[i], h, s), Bag(s));
    }
  }

  lemma {:induction false} GraftLinked(t: BlockTree, h: BlockHash, s: BlockTree)
    requires Linked(t) && Linked(s) && s.root.Prev() == h
    ensures Linked(Graft(t, h, s)) && Graft(t, h, s).root == t.root
  {
    var i := First(t.children, c => HasHash(c, h));
    if t.root.Hash() != h && i < |t.children| {
      GraftLinked(t.children[i], h, s);
    }
  }

  // ---------- extend ----------

  /** Would `extend` accept the block: is it present, or its parent? */
  ghost predicate Accepts(t: BlockTree, block: Block)
  {
    HasHash(t, block.Hash()) || HasHash(t, block.Prev())
  }

  ghost function Extended(t: BlockTree, block: Block): BlockTree
  {
    if HasHash(t, block.Hash()) then t else Graft(t, block.Prev(), BlockTree(block, []))
  }

  method Extend(t: BlockTree, block: Block) returns (r: Option<BlockTree>)
    ensures r == if Accepts(t, block) then Some(Extended(t, block)) else None
  {
    var present := Contains(t, block);
    if present {
      return Some(t);
    }
    r := FindAndPush(t, block.Prev(), BlockTree(block, []));
  }

  /** After a successful `extend`, the block can be found: the `unwrap` in `push` is safe. */
  lemma ExtendedHasBlock(t: BlockTree, block: Block)
    requires Accepts(t, block)
    ensures HasHash(Extended(t, block), block.Hash())
    ensures Bag(Extended(t, block)) == Bag(t) + if HasHash(t, block.Hash()) then multiset{} else multiset{block}
  {
    if !HasHash(t, block.Hash()) {
      GraftBag(t, block.Prev(), BlockTree(block, []));
      HasHashMeaning(Extended(t, block), block.Hash());
      assert block in Bag(Extended(t, block));
    }
  }

  // ---------- blockchains ----------

  function Prepend(b: Block, chains: seq<BlockChain>): seq<BlockChain>
  {
    seq(|chains|, i requires 0 <= i < |chains| => [b] + chains[i])
  }

  /** The paths from the root to each leaf, in order. */
  function Blockchains(t: BlockTree): seq<BlockChain>
  {
    if t.children == [] then [[t.root]] else Prepend(t.root, ChainsOf(t.children))
  }

  function ChainsOf(ts: seq<BlockTree>): seq<BlockChain>
  {
    if ts == [] then [] else Blockchains(ts[0]) + ChainsOf(ts[1..])
  }

  method ComputeBlockchains(t: BlockTree) returns (tips: seq<BlockChain>)
    ensures tips == Blockchains(t)
  {
    if t.children == [] {
      return [[t.root]];
    }
    tips := [];
    for i := 0 to |t.children|
      invariant tips + Prepend(t.root, ChainsOf(t.children[i..])) == Blockchains(t)
    {
      var below := ComputeBlockchains(t.children[i]);
      SliceStep(t.children, i);
      assert Prepend(t.root, ChainsOf(t.children[i..]))
          == Prepend(t.root, below) + Prepend(t.root, ChainsOf(t.children[i + 1..]));
      tips := tips + seq(|below|, k requires 0 <= k < |below| => [t.root] + below[k]);
    }
  }

  lemma {:induction false} ChainsOfMeaning(ts: seq<BlockTree>, p: BlockChain)
    ensures p in ChainsOf(ts) <==> exists i :: 0 <= i < |ts| && p in Blockchains(ts[i])
  {
    if ts != [] {
      ChainsOfMeaning(ts[1..], p);
      if p in ChainsOf(ts[1..]) {
        var i :| 0 <= i < |ts[1..]| && p in Blockchains(ts[1..][i]);
        assert p in Blockchains(ts[i + 1]);
      }
      if i :| 0 <= i < |ts| && p in Blockchains(ts[i]) && i > 0 {
        assert p in Blockchains(ts[1..][i - 1]);
      }
    }
  }

  lemma PrependMeaning(b: Block, chains: seq<BlockChain>, p: BlockChain)
    ensures p in Prepend(b, chains) <==> p != [] && p[0] == b && p[1..] in chains
  {
    if p != [] && p[0] == b && p[1..] in chains {
      var i :| 0 <= i < |chains| && chains[i] == p[1..];
      assert Prepend(b, chains)[i] == p;
    }
  }

  /** A chain of a tree is its root alone, or its root followed by a chain of one of its children. */
  lemma ChainCases(t: BlockTree, p: BlockChain)
    ensures p in Blockchains(t) <==>
      && p != [] && p[0] == t.root
      && (if t.children == [] then p == [t.root]
          else exists i :: 0 <= i < |t.children| && p[1..] in Blockchains(t.children[i]))
  {
    if t.children != [] {
      PrependMeaning(t.root, ChainsOf(t.children), p);
      if p != [] {
        ChainsOfMeaning(t.children, p[1..]);
      }
    }
  }

  // ---------- depth ----------

  function Max(x: nat, y: nat): nat
  {
    if x < y then y else x
  }

  /** The number of edges on the longest path down from the root. */
  function Depth(t: BlockTree): nat
  {
    DepthOf(t.children)
  }

  /** The number of blocks on the longest path in the trees. */
  function DepthOf(ts: seq<BlockTree>): nat
  {
    if ts == [] then 0 else Max(1 + Depth(ts[0]), DepthOf(ts[1..]))
  }

  method ComputeDepth(t: BlockTree) returns (d: nat)
    ensures d == Depth(t)
  {
    if t.children == [] {
      return 0;
    }
    var maxChildDepth := 0;
    for i := 0 to |t.children|
      invariant Max(maxChildDepth, DepthOf(t.children[i..])) == Depth(t)
    {
      var below := ComputeDepth(t.children[i]);
      assert t.children[i..][1..] == t.children[i + 1..];
      maxChildDepth := if 1 + below > maxChildDepth then 1 + below else maxChildDepth;
    }
    return maxChildDepth;
  }

  lemma {:induction false} DepthOfMeaning(ts: seq<BlockTree>)
    ensures forall i | 0 <= i < |ts| :: Depth(ts[i]) < DepthOf(ts)
    ensures ts != [] ==> exists i :: 0 <= i < |ts| && Depth(ts[i]) + 1 == DepthOf(ts)
  {
    if ts != [] {
      DepthOfMeaning(ts[1..]);
      forall i | 0 <= i < |ts|
        ensures Depth(ts[i]) < DepthOf(ts)
      {
        if i > 0 {
          assert ts[i] == ts[1..][i - 1];
        }
      }
      if Depth(ts[0]) + 1 != DepthOf(ts) {
        var i :| 0 <= i < |ts[1..]| && Depth(ts[1..][i]) + 1 == DepthOf(ts[1..]);
        assert Depth(ts[i + 1]) + 1 == DepthOf(ts);
      }
    }
  }

  /** `depth` is one less than the length of the longest chain of the tree. */
  lemma {:induction false} DepthIsLongestChain(t: BlockTree) returns (longest: BlockChain)
    ensures longest in Blockchains(t) && |longest| == Depth(t) + 1
    ensures forall p | p in Blockchains(t) :: |p| <= Depth(t) + 1
  {
    DepthOfMeaning(t.children);
    forall p | p in Blockchains(t)
      ensures |p| <= Depth(t) + 1
    {
      ChainCases(t, p);
      if i :| 0 <= i < |t.children| && p[1..] in Blockchains(t.children[i]) {
        var _ := DepthIsLongestChain(t.children[i]);
      }
    }
    if t.children == [] {
      longest := [t.root];
    } else {
      var i :| 0 <= i < |t.children| && Depth(t.children[i]) + 1 == DepthOf(t.children);
      var below := DepthIsLongestChain(t.children[i]);
      longest := [t.root] + below;
      assert longest[1..] == below;
      ChainCases(t, longest);
    }
  }
}
