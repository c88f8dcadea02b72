/**
 `BlockForest`: the blocks that are not final yet, as a list of trees. A tree is attached when
 its root extends the anchor (the latest final block), and detached otherwise.
 */
module BlockForests {
  import opened Wrappers
  import opened Bitcoin
  import opened BlockTrees

  // ---------- take_tree ----------

  function WaitingIndex(ts: seq<BlockTree>, h: BlockHash): (i: nat)
    ensures i <= |ts|
  {
    First(ts, (t: BlockTree) => t.root.Prev() == h)
  }

  /** The first tree whose root waits for `h`, if any. */
  function Successors(ts: seq<BlockTree>, h: BlockHash): (r: seq<BlockTree>)
    ensures |r| <= 1
  {
    var i := WaitingIndex(ts, h);
    if i < |ts| then [ts[i]] else []
  }

  /** The other trees. */
  function Remaining(ts: seq<BlockTree>, h: BlockHash): seq<BlockTree>
  {
    var i := WaitingIndex(ts, h);
    if i < |ts| then ts[..i] + ts[i + 1..] else ts
  }

  // ---------- push ----------

  ghost function Adopted(t: BlockTree, h: BlockHash, successors: seq<BlockTree>): BlockTree
  {
    if successors == [] then t else Graft(t, h, successors[0])
  }

  /** The trees after pushing a block: the first tree that accepts it takes it, and it adopts the tree waiting for it. */
  ghost function Pushed(ts: seq<BlockTree>, block: Block): seq<BlockTree>
  {
    var successors := Successors(ts, block.Hash());
    var rest := Remaining(ts, block.Hash());
    var i := First(rest, t => Accepts(t, block));
    if i < |rest| then
      rest[i := Adopted(Extended(rest[i], block), block.Hash(), successors)]
    else
      rest + [BlockTree(block, successors)]
  }

  // ---------- pop ----------

  function Filter<T(!new)>(s: seq<T>, p: T -> bool): (r: seq<T>)
    ensures forall x :: x in r <==> x in s && p(x)
  {
    if s == [] then [] else (if p(s[0]) then [s[0]] else []) + Filter(s[1..], p)
  }

  function Attached(ts: seq<BlockTree>, anchor: BlockHash): seq<BlockTree>
  {
    Filter(ts, (t: BlockTree) => t.root.Prev() == anchor)
  }

  function Detached(ts: seq<BlockTree>, anchor: BlockHash): seq<BlockTree>
  {
    Filter(ts, (t: BlockTree) => t.root.Prev() != anchor)
  }

  function InsertByDepth(t: BlockTree, ts: seq<BlockTree>): (r: seq<BlockTree>)
    ensures forall u :: u in r <==> u == t || u in ts
  {
    if ts == [] || Depth(t) <= Depth(ts[0]) then [t] + ts else [ts[0]] + InsertByDepth(t, ts[1..])
  }

  /** A stable sort by increasing depth (the library's `sort_by`). */
  function SortByDepth(ts: seq<BlockTree>): seq<BlockTree>
  {
    if ts == [] then [] else InsertByDepth(ts[0], SortByDepth(ts[1..]))
  }

  /** The last of the sorted trees, if it is deep enough and deeper by `delta` than the one before it. */
  function StableTree(delta: nat, sorted: seq<BlockTree>): (r: Option<BlockTree>)
  {
    if sorted == [] then
      None
    else
      var deepest := sorted[|sorted| - 1];
      if Depth(deepest) < delta then
        None
      else if |sorted| >= 2 && Depth(deepest) - Depth(sorted[|sorted| - 2]) < delta then
        None
      else
        Some(deepest)
  }

  /** The popped block, if one is stable, and the trees that are kept. */
  function Popped(delta: nat, ts: seq<BlockTree>, anchor: BlockHash): (Option<Block>, seq<BlockTree>)
  {
    var attached := SortByDepth(Attached(ts, anchor));
    var detached := Detached(ts, anchor);
    match StableTree(delta, attached)
    case None => (None, attached + detached)
    case Some(t) => (Some(t.root), detached + t.children)
  }

  // ---------- get_current_chain ----------

  function LongestLength(chains: seq<BlockChain>): nat
  {
    if chains == [] then 0 else Max(|chains[0]|, LongestLength(chains[1..]))
  }

  function Longest(chains: seq<BlockChain>): (r: seq<BlockChain>)
  {
    var n := LongestLength(chains);
    Filter(chains, (c: BlockChain) => |c| == n)
  }

  predicate AgreeAt(chains: seq<BlockChain>, i: nat)
    requires chains != [] && forall c | c in chains :: i < |c|
  {
    forall c: BlockChain | c in chains :: c[i].Hash() == chains[0][i].Hash()
  }

  /** The first index from `i` on at which the chains, all of length `n`, differ. */
  function Agreement(chains: seq<BlockChain>, i: nat, n: nat): (r: nat)
    requires i <= n && chains != [] && forall c | c in chains :: |c| == n
    ensures i <= r <= n
    ensures forall k | i <= k < r :: AgreeAt(chains, k)
    ensures r < n ==> !AgreeAt(chains, r)
    decreases n - i
  {
    if i == n || !AgreeAt(chains, i) then i else Agreement(chains, i + 1, n)
  }

  /** The part on which all the longest chains agree. */
  function CommonChain(chains: seq<BlockChain>): BlockChain
  {
    if chains == [] then
      []
    else
      LongestExists(chains);
      var longest := Longest(chains);
      longest[0][..Agreement(longest, 0, LongestLength(chains))]
  }

  function CurrentChain(ts: seq<BlockTree>, anchor: BlockHash): BlockChain
  {
    CommonChain(ChainsOf(Attached(ts, anchor)))
  }

  lemma {:induction false} LongestLengthMeaning(chains: seq<BlockChain>)
    ensures forall c | c in chains :: |c| <= LongestLength(chains)
    ensures chains != [] ==> exists c :: c in chains && |c| == LongestLength(chains)
  {
    if chains != [] {
      LongestLengthMeaning(chains[1..]);
      assert chains == [chains[0]] + chains[1..];
    }
  }

  lemma LongestExists(chains: seq<BlockChain>)
    requires chains != []
    ensures Longest(chains) != []
    ensures forall c :: c in Longest(chains) <==> c in chains && |c| == LongestLength(chains)
  {
    LongestLengthMeaning(chains);
    var c :| c in chains && |c| == LongestLength(chains);
    assert c in Longest(chains);
  }

  method ComputeLongestLength(chains: seq<BlockChain>) returns (longestLen: nat)
    ensures longestLen == LongestLength(chains)
  {
    longestLen := 0;
    for i := 0 to |chains|
      invariant Max(longestLen, LongestLength(chains[i..])) == LongestLength(chains)
    {
      assert chains[i..][1..] == chains[i + 1..];
      longestLen := if |chains[i]| > longestLen then |chains[i]| else longestLen;
    }
  }

  method ComputeAgreement(longest: seq<BlockChain>, longestLen: nat) returns (chain: BlockChain)
    requires longest != [] && forall c | c in longest :: |c| == longestLen
    ensures chain == longest[0][..Agreement(longest, 0, longestLen)]
  {
    chain := [];
    for heightIdx := 0 to longestLen
      invariant chain == longest[0][..heightIdx]
      invariant Agreement(longest, 0, longestLen) == Agreement(longest, heightIdx, longestLen)
    {
      var block := longest[0][heightIdx];
      for k := 1 to |longest|
        invariant forall j | 0 <= j < k :: longest[j][heightIdx].Hash() == block.Hash()
      {
        if longest[k][heightIdx].Hash() != block.Hash() {
          assert longest[k] in longest;
          assert !AgreeAt(longest, heightIdx);
          return;
        }
      }
      assert AgreeAt(longest, heightIdx);
      chain := chain + [block];
    }
  }

  // ---------- The class ----------

  class BlockForest {
    const delta: nat
    var trees: seq<BlockTree>

    constructor (delta: nat)
      ensures this.delta == delta && trees == []
    {
      this.delta := delta;
      trees := [];
    }

    method TakeTree(rootBlockHash: BlockHash) returns (r: Option<BlockTree>)
      modifies this`trees
      ensures trees == Remaining(old(trees), rootBlockHash)
      ensures Successors(old(trees), rootBlockHash) == match r case Some(t) => [t] case None => []
      ensures match r
        case None => trees == old(trees) && forall t | t in trees :: t.root.Prev() != rootBlockHash
        case Some(t) => exists i :: 0 <= i < |old(trees)| && old(trees)[i] == t && t.root.Prev() == rootBlockHash
                          && trees == old(trees)[..i] + old(trees)[i + 1..]
                          && forall k | 0 <= k < i :: old(trees)[k].root.Prev() != rootBlockHash
    {
      for i := 0 to |trees|
        invariant trees == old(trees)
        invariant forall k | 0 <= k < i :: trees[k].root.Prev() != rootBlockHash
      {
        if trees[i].root.Prev() == rootBlockHash {
          assert WaitingIndex(trees, rootBlockHash) == i;
          r := Some(trees[i]);
          trees := trees[..i] + trees[i + 1..];
          return;
        }
      }
      return None;
    }

    method Push(block: Block)
      modifies this`trees
      ensures trees == Pushed(old(trees), block)
    {
      var successor := TakeTree(block.Hash());
      ghost var successors := Successors(old(trees), block.Hash());
      ghost var rest := trees;
      for i := 0 to |trees|
        invariant trees == rest
        invariant forall k | 0 <= k < i :: !Accepts(trees[k], block)
      {
        var extended := Extend(trees[i], block);
        if extended.Some? {
          assert First(rest, t => Accepts(t, block)) == i;
          trees := trees[i := extended.value];
          if successor.Some? {
            var found := FindAndPush(extended.value, block.Hash(), successor.value);
            ExtendedHasBlock(rest[i], block);
            assert found.Some?;
            trees := trees[i := found.value];
          }
          return;
        }
      }
      assert First(rest, t => Accepts(t, block)) == |rest|;
      trees := trees + [BlockTree(block, if successor.Some? then [successor.value] else [])];
    }

    method Pop(anchor: BlockHash) returns (r: Option<Block>)
      modifies this`trees
      ensures (r, trees) == Popped(delta, old(trees), anchor)
    {
      var attached := SortByDepth(Attached(trees, anchor));
      var detached := Detached(trees, anchor);
      if attached == [] {
        trees := attached + detached;
        return None;
      }
      var deepest := attached[|attached| - 1];
      var depth := ComputeDepth(deepest);
      if depth < delta {
        trees := attached + detached;
        return None;
      }
      if |attached| >= 2 {
        var second := ComputeDepth(attached[|attached| - 2]);
        SortIsSorted(Attached(trees, anchor));
        var difference: nat := depth - second;
        if difference < delta {
          trees := attached + detached;
          return None;
        }
      }
      trees := detached + deepest.children;
      return Some(deepest.root);
    }

    method GetCurrentChain(anchor: BlockHash) returns (chain: BlockChain)
      ensures chain == CurrentChain(trees, anchor)
    {
      var chains := ChainsOf(Attached(trees, anchor));
      if chains == [] {
        return [];
      }
      var longestLen := ComputeLongestLength(chains);
      LongestExists(chains);
      chain := ComputeAgreement(Longest(chains), longestLen);
    }

    /** The blocks of every chain of every tree, chain after chain. */
    function GetBlocks(): seq<Block>
      reads this
    {
      Concat(ChainsOf(trees))
    }
  }

  function Concat(chains: seq<BlockChain>): seq<Block>
  {
    if chains == [] then [] else chains[0] + Concat(chains[1..])
  }

  // ---------- Sorting and partitioning ----------

  ghost predicate SortedByDepth(ts: seq<BlockTree>)
  {
    forall i, j | 0 <= i < j < |ts| :: Depth(ts[i]) <= Depth(ts[j])
  }

  lemma {:induction false} InsertIsSorted(t: BlockTree, ts: seq<BlockTree>)
    requires SortedByDepth(ts)
    ensures SortedByDepth(InsertByDepth(t, ts))
  {
    if ts != [] && Depth(t) > Depth(ts[0]) {
      InsertIsSorted(t, ts[1..]);
      forall u | u in InsertByDepth(t, ts[1..])
        ensures Depth(ts[0]) <= Depth(u)
      {
      }
    }
  }

  lemma {:induction false} InsertIsPermutation(t: BlockTree, ts: seq<BlockTree>)
    ensures multiset(InsertByDepth(t, ts)) == multiset{t} + multiset(ts)
  {
    if ts != [] && Depth(t) > Depth(ts[0]) {
      InsertIsPermutation(t, ts[1..]);
      assert ts == [ts[0]] + ts[1..];
    }
  }

  /** The sort returns the same trees, shallowest first. */
  lemma {:induction false} SortIsSorted(ts: seq<BlockTree>)
    ensures SortedByDepth(SortByDepth(ts))
    ensures multiset(SortByDepth(ts)) == multiset(ts)
  {
    if ts != [] {
      SortIsSorted(ts[1..]);
      InsertIsSorted(ts[0], SortByDepth(ts[1..]));
      InsertIsPermutation(ts[0], SortByDepth(ts[1..]));
      assert ts == [ts[0]] + ts[1..];
    }
  }
}
