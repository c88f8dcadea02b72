/**
 Inputs for which the code does not do what one might expect of it. When it does is stated
 elsewhere, for all inputs: `PushKeepsWellFormedIff`, `PopTakesHeadUnlessTied`, `UncontestedIff`
 and `FinalisationIsInvisibleBeyondIff`.
 */
module Counterexamples {
  import opened Wrappers
  import opened Bitcoin
  import opened BlockTrees
  import opened BlockForests
  import opened ForestInvariants
  import opened ChainSelection
  import opened ChainChanges
  import opened Ledger
  import opened UtxoIndex
  import opened IndexAgreement
  import opened ChainState
  import opened Queries
  import opened Runs

  /** A block on top of `prev`. */
  function Mined(prev: BlockHash, nonce: nat, txdata: seq<Transaction>): (b: Block)
    ensures b.Prev() == prev && b.Hash().Generation() == 1 + prev.Generation()
  {
    Block(BlockHeader(1, prev, ZERO_DIGEST, 0, 0, nonce), txdata)
  }

  function Leaf(b: Block): BlockTree
  {
    BlockTree(b, [])
  }

  lemma LeafFacts(b: Block)
    ensures Bag(Leaf(b)) == multiset{b} && Linked(Leaf(b)) && Depth(Leaf(b)) == 0 && Blockchains(Leaf(b)) == [[b]]
  {
  }

  lemma PairBag(t: BlockTree, u: BlockTree)
    ensures BagOf([t, u]) == Bag(t) + Bag(u)
  {
    BagOfOne(u);
    assert [t, u][1..] == [u];
  }

  lemma NodeBag(b: Block, t: BlockTree, u: BlockTree)
    ensures Bag(BlockTree(b, [t, u])) == multiset{b} + Bag(t) + Bag(u)
  {
    PairBag(t, u);
  }

  lemma TwoLeavesAreAnchored(x: Block, y: Block, anchor: BlockHash)
    requires x.Prev() == y.Prev() && x.Hash() != y.Hash()
    requires x.Prev() !in {x.Hash(), y.Hash()} && anchor !in {x.Hash(), y.Hash()}
    ensures WellAnchored([Leaf(x), Leaf(y)], anchor)
  {
    PairBag(Leaf(x), Leaf(y));
    LeafFacts(x);
    LeafFacts(y);
  }

  lemma {:induction false} AllAttachedTrees(ts: seq<BlockTree>, anchor: BlockHash)
    requires forall t | t in ts :: t.root.Prev() == anchor
    ensures Attached(ts, anchor) == ts
  {
    if ts != [] {
      assert ts == [ts[0]] + ts[1..];
      AllAttachedTrees(ts[1..], anchor);
      assert Attached(ts, anchor) == [ts[0]] + Attached(ts[1..], anchor);
    }
  }

  lemma NextGeneration(b: Block)
    ensures b.Hash().Generation() == 1 + b.Prev().Generation()
  {
  }

  // ---------- Two roots wait for the same block ----------

  /** After a block for which two roots wait, one of them still does. */
  lemma TwoWaitingRoots(anchor: BlockHash)
    ensures var b := Mined(anchor, 0, []);
      var ts := [Leaf(Mined(b.Hash(), 1, [])), Leaf(Mined(b.Hash(), 2, []))];
      WellAnchored(ts, anchor) && !WellFormed(Pushed(ts, b))
  {
    var b := Mined(anchor, 0, []);
    var x, y := Mined(b.Hash(), 1, []), Mined(b.Hash(), 2, []);
    var ts := [Leaf(x), Leaf(y)];
    TwoLeavesAreAnchored(x, y, anchor);
    assert ts[0].root.Prev() == b.Hash() && ts[1].root.Prev() == b.Hash();
    PushKeepsWellFormedIff(ts, b);
  }

  /** The anchor's own block, delivered again, enters the forest. */
  lemma AnchorDeliveredAgain(prev: BlockHash)
    ensures var b := Mined(prev, 0, []);
      WellAnchored([], b.Hash()) && !WellAnchored(Pushed([], b), b.Hash())
  {
    PushKeepsWellAnchoredIff([], Mined(prev, 0, []).Hash(), Mined(prev, 0, []));
  }

  // ---------- Ties ----------

  /** With `delta` 0, one of two competing blocks is popped although the current chain is empty. */
  lemma TiedPopLeavesTheChain(anchor: BlockHash)
    ensures var x, y := Mined(anchor, 1, []), Mined(anchor, 2, []);
      var ts := [Leaf(x), Leaf(y)];
      WellAnchored(ts, anchor) && Popped(0, ts, anchor).0 == Some(y) && CurrentChain(ts, anchor) == []
  {
    var x, y := Mined(anchor, 1, []), Mined(anchor, 2, []);
    var ts := [Leaf(x), Leaf(y)];
    TwoLeavesAreAnchored(x, y, anchor);
    AllAttachedTrees(ts, anchor);
    TiedLeavesArePopped(x, y);
    hide WellAnchored, Attached, SortByDepth, CurrentChain, StableTree;
    assert Leaf(x) in ts && Leaf(y) in ts;
    LeafFacts(x);
    LeafFacts(y);
    TiedTreesContest(ts, anchor, Leaf(x), Leaf(y));
  }

  lemma TiedLeavesArePopped(x: Block, y: Block)
    ensures StableTree(0, SortByDepth([Leaf(x), Leaf(y)])) == Some(Leaf(y))
  {
    LeafFacts(x);
    LeafFacts(y);
    assert [Leaf(x), Leaf(y)][1..] == [Leaf(y)];
    assert SortByDepth([Leaf(y)]) == [Leaf(y)];
    assert SortByDepth([Leaf(x), Leaf(y)]) == [Leaf(x), Leaf(y)];
  }

  // ---------- A contested tip ----------

  /** Two longest chains share `b1` and `b2`, and a shorter fork ends in `c2`, at the height of `b2`. */
  function Forked(b1: Block, b2: Block, b3: Block, d3: Block, c2: Block): seq<BlockTree>
  {
    [BlockTree(b1, [BlockTree(b2, [Leaf(b3), Leaf(d3)]), Leaf(c2)])]
  }

  /** In that forest the tip of the current chain is contested. */
  lemma ContestedTip(anchor: BlockHash)
    ensures var b1 := Mined(anchor, 0, []);
      var b2, c2 := Mined(b1.Hash(), 1, []), Mined(b1.Hash(), 2, []);
      var b3, d3 := Mined(b2.Hash(), 3, []), Mined(b2.Hash(), 4, []);
      var ts := Forked(b1, b2, b3, d3, c2);
      && WellAnchored(ts, anchor) && CurrentChain(ts, anchor) == [b1, b2]
      && IsPath(Blocks(ts), anchor, [b1, c2]) && [b1, c2] != [b1, b2]
  {
    hide WellAnchored, CurrentChain, Forked, IsPath, Blocks;
    var b1 := Mined(anchor, 0, []);
    var b2, c2 := Mined(b1.Hash(), 1, []), Mined(b1.Hash(), 2, []);
    var b3, d3 := Mined(b2.Hash(), 3, []), Mined(b2.Hash(), 4, []);
    ForkedIsAnchored(anchor, b1, b2, b3, d3, c2);
    ForkedCurrentChain(anchor, b1, b2, b3, d3, c2);
    ForkedPath(anchor, b1, b2, b3, d3, c2);
    assert [b1, c2][1] != [b1, b2][1];
  }

  lemma ForkedIsLinked(b1: Block, b2: Block, b3: Block, d3: Block, c2: Block)
    requires b2.Prev() == c2.Prev() == b1.Hash() && b3.Prev() == d3.Prev() == b2.Hash()
    ensures Linked(Forked(b1, b2, b3, d3, c2)[0])
  {
    assert Linked(BlockTree(b2, [Leaf(b3), Leaf(d3)]));
  }

  lemma ForkedIsAnchored(anchor: BlockHash, b1: Block, b2: Block, b3: Block, d3: Block, c2: Block)
    requires b1.Prev() == anchor && b2.Prev() == c2.Prev() == b1.Hash() && b3.Prev() == d3.Prev() == b2.Hash()
    requires b2.Hash() != c2.Hash() && b3.Hash() != d3.Hash()
    ensures WellAnchored(Forked(b1, b2, b3, d3, c2), anchor)
  {
    hide BagOf, Bag, Linked, BlockHash.Generation, Leaf;
    ForkedBag(b1, b2, b3, d3, c2);
    ForkedIsLinked(b1, b2, b3, d3, c2);
    NextGeneration(b1);
    NextGeneration(b2);
    NextGeneration(c2);
    NextGeneration(b3);
    NextGeneration(d3);
  }

  lemma ForkedBag(b1: Block, b2: Block, b3: Block, d3: Block, c2: Block)
    ensures BagOf(Forked(b1, b2, b3, d3, c2)) ==
            multiset{b1} + (multiset{b2} + multiset{b3} + multiset{d3}) + multiset{c2}
  {
    hide Bag, BagOf, Leaf;
    var fork := BlockTree(b2, [Leaf(b3), Leaf(d3)]);
    LeafFacts(b3);
    LeafFacts(d3);
    LeafFacts(c2);
    NodeBag(b2, Leaf(b3), Leaf(d3));
    NodeBag(b1, fork, Leaf(c2));
    BagOfOne(BlockTree(b1, [fork, Leaf(c2)]));
  }

  lemma ForkedPath(anchor: BlockHash, b1: Block, b2: Block, b3: Block, d3: Block, c2: Block)
    requires b1.Prev() == anchor && c2.Prev() == b1.Hash()
    ensures IsPath(Blocks(Forked(b1, b2, b3, d3, c2)), anchor, [b1, c2])
  {
    ForkedBag(b1, b2, b3, d3, c2);
    hide Forked, BagOf;
    assert b1 in Blocks(Forked(b1, b2, b3, d3, c2)) && c2 in Blocks(Forked(b1, b2, b3, d3, c2));
  }

  lemma ForkedCurrentChain(anchor: BlockHash, b1: Block, b2: Block, b3: Block, d3: Block, c2: Block)
    requires b1.Prev() == anchor && b3.Hash() != d3.Hash()
    ensures CurrentChain(Forked(b1, b2, b3, d3, c2), anchor) == [b1, b2]
  {
    var ts := Forked(b1, b2, b3, d3, c2);
    ForkedChains(b1, b2, b3, d3, c2);
    AllAttachedTrees(ts, anchor);
    hide Blockchains, CommonChain, Attached;
    assert ts[1..] == [] && ChainsOf([]) == [];
    assert ChainsOf(ts) == Blockchains(ts[0]) + [];
    assert Blockchains(ts[0]) + [] == Blockchains(ts[0]);
  }

  lemma ForkedChains(b1: Block, b2: Block, b3: Block, d3: Block, c2: Block)
    requires b3.Hash() != d3.Hash()
    ensures CommonChain(Blockchains(Forked(b1, b2, b3, d3, c2)[0])) == [b1, b2]
  {
    var fork := BlockTree(b2, [Leaf(b3), Leaf(d3)]);
    assert fork.children[1..] == [Leaf(d3)];
    assert ChainsOf([Leaf(d3)]) == [[d3]];
    assert ChainsOf(fork.children) == [[b3], [d3]];
    assert [b2] + [b3] == [b2, b3] && [b2] + [d3] == [b2, d3];
    assert Blockchains(fork) == [[b2, b3], [b2, d3]];
    assert [fork, Leaf(c2)][1..] == [Leaf(c2)];
    assert ChainsOf([Leaf(c2)]) == [[c2]];
    assert ChainsOf([fork, Leaf(c2)]) == [[b2, b3], [b2, d3], [c2]];
    var chains := Blockchains(BlockTree(b1, [fork, Leaf(c2)]));
    assert [b1] + [b2, b3] == [b1, b2, b3] && [b1] + [b2, d3] == [b1, b2, d3] && [b1] + [c2] == [b1, c2];
    assert chains == [[b1, b2, b3], [b1, b2, d3], [b1, c2]];
    ForkedCommonChain(b1, b2, b3, d3, [b1, c2]);
  }

  lemma ForkedCommonChain(b1: Block, b2: Block, b3: Block, d3: Block, shorter: BlockChain)
    requires b3.Hash() != d3.Hash() && |shorter| == 2
    ensures CommonChain([[b1, b2, b3], [b1, b2, d3], shorter]) == [b1, b2]
  {
    var p, q := [b1, b2, b3], [b1, b2, d3];
    var chains := [p, q, shorter];
    assert chains[1..] == [q, shorter] && chains[1..][1..] == [shorter];
    assert LongestLength([shorter]) == 2;
    assert LongestLength([q, shorter]) == 3;
    assert LongestLength(chains) == 3;
    assert Longest(chains) == [p, q] by {
      var is3 := (c: BlockChain) => |c| == 3;
      assert Filter([shorter], is3) == [];
      assert Filter([q, shorter], is3) == [q];
      assert Filter(chains, is3) == [p, q];
    }
    assert p in [p, q] && q in [p, q];
    assert AgreeAt([p, q], 0) && AgreeAt([p, q], 1) && !AgreeAt([p, q], 2);
    assert Agreement([p, q], 0, 3) == 2;
    assert p[..2] == [b1, b2];
  }

  // ---------- More confirmations than the current chain is long ----------

  /** A state that knows one output, and waits for two blocks, of which the first has the given transactions. */
  ghost function Waiting(
    network: Network, height: nat, anchor: BlockHash, utxos: Indexed, txdata: seq<Transaction>): Snapshot
  {
    var b1 := Mined(anchor, 0, txdata);
    Snapshot(1, network, height, anchor, utxos, Window([b1, Mined(b1.Hash(), 1, [])]))
  }

  lemma WaitingChain(network: Network, height: nat, anchor: BlockHash, utxos: Indexed, txdata: seq<Transaction>)
    ensures var s, b1 := Waiting(network, height, anchor, utxos, txdata), Mined(anchor, 0, txdata);
      var b2 := Mined(b1.Hash(), 1, []);
      && s.Chain() == [b1, b2] && CurrentChain(Window([b2]), b1.Hash()) == [b2]
      && Popped(1, s.trees, anchor) == (Some(b1), Window([b2]))
  {
    var b1 := Mined(anchor, 0, txdata);
    var b2 := Mined(b1.Hash(), 1, []);
    WindowChain(anchor, [b1, b2]);
    WindowChain(b1.Hash(), [b2]);
    PopCutsWindow(1, anchor, [b1, b2]);
    assert [b1, b2][1..] == [b2];
  }

  /** One output `op` of address `a`. */
  function OneOutput(op: OutPoint, output: TxOut, recorded: nat, a: Address): Indexed
  {
    Indexed(map[op := Utxo(output, recorded)], map[a := [op]])
  }

  function SpendOf(op: OutPoint): Transaction
  {
    Transaction(1, 0, [TxIn(op, [], 0, [])], [])
  }

  lemma SpendEmpties(op: OutPoint, output: TxOut, recorded: nat, a: Address, height: nat, network: Network)
    requires Owner(output, network) == Some(a) && !op.IsNull()
    ensures InsertAll(OneOutput(op, output, recorded, a), [SpendOf(op)], height, true, network) == Some(EMPTY)
  {
    var u, tx := OneOutput(op, output, recorded, a), SpendOf(op);
    assert RemoveFirst([op], op) == [];
    assert SpendOne(u, op, true, network) == Some(EMPTY);
    assert tx.input[1..] == [];
    assert SpendInputs(u, tx.input, true, network) == Some(EMPTY);
    assert InsertTx(u, tx, height, true, network) == Some(EMPTY);
    assert [tx][1..] == [];
  }

  lemma SpendIsSpendable(op: OutPoint)
    requires op.txid !in DUPLICATE_TX_IDS
    ensures SpendsNoDuplicate(SpendOf(op))
  {
  }

  lemma OneOutputIsSound(op: OutPoint, output: TxOut, recorded: nat, a: Address, network: Network)
    requires Owner(output, network) == Some(a) && op.txid !in DUPLICATE_TX_IDS
    ensures Sound(OneOutput(op, output, recorded, a), network) && Sound(EMPTY, network)
    ensures var entries := OneOutput(op, output, recorded, a).entries;
      OwnedBy(entries, a, network) == entries
    ensures OwnedBy(EMPTY.entries, a, network) == map[]
  {
  }

  lemma OneAnswer(op: OutPoint, output: TxOut, recorded: nat, a: Address, mainHeight: nat, c: nat)
    requires mainHeight - recorded + 1 >= c
    ensures Confirmed(IntoSet(OneOutput(op, output, recorded, a).entries), mainHeight, c) == {(op, output, recorded)}
    ensures Confirmed(IntoSet(map[]), mainHeight, c) == {}
  {
    assert op in OneOutput(op, output, recorded, a).entries;
  }

  lemma FinaliseOf(s: Snapshot, b: Block, utxos: Indexed, rest: seq<BlockTree>)
    requires Popped(s.delta, s.trees, s.anchor) == (Some(b), rest) && b.Prev() == s.anchor
    requires InsertAll(s.utxos, b.txdata, s.height, true, s.network) == Some(utxos)
    ensures Finalise(s) == Some(Snapshot(s.delta, s.network, s.height + 1, b.Hash(), utxos, rest))
  {
    hide Popped, InsertAll;
  }

  /**
   A block that spends an output is made final: a query for more confirmations than the current
   chain is long, but few enough for the output, loses it.
   */
  lemma SpentOutputIsLost(
    network: Network, height: nat, anchor: BlockHash, op: OutPoint, output: TxOut, recorded: nat, a: Address, c: nat)
    requires Owner(output, network) == Some(a) && op.txid !in DUPLICATE_TX_IDS && !op.IsNull() && DuplicatesRepeat()
    requires 2 < c <= height + 2 - recorded + 1
    ensures var b1 := Mined(anchor, 0, [SpendOf(op)]);
      var s := Waiting(network, height, anchor, OneOutput(op, output, recorded, a), b1.txdata);
      && |s.Chain()| == 2 && Finalise(s).Some? && IsFinalisation(s, Finalise(s).value, b1)
      && Query(s, a, c) == Some({(op, output, recorded)}) && Query(Finalise(s).value, a, c) == Some({})
  {
    hide Window, CurrentChain, Finalise, Query, Popped, DuplicatesRepeat, Sound, OwnedBy, OneOutput, InsertAll, SpendOf;
    var b1 := Mined(anchor, 0, [SpendOf(op)]);
    var s := Waiting(network, height, anchor, OneOutput(op, output, recorded, a), b1.txdata);
    WaitingChain(network, height, anchor, OneOutput(op, output, recorded, a), b1.txdata);
    SpendEmpties(op, output, recorded, a, height, network);
    FinaliseOf(s, b1, EMPTY, Window([Mined(b1.Hash(), 1, [])]));
    OneOutputIsSound(op, output, recorded, a, network);
    assert Spendable(s.Chain()) by {
      SpendIsSpendable(op);
    }
    hide Spendable;
    BeyondTheChain(s, a, c);
    BeyondTheChain(Finalise(s).value, a, c);
    OneAnswer(op, output, recorded, a, height + 2, c);
  }

  function CoinBase(output: TxOut): Transaction
  {
    Transaction(1, 0, [TxIn(OutPoint(ZERO_DIGEST, 0xffff_ffff), [], 0, [])], [output])
  }

  lemma CoinBaseAdds(output: TxOut, a: Address, height: nat, network: Network)
    requires Owner(output, network) == Some(a)
    ensures InsertAll(EMPTY, [CoinBase(output)], height, true, network)
         == Some(OneOutput(OutPoint(CoinBase(output).Txid(), 0), output, height, a))
    ensures SpendsNoDuplicate(CoinBase(output))
  {
    var tx := CoinBase(output);
    var op := OutPoint(tx.Txid(), 0);
    InsertOneOutput(EMPTY, tx, height, true, network);
    assert [] + [op] == [op];
    assert InsertOutpoint(EMPTY, op, output, height, network) == Some(OneOutput(op, output, height, a));
    assert [tx][1..] == [];
  }

  /**
   A block that creates an output is made final: a query for one confirmation more than the current
   chain is long gains the output.
   */
  lemma CreatedOutputIsGained(network: Network, height: nat, anchor: BlockHash, output: TxOut, a: Address)
    requires Owner(output, network) == Some(a) && CoinBase(output).Txid() !in DUPLICATE_TX_IDS && DuplicatesRepeat()
    ensures var b1 := Mined(anchor, 0, [CoinBase(output)]);
      var s := Waiting(network, height, anchor, EMPTY, b1.txdata);
      && |s.Chain()| == 2 && Finalise(s).Some? && IsFinalisation(s, Finalise(s).value, b1)
      && Query(s, a, 3) == Some({})
      && Query(Finalise(s).value, a, 3) == Some({(OutPoint(CoinBase(output).Txid(), 0), output, height)})
  {
    hide Window, CurrentChain, Finalise, Query, Popped, DuplicatesRepeat, Sound, OwnedBy;
    hide OneOutput, InsertAll, CoinBase, SpendsNoDuplicate;
    var op := OutPoint(CoinBase(output).Txid(), 0);
    var b1 := Mined(anchor, 0, [CoinBase(output)]);
    var s := Waiting(network, height, anchor, EMPTY, b1.txdata);
    WaitingChain(network, height, anchor, EMPTY, b1.txdata);
    CoinBaseAdds(output, a, height, network);
    FinaliseOf(s, b1, OneOutput(op, output, height, a), Window([Mined(b1.Hash(), 1, [])]));
    OneOutputIsSound(op, output, height, a, network);
    BeyondTheChain(s, a, 3);
    BeyondTheChain(Finalise(s).value, a, 3);
    OneAnswer(op, output, height, a, height + 2, 3);
  }
}
