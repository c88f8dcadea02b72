/**
 The state of the canister as a value, and the operations of `State` on it. `None` is the
 model of a panic.
 */
module ChainState {
  import opened Wrappers
  import opened Bitcoin
  import opened BlockTrees
  import opened BlockForests
  import opened UtxoIndex

  datatype Snapshot = Snapshot(
    delta: nat, network: Network, height: nat, anchor: BlockHash, utxos: Indexed, trees: seq<BlockTree>)
  {
    function Chain(): BlockChain {
      CurrentChain(trees, anchor)
    }

    function MainChainHeight(): nat {
      |Chain()| + height
    }
  }

  type Answer = set<(OutPoint, TxOut, nat)>

  function New(delta: nat, network: Network, genesis: Block): Option<Snapshot>
  {
    var utxos :- InsertAll(EMPTY, genesis.txdata, 1, true, network);
    Some(Snapshot(delta, network, 1, genesis.Hash(), utxos, []))
  }

  /** Making the next stable block final, if there is one. */
  function Finalise(s: Snapshot): Option<Snapshot>
  {
    var (popped, rest) := Popped(s.delta, s.trees, s.anchor);
    match popped
    case None => Some(s.(trees := rest))
    case Some(block) =>
      if block.Prev() != s.anchor then
        None
      else
        var utxos :- InsertAll(s.utxos, block.txdata, s.height, true, s.network);
        Some(s.(height := s.height + 1, anchor := block.Hash(), utxos := utxos, trees := rest))
  }

  ghost function InsertBlock(s: Snapshot, block: Block): Option<Snapshot>
  {
    Finalise(s.(trees := Pushed(s.trees, block)))
  }

  /** The number of blocks of a chain of length `n` that the loop of `get_utxos` takes, from block `i` on. */
  function CutOff(stableHeight: nat, n: nat, i: nat, minConfirmations: nat): (k: nat)
    requires i <= n
    ensures i <= k <= n
    decreases n - i
  {
    if i == n || n + stableHeight - (stableHeight + i + 1) + 1 < minConfirmations then i
    else CutOff(stableHeight, n, i + 1, minConfirmations)
  }

  /** Applying consecutive blocks, the first at `height`. */
  function InsertBlocks(u: Indexed, blocks: seq<Block>, height: nat, strict: bool, network: Network): Option<Indexed>
    decreases |blocks|
  {
    if blocks == [] then
      Some(u)
    else
      var u' :- InsertAll(u, blocks[0].txdata, height, strict, network);
      InsertBlocks(u', blocks[1..], height + 1, strict, network)
  }

  /** The outputs of an address, with the current chain applied as far as it has enough confirmations. */
  function WithUnstable(s: Snapshot, part: Indexed, minConfirmations: nat): Option<Indexed>
  {
    var chain := s.Chain();
    InsertBlocks(part, chain[..CutOff(s.height, |chain|, 0, minConfirmations)], s.height + 1, false, s.network)
  }

  function Answered(u: Indexed, a: Address, network: Network, mainHeight: nat, minConfirmations: nat): Option<Answer>
  {
    var mine :- GetUtxos(u, a, network);
    Some(Confirmed(IntoSet(mine.entries), mainHeight, minConfirmations))
  }

  /** `get_utxos` of a state. */
  function Query(s: Snapshot, a: Address, minConfirmations: nat): Option<Answer>
  {
    var part :- GetUtxos(s.utxos, a, s.network);
    var all :- WithUnstable(s, part, minConfirmations);
    Answered(all, a, s.network, s.MainChainHeight(), minConfirmations)
  }

  function Confirmed(answer: Answer, mainHeight: nat, minConfirmations: nat): Answer
  {
    set t | t in answer && mainHeight - t.2 + 1 >= minConfirmations
  }

  ghost function Sum(answer: Answer): nat
    decreases |answer|
  {
    if answer == {} then
      0
    else
      var t :| t in answer;
      t.1.value + Sum(answer - {t})
  }

  lemma {:induction false} SumWithout(answer: Answer, t: (OutPoint, TxOut, nat))
    requires t in answer
    ensures Sum(answer) == t.1.value + Sum(answer - {t})
    decreases |answer|
  {
    var first :| first in answer && Sum(answer) == first.1.value + Sum(answer - {first});
    if first != t {
      SumWithout(answer - {first}, t);
      SumWithout(answer - {t}, first);
      assert answer - {first} - {t} == answer - {t} - {first};
    }
  }

  const U64: nat := 0x1_0000_0000_0000_0000

  /** `get_balance` of a state: the values of the answer, added up in 64 bits. */
  ghost function Balance(s: Snapshot, a: Address, minConfirmations: nat): Option<nat>
  {
    var answer :- Query(s, a, minConfirmations);
    Some(Sum(answer) % U64)
  }
}
