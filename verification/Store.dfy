/**
 `State`: the class that ties the block forest and the unspent outputs together. A method whose
 source panics returns `false` or `None` instead.
 */
module Store {
  import opened Wrappers
  import opened Bitcoin
  import opened BlockTrees
  import opened BlockForests
  import opened UtxoIndex
  import opened UtxoSets
  import opened ChainState

  /** The loops `for tx in txdata { utxos.insert_tx(tx, height) }`. */
  method InsertTxs(utxos: UtxoSet, txs: seq<Transaction>, height: nat) returns (ok: bool)
    modifies utxos
    ensures match InsertAll(old(utxos.View()), txs, height, utxos.strict, utxos.network)
      case None => !ok
      case Some(u) => ok && utxos.View() == u
  {
    for i := 0 to |txs|
      invariant InsertAll(utxos.View(), txs[i..], height, utxos.strict, utxos.network)
             == InsertAll(old(utxos.View()), txs, height, utxos.strict, utxos.network)
    {
      assert txs[i..][1..] == txs[i + 1..];
      ok := utxos.InsertTx(txs[i], height);
      if !ok {
        return;
      }
    }
    return true;
  }

  /** The loop of `get_utxos` over a chain. */
  method ApplyChain(
    addressUtxos: UtxoSet, chain: BlockChain, stableHeight: nat, mainChainHeight: nat, minConfirmations: nat)
    returns (ok: bool)
    requires mainChainHeight == |chain| + stableHeight
    modifies addressUtxos
    ensures match InsertBlocks(old(addressUtxos.View()), chain[..CutOff(stableHeight, |chain|, 0, minConfirmations)],
                               stableHeight + 1, addressUtxos.strict, addressUtxos.network)
      case None => !ok
      case Some(u) => ok && addressUtxos.View() == u
  {
    ghost var taken := chain[..CutOff(stableHeight, |chain|, 0, minConfirmations)];
    for i := 0 to |chain|
      invariant CutOff(stableHeight, |chain|, i, minConfirmations) == |taken| >= i
      invariant InsertBlocks(addressUtxos.View(), taken[i..], stableHeight + 1 + i, addressUtxos.strict, addressUtxos.network)
             == InsertBlocks(old(addressUtxos.View()), taken, stableHeight + 1, addressUtxos.strict, addressUtxos.network)
    {
      var blockHeight := stableHeight + i + 1;
      var confirmations: nat := mainChainHeight - blockHeight + 1;
      if confirmations < minConfirmations {
        break;
      }
      assert taken[i..][0] == chain[i] && taken[i..][1..] == taken[i + 1..];
      ok := InsertTxs(addressUtxos, chain[i].txdata, blockHeight);
      if !ok {
        return;
      }
    }
    return true;
  }

  class State {
    var height: nat
    var latestStableBlockHash: BlockHash
    const utxos: UtxoSet
    const unstableBlocks: BlockForest

    function View(): Snapshot
      reads this, utxos, unstableBlocks
    {
      Snapshot(unstableBlocks.delta, utxos.network, height, latestStableBlockHash, utxos.View(), unstableBlocks.trees)
    }

    ghost predicate Valid()
    {
      utxos.strict
    }

    constructor (height: nat, latestStableBlockHash: BlockHash, utxos: UtxoSet, unstableBlocks: BlockForest)
      ensures this.height == height && this.latestStableBlockHash == latestStableBlockHash
      ensures this.utxos == utxos && this.unstableBlocks == unstableBlocks
    {
      this.height := height;
      this.latestStableBlockHash := latestStableBlockHash;
      this.utxos := utxos;
      this.unstableBlocks := unstableBlocks;
    }

    /** The source's `State::new`. */
    static method New(delta: nat, network: Network, genesisBlock: Block) returns (r: Option<State>)
      ensures match ChainState.New(delta, network, genesisBlock)
        case None => r.None?
        case Some(s) => r.Some? && fresh(r.value) && r.value.Valid() && r.value.View() == s
                        && fresh(r.value.utxos) && fresh(r.value.unstableBlocks)
    {
      var utxos := new UtxoSet(true, network);
      var forest := new BlockForest(delta);
      var state := new State(1, genesisBlock.Hash(), utxos, forest);
      var ok := InsertTxs(state.utxos, genesisBlock.txdata, 1);
      return if ok then Some(state) else None;
    }

    method InsertBlock(block: Block) returns (ok: bool)
      requires Valid()
      modifies this, utxos, unstableBlocks
      ensures match ChainState.InsertBlock(old(View()), block)
        case None => !ok
        case Some(s) => ok && View() == s
    {
      unstableBlocks.Push(block);
      var newStableBlock := unstableBlocks.Pop(latestStableBlockHash);
      if newStableBlock.Some? {
        var stable := newStableBlock.value;
        if stable.Prev() != latestStableBlockHash {
          return false;
        }
        latestStableBlockHash := stable.Hash();
        ok := InsertTxs(utxos, stable.txdata, height);
        if !ok {
          return;
        }
        height := height + 1;
      }
      return true;
    }

    method MainChainHeight() returns (h: nat)
      ensures h == View().MainChainHeight()
    {
      var chain := unstableBlocks.GetCurrentChain(latestStableBlockHash);
      return |chain| + height;
    }

    method GetUtxos(address: Address, minConfirmations: nat) returns (r: Option<Answer>)
      ensures r == Query(View(), address, minConfirmations)
    {
      ghost var s := View();
      var part := utxos.GetUtxos(address);
      if part.None? {
        return None;
      }
      var addressUtxos := part.value;
      ghost var all := WithUnstable(s, addressUtxos.View(), minConfirmations);
      var ok := ApplyUnstable(addressUtxos, minConfirmations);
      if !ok {
        return None;
      }
      assert all == Some(addressUtxos.View());
      var mine := addressUtxos.GetUtxos(address);
      if mine.None? {
        return None;
      }
      var mainChainHeight := MainChainHeight();
      return Some(Confirmed(IntoSet(mine.value.utxos), mainChainHeight, minConfirmations));
    }

    /** Applies the current chain as far as it has enough confirmations. */
    method ApplyUnstable(addressUtxos: UtxoSet, minConfirmations: nat) returns (ok: bool)
      requires addressUtxos != utxos && !addressUtxos.strict && addressUtxos.network == utxos.network
      modifies addressUtxos
      ensures match WithUnstable(View(), old(addressUtxos.View()), minConfirmations)
        case None => !ok
        case Some(u) => ok && addressUtxos.View() == u
    {
      var chain := unstableBlocks.GetCurrentChain(latestStableBlockHash);
      var mainChainHeight := MainChainHeight();
      ok := ApplyChain(addressUtxos, chain, height, mainChainHeight, minConfirmations);
    }

    /** The sum is taken in 64 bits. */
    method GetBalance(address: Address, minConfirmations: nat) returns (r: Option<nat>)
      ensures r == Balance(View(), address, minConfirmations)
    {
      var answer := GetUtxos(address, minConfirmations);
      if answer.None? {
        return None;
      }
      var balance := SumValues(answer.value);
      return Some(balance);
    }
  }

  /** The loop of `get_balance`, in 64-bit arithmetic. */
  method SumValues(answer: Answer) returns (balance: nat)
    ensures balance == Sum(answer) % U64
  {
    balance := 0;
    ghost var exact: nat := 0;
    var rest := answer;
    while rest != {}
      invariant exact + Sum(rest) == Sum(answer) && balance == exact % U64
      decreases rest
    {
      var t :| t in rest;
      SumWithout(rest, t);
      AddWraps(exact, t.1.value);
      exact := exact + t.1.value;
      balance := (balance + t.1.value) % U64;
      rest := rest - {t};
    }
  }

  lemma AddWraps(x: nat, y: nat)
    ensures (x % U64 + y) % U64 == (x + y) % U64
  {
    var q := x / U64;
    assert x == U64 * q + x % U64;
  }
}
