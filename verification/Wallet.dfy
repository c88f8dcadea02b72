/**
 `build_transaction` of the example wallet: coin selection with change and dust, in 64-bit
 arithmetic that wraps around.
 */
module Wallet {
  import opened Bitcoin

  const U64: nat := 0x1_0000_0000_0000_0000

  type Satoshi = v: nat | v < U64

  /** An outpoint as the canister's interface passes it: the transaction id may have any length. */
  datatype CandidOutPoint = CandidOutPoint(txid: seq<Byte>, vout: nat)

  datatype CandidUtxo = CandidUtxo(outpoint: CandidOutPoint, value: Satoshi)

  datatype BuildResult = Built(tx: Transaction) | InsufficientBalance | Panicked

  const DUST_THRESHOLD: Satoshi := 10_000

  function WrapAdd(x: Satoshi, y: Satoshi): Satoshi
  {
    (x + y) % U64
  }

  function WrapSub(x: Satoshi, y: Satoshi): Satoshi
  {
    (x - y) % U64
  }

  // ---------- The algorithm as functions ----------

  /** The running total when the loop reaches element `i` with `total`, and the number of elements it takes. */
  function Select(utxos: seq<CandidUtxo>, target: Satoshi, i: nat, total: Satoshi): (nat, Satoshi)
    requires i <= |utxos|
    decreases |utxos| - i
  {
    if i == |utxos| then
      (i, total)
    else
      var total' := WrapAdd(total, utxos[i].value);
      if total' >= target then (i + 1, total') else Select(utxos, target, i + 1, total')
  }

  predicate AllDigests(utxos: seq<CandidUtxo>)
  {
    forall u | u in utxos :: |u.outpoint.txid| == 32
  }

  function Inputs(utxos: seq<CandidUtxo>): (r: seq<TxIn>)
    requires AllDigests(utxos)
    ensures |r| == |utxos|
    ensures forall i | 0 <= i < |r| :: r[i].previousOutput == OutPoint(utxos[i].outpoint.txid, utxos[i].outpoint.vout)
  {
    seq(|utxos|, i requires 0 <= i < |utxos| =>
      assert utxos[i] in utxos;
      TxIn(OutPoint(utxos[i].outpoint.txid, utxos[i].outpoint.vout), [], 0xffff_ffff, []))
  }

  function Outputs(source: Script, destination: Script, amount: Satoshi, remaining: Satoshi): seq<TxOut>
  {
    [TxOut(amount, destination)] + if remaining >= DUST_THRESHOLD then [TxOut(remaining, source)] else []
  }

  function Build(utxos: seq<CandidUtxo>, source: Script, destination: Script, amount: Satoshi, fees: Satoshi): BuildResult
  {
    var (taken, total) := Select(utxos, WrapAdd(amount, fees), 0, 0);
    TakenBound(utxos, WrapAdd(amount, fees), 0, 0);
    if total < amount then
      InsufficientBalance
    else if !AllDigests(utxos[..taken]) then
      Panicked
    else
      Built(Transaction(2, 0, Inputs(utxos[..taken]),
                        Outputs(source, destination, amount, WrapSub(WrapSub(total, amount), fees))))
  }

  lemma {:induction false} TakenBound(utxos: seq<CandidUtxo>, target: Satoshi, i: nat, total: Satoshi)
    requires i <= |utxos|
    ensures i <= Select(utxos, target, i, total).0 <= |utxos|
    decreases |utxos| - i
  {
    if i < |utxos| {
      TakenBound(utxos, target, i + 1, WrapAdd(total, utxos[i].value));
    }
  }

  method BuildTransaction(utxos: seq<CandidUtxo>, source: Script, destination: Script, amount: Satoshi, fees: Satoshi)
    returns (r: BuildResult)
    ensures r == Build(utxos, source, destination, amount, fees)
  {
    var utxosToSpend: seq<CandidUtxo> := [];
    var totalSpent: Satoshi := 0;
    ghost var target := WrapAdd(amount, fees);
    TakenBound(utxos, target, 0, 0);
    ghost var (taken, total) := Select(utxos, target, 0, 0);
    for i := 0 to |utxos|
      invariant utxosToSpend == utxos[..i] && Select(utxos, target, i, totalSpent) == (taken, total)
    {
      totalSpent := WrapAdd(totalSpent, utxos[i].value);
      utxosToSpend := utxosToSpend + [utxos[i]];
      if totalSpent >= WrapAdd(amount, fees) {
        break;
      }
    }
    assert utxosToSpend == utxos[..taken] && totalSpent == total;
    if totalSpent < amount {
      return InsufficientBalance;
    }
    if !AllDigests(utxosToSpend) {
      return Panicked;
    }
    var outputs := [TxOut(amount, destination)];
    var remainingAmount := WrapSub(WrapSub(totalSpent, amount), fees);
    if remainingAmount >= DUST_THRESHOLD {
      outputs := outputs + [TxOut(remainingAmount, source)];
    }
    return Built(Transaction(2, 0, Inputs(utxosToSpend), outputs));
  }

  // ---------- What is selected ----------

  ghost function Sum(utxos: seq<CandidUtxo>): nat
  {
    if utxos == [] then 0 else utxos[0].value + Sum(utxos[1..])
  }

  ghost function OutputSum(outputs: seq<TxOut>): nat
  {
    if outputs == [] then 0 else outputs[0].value + OutputSum(outputs[1..])
  }

  lemma {:induction false} SumSnoc(utxos: seq<CandidUtxo>, i: nat)
    requires i < |utxos|
    ensures Sum(utxos[..i + 1]) == Sum(utxos[..i]) + utxos[i].value
  {
    if i > 0 {
      SumSnoc(utxos[1..], i - 1);
      assert utxos[..i + 1][1..] == utxos[1..][..i] && utxos[..i][1..] == utxos[1..][..i - 1];
    } else {
      assert utxos[..1] == [utxos[0]] && utxos[..0] == [];
      assert Sum([utxos[0]]) == utxos[0].value + Sum([utxos[0]][1..]);
    }
  }

  lemma {:induction false} SumMonotone(utxos: seq<CandidUtxo>, i: nat)
    requires i <= |utxos|
    ensures Sum(utxos[..i]) <= Sum(utxos)
    decreases |utxos| - i
  {
    if i == |utxos| {
      assert utxos[..i] == utxos;
    } else {
      SumSnoc(utxos, i);
      SumMonotone(utxos, i + 1);
    }
  }

  /** The prefix of length `k` covers the target, and no shorter non-empty one does. */
  ghost predicate IsShortestCover(utxos: seq<CandidUtxo>, target: nat, k: nat)
  {
    0 < k <= |utxos| && Sum(utxos[..k]) >= target && forall j | 0 < j < k :: Sum(utxos[..j]) < target
  }

  /** If sums do not wrap, the selection is the shortest covering prefix, or everything if nothing covers. */
  lemma {:induction false} SelectIsShortest(utxos: seq<CandidUtxo>, target: Satoshi, i: nat, total: Satoshi)
    requires i <= |utxos| && Sum(utxos) < U64 && total == Sum(utxos[..i])
    requires forall j | 0 < j <= i :: Sum(utxos[..j]) < target
    ensures var (k, sum) := Select(utxos, target, i, total);
      && k <= |utxos| && sum == Sum(utxos[..k])
      && (IsShortestCover(utxos, target, k) || (k == |utxos| && forall j | 0 < j <= k :: Sum(utxos[..j]) < target))
    decreases |utxos| - i
  {
    if i < |utxos| {
      SumSnoc(utxos, i);
      SumMonotone(utxos, i + 1);
      var total' := WrapAdd(total, utxos[i].value);
      assert total' == Sum(utxos[..i + 1]);
      if total' < target {
        SelectIsShortest(utxos, target, i + 1, total');
      }
    }
  }

  // ---------- Value is conserved if and only if the fees are covered ----------

  /** Inputs pay for outputs, fees and less than the threshold in dust; there is change exactly when it reaches the threshold. */
  ghost predicate IsBalanced(tx: Transaction, spent: nat, amount: nat, fees: nat)
  {
    var dust := spent - OutputSum(tx.output) - fees;
    && 0 <= dust < 10_000
    && (|tx.output| == 2 <==> spent - amount - fees >= 10_000)
  }

  lemma OutputSums(source: Script, destination: Script, amount: Satoshi, remaining: Satoshi)
    ensures OutputSum(Outputs(source, destination, amount, remaining)) == amount + if remaining >= DUST_THRESHOLD then remaining else 0
  {
    var first := TxOut(amount, destination);
    if remaining >= DUST_THRESHOLD {
      var second := TxOut(remaining, source);
      assert Outputs(source, destination, amount, remaining) == [first, second];
      assert [first, second][1..] == [second] && [second][1..] == [];
      assert OutputSum([second]) == remaining;
    } else {
      assert Outputs(source, destination, amount, remaining) == [first] && [first][1..] == [];
    }
  }

  /**
   When no sum reaches 2^64: the call fails for want of balance if and only if the outputs offered
   are worth less than the amount. A transaction that is built spends a prefix of them, and is
   balanced if and only if they cover the fees as well.
   */
  lemma BuildIsBalancedIff(utxos: seq<CandidUtxo>, source: Script, destination: Script, amount: Satoshi, fees: Satoshi)
    requires Sum(utxos) < U64 && amount + fees < U64
    ensures var (k, _) := Select(utxos, amount + fees, 0, 0);
      var r := Build(utxos, source, destination, amount, fees);
      && k <= |utxos|
      && (r.InsufficientBalance? <==> Sum(utxos) < amount)
      && (r.Built? ==>
            && |r.tx.input| == k
            && (forall i | 0 <= i < k ::
                  r.tx.input[i].previousOutput.txid == utxos[i].outpoint.txid
                  && r.tx.input[i].previousOutput.vout == utxos[i].outpoint.vout)
            && r.tx.output[0] == TxOut(amount, destination)
            && (|r.tx.output| == 1 || (|r.tx.output| == 2 && r.tx.output[1].scriptPubkey == source))
            && (Sum(utxos) >= amount + fees && utxos != [] ==> IsShortestCover(utxos, amount + fees, k))
            && (IsBalanced(r.tx, Sum(utxos[..k]), amount, fees) <==> Sum(utxos) >= amount + fees))
  {
    var target: Satoshi := amount + fees;
    assert WrapAdd(amount, fees) == target;
    assert utxos[..0] == [];
    SelectIsShortest(utxos, target, 0, 0);
    var (k, total) := Select(utxos, target, 0, 0);
    SumMonotone(utxos, k);
    assert utxos[..|utxos|] == utxos;
    if total >= amount {
      var remaining := WrapSub(WrapSub(total, amount), fees);
      OutputSums(source, destination, amount, remaining);
      Remaining(total, amount, fees);
    }
  }

  lemma Remaining(total: Satoshi, amount: Satoshi, fees: Satoshi)
    requires total >= amount
    ensures WrapSub(WrapSub(total, amount), fees) == if total >= amount + fees then total - amount - fees else total - amount - fees + U64
  {
  }

  /** The first `k` outputs are what the wallet should spend: the shortest prefix that covers, or everything. */
  ghost predicate IsSelected(utxos: seq<CandidUtxo>, target: nat, k: nat)
  {
    k <= |utxos| && if Sum(utxos) >= target && utxos != [] then IsShortestCover(utxos, target, k) else k == |utxos|
  }

  /** The transaction spends the outputs, pays the amount, and returns the change from the dust threshold on. */
  ghost predicate IsPayment(
    tx: Transaction, spent: seq<CandidUtxo>, source: Script, destination: Script, amount: nat, change: nat)
  {
    && tx.version == 2 && tx.lockTime == 0 && |tx.input| == |spent|
    && (forall i | 0 <= i < |spent| ::
          && tx.input[i].previousOutput.txid == spent[i].outpoint.txid
          && tx.input[i].previousOutput.vout == spent[i].outpoint.vout
          && tx.input[i].scriptSig == [] && tx.input[i].sequence == 0xffff_ffff && tx.input[i].witnesses == [])
    && tx.output == [TxOut(amount, destination)] + if change >= 10_000 then [TxOut(change, source)] else []
  }

  lemma SelectedIsUnique(utxos: seq<CandidUtxo>, target: nat, j: nat, k: nat)
    requires IsSelected(utxos, target, j) && IsSelected(utxos, target, k)
    ensures j == k
  {
  }

  lemma SelectIsSelected(utxos: seq<CandidUtxo>, target: Satoshi)
    requires Sum(utxos) < U64
    ensures var (k, total) := Select(utxos, target, 0, 0);
      IsSelected(utxos, target, k) && total == Sum(utxos[..k]) && (total >= target || total == Sum(utxos))
  {
    assert utxos[..0] == [];
    SelectIsShortest(utxos, target, 0, 0);
    var (k, total) := Select(utxos, target, 0, 0);
    SumMonotone(utxos, k);
    assert utxos[..|utxos|] == utxos;
  }

  /**
   Everything that the call does when no sum reaches 2^64. It builds a transaction if and only if
   the outputs offered are worth the amount and the selected ones have ids of 32 bytes; when they
   are worth less it reports that, and otherwise it panics. The change is what remains, or 2^64
   more than that when the fees are not covered.
   */
  lemma BuildIff(
    utxos: seq<CandidUtxo>, source: Script, destination: Script, amount: Satoshi, fees: Satoshi, k: nat)
    requires Sum(utxos) < 0x1_0000_0000_0000_0000 && amount + fees < 0x1_0000_0000_0000_0000
    requires IsSelected(utxos, amount + fees, k)
    ensures var r := Build(utxos, source, destination, amount, fees);
      && (r.Built? <==> Sum(utxos) >= amount && forall u | u in utxos[..k] :: |u.outpoint.txid| == 32)
      && (r.InsufficientBalance? <==> Sum(utxos) < amount)
      && (r.Built? ==>
            var remaining := Sum(utxos[..k]) - amount - fees;
            IsPayment(r.tx, utxos[..k], source, destination, amount,
                      if remaining >= 0 then remaining else remaining + 0x1_0000_0000_0000_0000))
  {
    var target: Satoshi := amount + fees;
    assert WrapAdd(amount, fees) == target;
    SelectIsSelected(utxos, target);
    var (taken, total) := Select(utxos, target, 0, 0);
    SelectedIsUnique(utxos, target, taken, k);
    SumMonotone(utxos, k);
    hide Select, IsSelected, Sum, WrapAdd;
    if total >= amount {
      Remaining(total, amount, fees);
      hide WrapSub;
    }
  }

  /** Funds that cover the amount but not the fees: the remainder wraps around, and the change is worth more than all bitcoins. */
  lemma UncoveredFeesWrapAround(source: Script, destination: Script, op: CandidOutPoint)
    requires |op.txid| == 32
    ensures var r := Build([CandidUtxo(op, 15_000)], source, destination, 12_000, 10_000);
      r.Built? && r.tx.output == [TxOut(12_000, destination), TxOut(0x1_0000_0000_0000_0000 - 7_000, source)]
  {
    var utxos := [CandidUtxo(op, 15_000)];
    assert Select(utxos, 22_000, 0, 0) == Select(utxos, 22_000, 1, 15_000) == (1, 15_000);
    assert utxos[..1] == utxos;
  }

  /** Sums that reach 2^64 wrap around: funds that cover amount and fees are reported not to cover the amount. */
  lemma WrappedTotalIsInsufficient(source: Script, destination: Script, p: CandidOutPoint, q: CandidOutPoint)
    ensures var utxos := [CandidUtxo(p, 0xffff_ffff_ffff_0000), CandidUtxo(q, 100_000)];
      && Sum(utxos) >= 0xffff_ffff_ffff_1000 + 10_000
      && Build(utxos, source, destination, 0xffff_ffff_ffff_1000, 10_000) == InsufficientBalance
  {
    var utxos := [CandidUtxo(p, 0xffff_ffff_ffff_0000), CandidUtxo(q, 100_000)];
    assert utxos[1..] == [utxos[1]] && utxos[1..][1..] == [];
    assert Sum(utxos[1..]) == 100_000;
    var target := WrapAdd(0xffff_ffff_ffff_1000, 10_000);
    assert Select(utxos, target, 0, 0) == Select(utxos, target, 1, 0xffff_ffff_ffff_0000)
        == Select(utxos, target, 2, 34_464);
  }
}
