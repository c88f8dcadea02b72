/**
 Value in the ledger: no transaction creates or destroys any beyond its outputs and inputs, and
 the balances of all addresses make up the total.
 */
module Conservation {
  import opened Bitcoin
  import opened Ledger

  /** The total value of the unspent outputs. */
  ghost function Total(m: Entries): nat
    decreases |m|
  {
    if m == map[] then
      0
    else
      var op :| op in m;
      m[op].output.value + Total(m - {op})
  }

  lemma {:induction false} TotalWithout(m: Entries, op: OutPoint)
    requires op in m
    ensures Total(m) == m[op].output.value + Total(m - {op})
    decreases |m|
  {
    var first :| first in m && Total(m) == m[first].output.value + Total(m - {first});
    if first != op {
      TotalWithout(m - {first}, op);
      TotalWithout(m - {op}, first);
      assert m - {first} - {op} == m - {op} - {first};
    }
  }

  lemma TotalUpdated(m: Entries, op: OutPoint, utxo: Utxo)
    ensures Total(m[op := utxo]) + (if op in m then m[op].output.value else 0) == Total(m) + utxo.output.value
  {
    TotalWithout(m[op := utxo], op);
    assert m[op := utxo] - {op} == m - {op};
    if op in m {
      TotalWithout(m, op);
    } else {
      assert m - {op} == m;
    }
  }

  /** The total splits along any set of outpoints. */
  lemma {:induction false} TotalSplits(m: Entries, keys: set<OutPoint>)
    ensures Total(m) == Total(map op | op in m && op in keys :: m[op]) + Total(m - keys)
    decreases |m|
  {
    var inside := map op | op in m && op in keys :: m[op];
    if m == map[] {
      assert inside == map[] && m - keys == map[];
    } else {
      var op :| op in m;
      var rest := m - {op};
      TotalWithout(m, op);
      TotalSplits(rest, keys);
      if op in keys {
        TotalWithout(inside, op);
        assert inside - {op} == map o | o in rest && o in keys :: rest[o];
        assert rest - keys == m - keys;
      } else {
        TotalWithout(m - keys, op);
        assert inside == map o | o in rest && o in keys :: rest[o];
        assert m - keys - {op} == rest - keys;
      }
    }
  }

  lemma PartIsAtMostTotal(m: Entries, p: Entries)
    requires forall op | op in p :: op in m && m[op].output.value == p[op].output.value
    ensures Total(p) <= Total(m)
    decreases |m|
  {
    if p != map[] {
      var op :| op in p;
      TotalWithout(p, op);
      TotalWithout(m, op);
      PartIsAtMostTotal(m - {op}, p - {op});
    }
  }

  // ---------- Transactions ----------

  ghost function SpentValue(m: Entries, inputs: seq<TxIn>): nat
    decreases |inputs|
  {
    if inputs == [] then
      0
    else
      var op := inputs[0].previousOutput;
      if op in m then m[op].output.value + SpentValue(m - {op}, inputs[1..]) else SpentValue(m, inputs[1..])
  }

  ghost function SpentByTx(m: Entries, tx: Transaction): nat
  {
    if tx.IsCoinBase() then 0 else SpentValue(m, tx.input)
  }

  ghost function CreatedFrom(outputs: seq<TxOut>, vout: nat): nat
    requires vout <= |outputs|
    decreases |outputs| - vout
  {
    if vout == |outputs| then 0 else outputs[vout].value + CreatedFrom(outputs, vout + 1)
  }

  /** The value of present outputs that are replaced by outputs with the same outpoint. */
  ghost function ReplacedFrom(m: Entries, txid: Txid, outputs: seq<TxOut>, vout: nat, height: nat): nat
    requires vout <= |outputs|
    decreases |outputs| - vout
  {
    if vout == |outputs| then
      0
    else
      var op := OutPoint(txid, vout);
      (if op in m then m[op].output.value else 0)
      + ReplacedFrom(m[op := Utxo(outputs[vout], height)], txid, outputs, vout + 1, height)
  }

  ghost function ReplacedByAll(m: Entries, txs: seq<Transaction>, height: nat, strict: bool): nat
    requires ApplyAll(m, txs, height, strict).Some?
    decreases |txs|
  {
    if txs == [] then 0
    else ReplacedFrom(SpendTx(m, txs[0], strict).value, txs[0].Txid(), txs[0].output, 0, height)
         + ReplacedByAll(Apply(m, txs[0], height, strict).value, txs[1..], height, strict)
  }

  ghost function SpentByAll(m: Entries, txs: seq<Transaction>, height: nat, strict: bool): nat
    requires ApplyAll(m, txs, height, strict).Some?
    decreases |txs|
  {
    if txs == [] then 0
    else SpentByTx(m, txs[0]) + SpentByAll(Apply(m, txs[0], height, strict).value, txs[1..], height, strict)
  }

  ghost function CreatedByAll(txs: seq<Transaction>): nat
  {
    if txs == [] then 0 else CreatedFrom(txs[0].output, 0) + CreatedByAll(txs[1..])
  }

  lemma {:induction false} SpendConserves(m: Entries, inputs: seq<TxIn>, strict: bool)
    requires Spend(m, inputs, strict).Some?
    ensures Total(m) == Total(Spend(m, inputs, strict).value) + SpentValue(m, inputs)
    decreases |inputs|
  {
    if inputs != [] {
      var op := inputs[0].previousOutput;
      if op in m {
        TotalWithout(m, op);
        SpendConserves(m - {op}, inputs[1..], strict);
      } else {
        SpendConserves(m, inputs[1..], strict);
      }
    }
  }

  lemma {:induction false} AddConserves(m: Entries, txid: Txid, outputs: seq<TxOut>, vout: nat, height: nat)
    requires vout <= |outputs| && AddFrom(m, txid, outputs, vout, height).Some?
    ensures Total(AddFrom(m, txid, outputs, vout, height).value) + ReplacedFrom(m, txid, outputs, vout, height)
         == Total(m) + CreatedFrom(outputs, vout)
    decreases |outputs| - vout
  {
    if vout < |outputs| {
      var op, utxo := OutPoint(txid, vout), Utxo(outputs[vout], height);
      TotalUpdated(m, op, utxo);
      AddConserves(m[op := utxo], txid, outputs, vout + 1, height);
    }
  }

  /**
   What exists after, plus what was spent or replaced, is what existed before, plus what was created.
   */
  lemma {:induction false} ApplyAllConserves(m: Entries, txs: seq<Transaction>, height: nat, strict: bool)
    requires ApplyAll(m, txs, height, strict).Some?
    ensures Total(ApplyAll(m, txs, height, strict).value)
            + SpentByAll(m, txs, height, strict) + ReplacedByAll(m, txs, height, strict)
         == Total(m) + CreatedByAll(txs)
    decreases |txs|
  {
    if txs != [] {
      var tx := txs[0];
      if !tx.IsCoinBase() {
        SpendConserves(m, tx.input, strict);
      }
      AddConserves(SpendTx(m, tx, strict).value, tx.Txid(), tx.output, 0, height);
      ApplyAllConserves(Apply(m, tx, height, strict).value, txs[1..], height, strict);
    }
  }

  lemma {:induction false} AddReplacesNothing(m: Entries, txid: Txid, outputs: seq<TxOut>, vout: nat, height: nat)
    requires vout <= |outputs| && txid !in DUPLICATE_TX_IDS && AddFrom(m, txid, outputs, vout, height).Some?
    ensures ReplacedFrom(m, txid, outputs, vout, height) == 0
    decreases |outputs| - vout
  {
    if vout < |outputs| {
      AddReplacesNothing(m[OutPoint(txid, vout) := Utxo(outputs[vout], height)], txid, outputs, vout + 1, height);
    }
  }

  /** Only the two duplicate transaction ids replace anything. */
  lemma {:induction false} NothingIsReplaced(m: Entries, txs: seq<Transaction>, height: nat, strict: bool)
    requires ApplyAll(m, txs, height, strict).Some?
    requires forall tx | tx in txs :: tx.Txid() !in DUPLICATE_TX_IDS
    ensures ReplacedByAll(m, txs, height, strict) == 0
    decreases |txs|
  {
    if txs != [] {
      assert txs[0] in txs;
      AddReplacesNothing(SpendTx(m, txs[0], strict).value, txs[0].Txid(), txs[0].output, 0, height);
      NothingIsReplaced(Apply(m, txs[0], height, strict).value, txs[1..], height, strict);
    }
  }

  // ---------- Balances ----------

  /** The balances of several addresses, added up. */
  ghost function SumOver(addresses: set<Address>, balance: Address -> nat): nat
    decreases |addresses|
  {
    if addresses == {} then
      0
    else
      var a :| a in addresses;
      balance(a) + SumOver(addresses - {a}, balance)
  }

  /** The outputs that belong to none of the addresses. */
  ghost function NotOwnedBy(m: Entries, addresses: set<Address>, network: Network): Entries
  {
    map op | op in m && (Owner(m[op].output, network).None? || Owner(m[op].output, network).value !in addresses) :: m[op]
  }

  lemma PeelAddress(m: Entries, addresses: set<Address>, a: Address, network: Network)
    requires a in addresses
    ensures Total(NotOwnedBy(m, addresses - {a}, network))
         == Total(OwnedBy(m, a, network)) + Total(NotOwnedBy(m, addresses, network))
  {
    var others := NotOwnedBy(m, addresses - {a}, network);
    var mine := OwnedBy(m, a, network);
    TotalSplits(others, mine.Keys);
    assert (map op | op in others && op in mine.Keys :: others[op]) == mine;
    assert others - mine.Keys == NotOwnedBy(m, addresses, network);
  }

  lemma {:induction false} BalancesAndRest(
    m: Entries, addresses: set<Address>, balance: Address -> nat, network: Network)
    requires forall a | a in addresses :: balance(a) == Total(OwnedBy(m, a, network))
    ensures SumOver(addresses, balance) + Total(NotOwnedBy(m, addresses, network)) == Total(m)
    decreases |addresses|
  {
    if addresses == {} {
      assert NotOwnedBy(m, addresses, network) == m;
    } else {
      var a :| a in addresses && SumOver(addresses, balance) == balance(a) + SumOver(addresses - {a}, balance);
      BalancesAndRest(m, addresses - {a}, balance, network);
      PeelAddress(m, addresses, a, network);
    }
  }

  /** The balances of all addresses and the outputs without an address make up the total. */
  lemma BalancesSumToTotal(m: Entries, addresses: set<Address>, balance: Address -> nat, network: Network)
    requires forall op | op in m && Owner(m[op].output, network).Some? ::
               Owner(m[op].output, network).value in addresses
    requires forall a | a in addresses :: balance(a) == Total(OwnedBy(m, a, network))
    ensures SumOver(addresses, balance) + Total(Unaddressed(m, network)) == Total(m)
  {
    BalancesAndRest(m, addresses, balance, network);
    assert NotOwnedBy(m, addresses, network) == Unaddressed(m, network);
  }

  ghost function Unaddressed(m: Entries, network: Network): Entries
  {
    map op | op in m && Owner(m[op].output, network).None? :: m[op]
  }
}
