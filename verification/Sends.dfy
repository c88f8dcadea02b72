/**
 `send` of the example wallet as an actor. A call suspends while it fetches the unspent outputs,
 and other calls may run meanwhile; what follows the fetch runs without interruption.
 */
module Sends {
  import opened Wrappers
  import opened Bitcoin
  import opened Sequences
  import opened Wallet

  const FEES: Satoshi := 10_000

  /** What a suspended call remembers. */
  datatype Call = Call(amount: Satoshi, destination: Script)

  /** The actor's state, with the transactions it built, in order. */
  datatype Actor = Actor(pending: map<nat, Call>, spentTxos: set<CandidOutPoint>, built: seq<Transaction>)

  /** A new call, or the arrival of the outputs that call `id` asked for. */
  datatype Event =
    | Start(id: nat, call: Call)
    | Resume(id: nat, utxos: seq<CandidUtxo>)

  function Unspent(utxos: seq<CandidUtxo>, spentTxos: set<CandidOutPoint>): (r: seq<CandidUtxo>)
    ensures forall u | u in r :: u in utxos && u.outpoint !in spentTxos
  {
    if utxos == [] then []
    else (if utxos[0].outpoint in spentTxos then [] else [utxos[0]]) + Unspent(utxos[1..], spentTxos)
  }

  /** The filter loses nothing: each output is kept as often as it was fetched, unless it is cached. */
  lemma {:induction false} UnspentIsExact(utxos: seq<CandidUtxo>, spentTxos: set<CandidOutPoint>, u: CandidUtxo)
    ensures multiset(Unspent(utxos, spentTxos))[u] == if u.outpoint in spentTxos then 0 else multiset(utxos)[u]
  {
    if utxos != [] {
      UnspentIsExact(utxos[1..], spentTxos, u);
      assert utxos == [utxos[0]] + utxos[1..];
    }
  }

  /** And it keeps the order. */
  lemma {:induction false} UnspentKeepsOrder(
    first: seq<CandidUtxo>, second: seq<CandidUtxo>, spentTxos: set<CandidOutPoint>)
    ensures Unspent(first + second, spentTxos) == Unspent(first, spentTxos) + Unspent(second, spentTxos)
  {
    if first == [] {
      assert first + second == second;
    } else {
      TailOfConcat(first, second);
      UnspentKeepsOrder(first[1..], second, spentTxos);
    }
  }

  function SpendsOf(inputs: seq<TxIn>): set<CandidOutPoint>
  {
    set i | i in inputs :: CandidOutPoint(i.previousOutput.txid, i.previousOutput.vout)
  }

  function Spends(tx: Transaction): set<CandidOutPoint>
  {
    SpendsOf(tx.input)
  }

  /** The part of `send` after the fetch. A trap undoes it: no transaction is built and nothing is cached. */
  function Finish(spentTxos: set<CandidOutPoint>, utxos: seq<CandidUtxo>, source: Script, call: Call): Option<Transaction>
  {
    match Build(Unspent(utxos, spentTxos), source, call.destination, call.amount, FEES)
    case Built(tx) => Some(tx)
    case InsufficientBalance => None
    case Panicked => None
  }

  class Canister {
    const source: Script
    var spentTxos: set<CandidOutPoint>

    constructor (source: Script)
      ensures this.source == source && spentTxos == {}
    {
      this.source := source;
      spentTxos := {};
    }

    /** What runs when the fetched outputs arrive. */
    method FinishSend(utxos: seq<CandidUtxo>, call: Call) returns (r: Option<Transaction>)
      modifies this
      ensures r == Finish(old(spentTxos), utxos, source, call)
      ensures spentTxos == old(spentTxos) + if r.Some? then Spends(r.value) else {}
    {
      var result := BuildTransaction(Unspent(utxos, spentTxos), source, call.destination, call.amount, FEES);
      if !result.Built? {
        return None;
      }
      var tx := result.tx;
      for i := 0 to |tx.input|
        invariant spentTxos == old(spentTxos) + SpendsOf(tx.input[..i])
      {
        var previous := tx.input[i].previousOutput;
        SpendsOfSnoc(tx.input, i);
        spentTxos := spentTxos + {CandidOutPoint(previous.txid, previous.vout)};
      }
      assert tx.input[..|tx.input|] == tx.input;
      return Some(tx);
    }
  }

  lemma SpendsOfSnoc(inputs: seq<TxIn>, i: nat)
    requires i < |inputs|
    ensures SpendsOf(inputs[..i + 1])
         == SpendsOf(inputs[..i]) + {CandidOutPoint(inputs[i].previousOutput.txid, inputs[i].previousOutput.vout)}
  {
    assert inputs[..i + 1] == inputs[..i] + [inputs[i]];
  }

  /**
   Exactly when the part after the fetch sends, and what: when the uncached outputs are worth the
   amount and the selected ones have ids of 32 bytes, it pays the amount out of them.
   */
  lemma FinishIff(spentTxos: set<CandidOutPoint>, utxos: seq<CandidUtxo>, source: Script, call: Call, k: nat)
    requires Sum(utxos) < 0x1_0000_0000_0000_0000 && call.amount + 10_000 < 0x1_0000_0000_0000_0000
    requires IsSelected(Unspent(utxos, spentTxos), call.amount + 10_000, k)
    ensures var offered, r := Unspent(utxos, spentTxos), Finish(spentTxos, utxos, source, call);
      && (r.Some? <==> Sum(offered) >= call.amount && forall u | u in offered[..k] :: |u.outpoint.txid| == 32)
      && (r.Some? ==>
            var remaining := Sum(offered[..k]) - call.amount - 10_000;
            IsPayment(r.value, offered[..k], source, call.destination, call.amount,
                      if remaining >= 0 then remaining else remaining + 0x1_0000_0000_0000_0000))
  {
    hide Unspent, Build, IsSelected, IsPayment, Sum;
    UnspentSum(utxos, spentTxos);
    BuildIff(Unspent(utxos, spentTxos), source, call.destination, call.amount, FEES, k);
  }

  lemma {:induction false} UnspentSum(utxos: seq<CandidUtxo>, spentTxos: set<CandidOutPoint>)
    ensures Sum(Unspent(utxos, spentTxos)) <= Sum(utxos)
  {
    if utxos != [] {
      UnspentSum(utxos[1..], spentTxos);
      var rest := Unspent(utxos[1..], spentTxos);
      assert ([utxos[0]] + rest)[1..] == rest && [] + rest == rest;
    }
  }

  // ---------- Interleavings ----------

  ghost function Step(a: Actor, source: Script, e: Event): Actor
  {
    match e
    case Start(id, call) =>
      // A call with too small an amount traps before it fetches.
      if call.amount <= FEES || id in a.pending then a else a.(pending := a.pending[id := call])
    case Resume(id, utxos) =>
      if id !in a.pending then
        a
      else
        match Finish(a.spentTxos, utxos, source, a.pending[id])
        case None => a.(pending := a.pending - {id})
        case Some(tx) => Actor(a.pending - {id}, a.spentTxos + Spends(tx), a.built + [tx])
  }

  ghost function Steps(a: Actor, source: Script, events: seq<Event>): Actor
    decreases |events|
  {
    if events == [] then a else Steps(Step(a, source, events[0]), source, events[1..])
  }

  /** No two transactions spend the same output, and every spent output is cached. */
  ghost predicate NoDoubleSpend(a: Actor)
  {
    && (forall i, j, x, y | 0 <= i < j < |a.built| && x in a.built[i].input && y in a.built[j].input ::
          x.previousOutput != y.previousOutput)
    && (forall i, x | 0 <= i < |a.built| && x in a.built[i].input ::
          CandidOutPoint(x.previousOutput.txid, x.previousOutput.vout) in a.spentTxos)
  }

  lemma FinishSpendsUnspent(spentTxos: set<CandidOutPoint>, utxos: seq<CandidUtxo>, source: Script, call: Call)
    requires Finish(spentTxos, utxos, source, call).Some?
    ensures forall x | x in Finish(spentTxos, utxos, source, call).value.input ::
              CandidOutPoint(x.previousOutput.txid, x.previousOutput.vout) !in spentTxos
  {
    var offered := Unspent(utxos, spentTxos);
    var (taken, _) := Select(offered, WrapAdd(call.amount, FEES), 0, 0);
    TakenBound(offered, WrapAdd(call.amount, FEES), 0, 0);
    var tx := Finish(spentTxos, utxos, source, call).value;
    forall x | x in tx.input
      ensures CandidOutPoint(x.previousOutput.txid, x.previousOutput.vout) !in spentTxos
    {
      var k :| 0 <= k < |tx.input| && tx.input[k] == x;
      assert offered[..taken][k] == offered[k] && offered[k] in offered;
    }
  }

  lemma StepKeeps(a: Actor, source: Script, e: Event)
    requires NoDoubleSpend(a)
    ensures NoDoubleSpend(Step(a, source, e))
  {
    if e.Resume? && e.id in a.pending {
      var r := Finish(a.spentTxos, e.utxos, source, a.pending[e.id]);
      if r.Some? {
        FinishSpendsUnspent(a.spentTxos, e.utxos, source, a.pending[e.id]);
        SpendsIsInputs(r.value);
        hide Finish, Spends;
      }
    }
  }

  lemma SpendsIsInputs(tx: Transaction)
    ensures forall p | p in Spends(tx) ::
              exists x :: x in tx.input && p == CandidOutPoint(x.previousOutput.txid, x.previousOutput.vout)
    ensures forall x | x in tx.input :: CandidOutPoint(x.previousOutput.txid, x.previousOutput.vout) in Spends(tx)
  {
  }

  /** In every interleaving of calls, whatever outputs are fetched, the transactions built never spend the same output. */
  lemma {:induction false} NeverDoubleSpends(a: Actor, source: Script, events: seq<Event>)
    requires NoDoubleSpend(a)
    ensures NoDoubleSpend(Steps(a, source, events))
    decreases |events|
  {
    if events != [] {
      StepKeeps(a, source, events[0]);
      NeverDoubleSpends(Step(a, source, events[0]), source, events[1..]);
    }
  }

  // ---------- Every call is served ----------

  /** Each suspended call asked for more than the fees; a smaller amount never gets that far. */
  ghost predicate PendingAreLarge(a: Actor)
  {
    forall id | id in a.pending :: a.pending[id].amount > 10_000
  }

  lemma {:induction false} SmallAmountsTrap(a: Actor, source: Script, events: seq<Event>)
    requires PendingAreLarge(a)
    ensures PendingAreLarge(Steps(a, source, events))
    decreases |events|
  {
    if events != [] {
      SmallAmountsTrap(Step(a, source, events[0]), source, events[1..]);
    }
  }

  /** A suspended call waits, whatever other calls do meanwhile. */
  lemma {:induction false} CallWaits(a: Actor, source: Script, events: seq<Event>, id: nat)
    requires id in a.pending && forall e | e in events && e.Resume? :: e.id != id
    ensures id in Steps(a, source, events).pending && Steps(a, source, events).pending[id] == a.pending[id]
    decreases |events|
  {
    if events != [] {
      assert events[0] in events;
      CallWaits(Step(a, source, events[0]), source, events[1..], id);
    }
  }

  lemma {:induction false} StepsConcat(a: Actor, source: Script, first: seq<Event>, second: seq<Event>)
    ensures Steps(a, source, first + second) == Steps(Steps(a, source, first), source, second)
    decreases |first|
  {
    if first == [] {
      assert first + second == second;
    } else {
      TailOfConcat(first, second);
      StepsConcat(Step(a, source, first[0]), source, first[1..], second);
    }
  }

  /**
   A call that starts with a new id and more than the fees is served when its outputs arrive,
   whatever other calls did meanwhile: it builds one transaction more exactly if `FinishIff` says
   so of the cache at that moment, and then caches what that spends.
   */
  lemma CallIsServed(
    a: Actor, source: Script, id: nat, call: Call, others: seq<Event>, utxos: seq<CandidUtxo>)
    requires id !in a.pending && call.amount > 10_000 && forall e | e in others && e.Resume? :: e.id != id
    ensures var before := Steps(a, source, [Start(id, call)] + others);
      var after := Steps(a, source, [Start(id, call)] + others + [Resume(id, utxos)]);
      var r := Finish(before.spentTxos, utxos, source, call);
      && after.pending == before.pending - {id}
      && after.built == before.built + (if r.Some? then [r.value] else [])
      && after.spentTxos == before.spentTxos + (if r.Some? then Spends(r.value) else {})
  {
    hide Finish;
    var started := Step(a, source, Start(id, call));
    StepsConcat(a, source, [Start(id, call)], others);
    assert Steps(a, source, [Start(id, call)]) == started by {
      assert [Start(id, call)][1..] == [];
    }
    CallWaits(started, source, others, id);
    var before := Steps(a, source, [Start(id, call)] + others);
    StepsConcat(a, source, [Start(id, call)] + others, [Resume(id, utxos)]);
    assert Steps(before, source, [Resume(id, utxos)]) == Step(before, source, Resume(id, utxos)) by {
      assert [Resume(id, utxos)][1..] == [];
    }
    assert before.built + [] == before.built;
  }
}
