/**
 What `get_utxos` and `get_balance` answer, and why finalising a block does not change the answer.
 */
module Queries {
  import opened Wrappers
  import opened Bitcoin
  import opened BlockForests
  import opened ForestInvariants
  import opened ChainChanges
  import opened Ledger
  import opened UtxoIndex
  import opened IndexAgreement
  import opened Conservation
  import opened ChainState
  import opened StateInvariants

  // ---------- The cutoff ----------

  /** The confirmations of block `i` of a current chain of length `n`. */
  ghost function Confirmations(n: nat, i: nat): int
  {
    n - i
  }

  /**
   Stopping at the first block with too few confirmations takes the same blocks as testing each:
   a prefix of length `n - c + 1`, cut to the range from 0 to `n`.
   */
  lemma {:induction false} CutOffIsExact(stableHeight: nat, n: nat, i: nat, c: nat)
    requires i <= n && forall j | 0 <= j < i :: Confirmations(n, j) >= c
    ensures CutOff(stableHeight, n, i, c) == if c == 0 then n else if c > n then 0 else n - c + 1
    ensures forall j | 0 <= j < n :: j < CutOff(stableHeight, n, i, c) <==> Confirmations(n, j) >= c
    decreases n - i
  {
    if i < n && Confirmations(n, i) >= c {
      CutOffIsExact(stableHeight, n, i + 1, c);
    } else if i > 0 {
      assert Confirmations(n, i - 1) >= c;
    }
  }

  // ---------- Queries in terms of the plain ledger ----------

  ghost predicate Spendable(blocks: seq<Block>)
  {
    forall b, tx | b in blocks && tx in b.txdata :: SpendsNoDuplicate(tx)
  }

  /** The blocks that a query with `c` confirmations applies. */
  ghost function Applied(s: Snapshot, c: nat): seq<Block>
  {
    s.Chain()[..CutOff(s.height, |s.Chain()|, 0, c)]
  }

  lemma {:induction false} InsertBlocksRefines(u: Indexed, blocks: seq<Block>, height: nat, strict: bool, network: Network)
    requires Sound(u, network) && DuplicatesRepeat() && Spendable(blocks)
    ensures Refines(InsertBlocks(u, blocks, height, strict, network), Replay(u.entries, blocks, height, strict), network)
    decreases |blocks|
  {
    if blocks != [] {
      assert blocks[0] in blocks;
      InsertAllRefines(u, blocks[0].txdata, height, strict, network);
      var r := InsertAll(u, blocks[0].txdata, height, strict, network);
      if r.Some? {
        InsertBlocksRefines(r.value, blocks[1..], height + 1, strict, network);
      }
    }
  }

  /** An answer computed on the plain ledger: replay blocks on one address's outputs, then filter. */
  ghost function AnswerOf(
    m: Entries, blocks: seq<Block>, height: nat, mainHeight: nat, a: Address, network: Network, c: nat): Option<Answer>
  {
    var r := Replay(OwnedBy(m, a, network), blocks, height + 1, false);
    if r.None? then None else Some(Confirmed(IntoSet(OwnedBy(r.value, a, network)), mainHeight, c))
  }

  ghost function LedgerAnswer(s: Snapshot, a: Address, c: nat): Option<Answer>
  {
    AnswerOf(s.utxos.entries, Applied(s, c), s.height, s.MainChainHeight(), a, s.network, c)
  }

  lemma WithUnstableRefines(s: Snapshot, part: Indexed, c: nat)
    requires Sound(part, s.network) && DuplicatesRepeat() && Spendable(s.Chain())
    ensures Refines(WithUnstable(s, part, c), Replay(part.entries, Applied(s, c), s.height + 1, false), s.network)
  {
    InsertBlocksRefines(part, Applied(s, c), s.height + 1, false, s.network);
  }

  lemma AnsweredIsFilter(
    all: Option<Indexed>, spec: Option<Entries>, a: Address, network: Network, mainHeight: nat, c: nat)
    requires Refines(all, spec, network)
    ensures (if all.None? then None else Answered(all.value, a, network, mainHeight, c))
         == (if spec.None? then None else Some(Confirmed(IntoSet(OwnedBy(spec.value, a, network)), mainHeight, c)))
  {
    if all.Some? {
      GetUtxosIsFilter(all.value, a, network);
    }
  }

  /** `get_utxos` answers as the plain ledger does, and panics only when the ledger has an error. */
  lemma QueryIsLedgerAnswer(s: Snapshot, a: Address, c: nat)
    requires Sound(s.utxos, s.network) && DuplicatesRepeat() && Spendable(s.Chain())
    ensures Query(s, a, c) == LedgerAnswer(s, a, c)
  {
    GetUtxosIsFilter(s.utxos, a, s.network);
    var part := GetUtxos(s.utxos, a, s.network).value;
    WithUnstableRefines(s, part, c);
    AnsweredIsFilter(WithUnstable(s, part, c), Replay(part.entries, Applied(s, c), s.height + 1, false),
                     a, s.network, s.MainChainHeight(), c);
  }

  lemma AnswerOfFullReplay(
    m: Entries, blocks: seq<Block>, height: nat, mainHeight: nat, a: Address, network: Network, c: nat)
    requires Replay(m, blocks, height + 1, true).Some?
    ensures AnswerOf(m, blocks, height, mainHeight, a, network, c)
         == Some(Confirmed(IntoSet(OwnedBy(Replay(m, blocks, height + 1, true).value, a, network)), mainHeight, c))
  {
    LocalReplayRefinesGlobal(m, a, network, blocks, height + 1, true);
  }

  /** The whole ledger after strictly applying the blocks that a query applies, if it accepts them. */
  ghost function FullReplay(s: Snapshot, c: nat): Option<Entries>
  {
    Replay(s.utxos.entries, Applied(s, c), s.height + 1, true)
  }

  /**
   The answer agrees with a full replay: if the whole ledger accepts the applied blocks, the query
   does not panic, and returns what the address owns in the whole ledger afterwards.
   */
  lemma QueryAgreesWithFullReplay(s: Snapshot, a: Address, c: nat)
    requires Sound(s.utxos, s.network) && DuplicatesRepeat() && Spendable(s.Chain())
    requires FullReplay(s, c).Some?
    ensures Query(s, a, c)
         == Some(Confirmed(IntoSet(OwnedBy(FullReplay(s, c).value, a, s.network)), s.MainChainHeight(), c))
  {
    hide Query, Replay, Applied, OwnedBy;
    QueryIsLedgerAnswer(s, a, c);
    AnswerOfFullReplay(s.utxos.entries, Applied(s, c), s.height, s.MainChainHeight(), a, s.network, c);
  }

  /**
   The answer, output by output: it holds what the whole ledger holds after the applied blocks, is
   paid to the address, and has enough confirmations.
   */
  lemma AnswerHolds(s: Snapshot, a: Address, c: nat, op: OutPoint, output: TxOut, height: nat)
    requires Sound(s.utxos, s.network) && DuplicatesRepeat() && Spendable(s.Chain())
    requires FullReplay(s, c).Some?
    ensures Query(s, a, c).Some?
    ensures (op, output, height) in Query(s, a, c).value <==>
      var full := FullReplay(s, c).value;
      && op in full && full[op].output == output && full[op].height == height
      && ADDRESS_FROM_SCRIPT(output.scriptPubkey, s.network) == Some(a)
      && |s.Chain()| + s.height - height + 1 >= c
  {
    hide Query, FullReplay, CurrentChain, Sound;
    QueryAgreesWithFullReplay(s, a, c);
    var mine := OwnedBy(FullReplay(s, c).value, a, s.network);
    if op in mine {
      assert (op, mine[op].output, mine[op].height) in IntoSet(mine);
    }
  }

  /** In a reachable state no height in an answer exceeds the height of the main chain: no subtraction underflows. */
  lemma HeightsNeverExceedMainChain(s: Snapshot, log: seq<Block>, a: Address, c: nat)
    requires RefinesLog(s, log)
    requires Replay(OwnedBy(s.utxos.entries, a, s.network), Applied(s, c), s.height + 1, false).Some?
    ensures Bounded(Replay(OwnedBy(s.utxos.entries, a, s.network), Applied(s, c), s.height + 1, false).value,
                    s.MainChainHeight())
  {
    assert Bounded(OwnedBy(s.utxos.entries, a, s.network), s.MainChainHeight());
    assert |Applied(s, c)| <= |s.Chain()|;
    hide RefinesLog, Replay, CurrentChain, Applied, OwnedBy, Bounded;
    ReplayBounded(OwnedBy(s.utxos.entries, a, s.network), Applied(s, c), s.height + 1, false, s.MainChainHeight());
  }

  // ---------- Finalisation ----------

  /** The recorded height of an output after the first unstable block became final at height `h`. */
  function Lowered(h: nat, height: nat): nat
  {
    if height == h + 1 then h else height
  }

  function LoweredAnswer(h: nat, answer: Answer): Answer
  {
    set t | t in answer :: (t.0, t.1, Lowered(h, t.2))
  }

  ghost function IsLowered(h: nat): (nat, nat) -> bool
  {
    (x: nat, y: nat) => y == Lowered(h, x)
  }

  ghost function IsRaised(h: nat): (nat, nat) -> bool
  {
    (x: nat, y: nat) => x == Lowered(h, y)
  }

  /** What an address tracks before and after the block `b` was made final. */
  lemma FinalBlockTracks(m0: Entries, m1: Entries, b: Block, h: nat, a: Address, network: Network)
    requires Bounded(m0, h) && ApplyAll(m0, b.txdata, h, true) == Some(m1)
    ensures ApplyAll(OwnedBy(m0, a, network), b.txdata, h + 1, false).Some?
    ensures Tracks(OwnedBy(m1, a, network), ApplyAll(OwnedBy(m0, a, network), b.txdata, h + 1, false).value,
                   a, network, IsRaised(h))
  {
    ApplyAllTracks(OwnedBy(m0, a, network), m0, b.txdata, true, h + 1, h, a, network, IsLowered(h));
  }

  /** The ledgers of an address, replayed before and after the head `b` of the chain was made final. */
  lemma ReplayAfterFinal(
    m0: Entries, m1: Entries, b: Block, tail: seq<Block>, h: nat, a: Address, network: Network)
    requires Bounded(m0, h) && ApplyAll(m0, b.txdata, h, true) == Some(m1)
    requires Replay(OwnedBy(m0, a, network), [b] + tail, h + 1, false).Some?
    ensures Replay(OwnedBy(m1, a, network), tail, h + 2, false).Some?
    ensures Tracks(Replay(OwnedBy(m1, a, network), tail, h + 2, false).value,
                   Replay(OwnedBy(m0, a, network), [b] + tail, h + 1, false).value, a, network, IsRaised(h))
  {
    FinalBlockTracks(m0, m1, b, h, a, network);
    var x := ApplyAll(OwnedBy(m0, a, network), b.txdata, h + 1, false).value;
    assert ([b] + tail)[1..] == tail;
    assert Replay(OwnedBy(m0, a, network), [b] + tail, h + 1, false) == Replay(x, tail, h + 2, false);
    ReplayTracks(OwnedBy(m1, a, network), x, tail, false, h + 2, h + 2, a, network, IsRaised(h));
  }

  lemma TrackedAnswers(p: Entries, q: Entries, h: nat, a: Address, network: Network)
    requires Tracks(p, q, a, network, IsRaised(h))
    ensures IntoSet(OwnedBy(p, a, network)) == LoweredAnswer(h, IntoSet(OwnedBy(q, a, network)))
  {
    var x, y := OwnedBy(p, a, network), OwnedBy(q, a, network);
    assert x.Keys == y.Keys;
    forall t | t in IntoSet(x)
      ensures t in LoweredAnswer(h, IntoSet(y))
    {
      var op :| op in x && t == (op, x[op].output, x[op].height);
      assert (op, y[op].output, y[op].height) in IntoSet(y);
    }
    forall t | t in LoweredAnswer(h, IntoSet(y))
      ensures t in IntoSet(x)
    {
      var u :| u in IntoSet(y) && t == (u.0, u.1, Lowered(h, u.2));
      var op :| op in y && u == (op, y[op].output, y[op].height);
      assert op in x;
    }
  }

  /** If all heights are low enough, the filter on confirmations keeps everything. */
  lemma AllConfirmed(m: Entries, bound: nat, mainHeight: nat, c: nat)
    requires Bounded(m, bound) && mainHeight - bound + 1 >= c
    ensures Confirmed(IntoSet(m), mainHeight, c) == IntoSet(m)
  {
  }

  /** The states before and after a block is popped and made final. */
  ghost predicate IsFinalisation(s: Snapshot, s': Snapshot, b: Block)
  {
    Popped(s.delta, s.trees, s.anchor).0 == Some(b) && Finalise(s) == Some(s')
  }

  /** A finalisation moves the head of the current chain to the final blocks, and keeps the height of the main chain. */
  lemma FinalisationMovesHead(s: Snapshot, s': Snapshot, b: Block)
    requires s.delta >= 1 && WellAnchored(s.trees, s.anchor) && IsFinalisation(s, s', b)
    ensures s.Chain() == [b] + s'.Chain() && s'.MainChainHeight() == s.MainChainHeight()
    ensures ApplyAll(s.utxos.entries, b.txdata, s.height, true) == Some(s'.utxos.entries)
  {
    PopTakesHead(s.delta, s.trees, s.anchor);
    InsertAllEntries(s.utxos, b.txdata, s.height, true, s.network);
  }

  lemma AppliedAfterFinal(s: Snapshot, s': Snapshot, b: Block, c: nat)
    requires s.Chain() == [b] + s'.Chain() && s'.height == s.height + 1 && c <= |s.Chain()|
    ensures Applied(s, c) == [b] + Applied(s', c)
    ensures s.MainChainHeight() - (s.height + 1 + |Applied(s', c)|) + 1 >= c
  {
    CutOffIsExact(s.height, |s.Chain()|, 0, c);
    CutOffIsExact(s'.height, |s'.Chain()|, 0, c);
  }

  /** Tracked ledgers whose heights are confirmed give the same confirmed answers, but for the lowered heights. */
  lemma TrackedConfirmed(p: Entries, q: Entries, h: nat, a: Address, network: Network, bound: nat, mainHeight: nat, c: nat)
    requires Tracks(p, q, a, network, IsRaised(h)) && Bounded(q, bound) && mainHeight - bound + 1 >= c
    ensures Confirmed(IntoSet(OwnedBy(p, a, network)), mainHeight, c)
         == LoweredAnswer(h, Confirmed(IntoSet(OwnedBy(q, a, network)), mainHeight, c))
  {
    TrackedAnswers(p, q, h, a, network);
    AllConfirmed(OwnedBy(q, a, network), bound, mainHeight, c);
    AllConfirmed(OwnedBy(p, a, network), bound, mainHeight, c);
  }

  /** Invisible finalisation, on the plain ledger. */
  lemma FinalisationOnLedger(
    m0: Entries, m1: Entries, b: Block, tail: seq<Block>, h: nat, mainHeight: nat, a: Address, network: Network, c: nat)
    requires ApplyAll(m0, b.txdata, h, true) == Some(m1) && Bounded(m0, h)
    requires AnswerOf(m0, [b] + tail, h, mainHeight, a, network, c).Some?
    requires mainHeight - (h + 1 + |tail|) + 1 >= c
    ensures AnswerOf(m1, tail, h + 1, mainHeight, a, network, c)
         == Some(LoweredAnswer(h, AnswerOf(m0, [b] + tail, h, mainHeight, a, network, c).value))
  {
    var mine := OwnedBy(m0, a, network);
    ReplayAfterFinal(m0, m1, b, tail, h, a, network);
    ReplayBounded(mine, [b] + tail, h + 1, false, h + 1 + |tail|);
    TrackedConfirmed(Replay(OwnedBy(m1, a, network), tail, h + 2, false).value,
                     Replay(mine, [b] + tail, h + 1, false).value, h, a, network, h + 1 + |tail|, mainHeight, c);
  }

  /**
   Finalisation is invisible: for every address, and every number of confirmations up to the
   length of the current chain, a query answered before a block is made final is answered after
   it with the same outputs. The recorded heights of that block's outputs fall by one.
   */
  lemma FinalisationIsInvisible(s: Snapshot, s': Snapshot, b: Block, log: seq<Block>, a: Address, c: nat)
    requires s.delta >= 1 && RefinesLog(s, log) && IsFinalisation(s, s', b)
    requires Sound(s.utxos, s.network) && DuplicatesRepeat() && Spendable(s.Chain())
    ensures s'.MainChainHeight() == s.MainChainHeight()
    ensures c <= |s.Chain()| && Query(s, a, c).Some? ==>
              Query(s', a, c) == Some(LoweredAnswer(s.height, Query(s, a, c).value))
  {
    hide Query, Replay, ApplyAll, CurrentChain, Sound;
    FinalisationMovesHead(s, s', b);
    QueryIsLedgerAnswer(s, a, c);
    if c <= |s.Chain()| && Query(s, a, c).Some? {
      AppliedAfterFinal(s, s', b, c);
      FinalisationOnLedger(s.utxos.entries, s'.utxos.entries, b, Applied(s', c), s.height, s.MainChainHeight(), a, s.network, c);
      FinalisationKeepsSound(s, s', b);
      QueryIsLedgerAnswer(s', a, c);
    }
  }

  lemma FinalisationKeepsSound(s: Snapshot, s': Snapshot, b: Block)
    requires IsFinalisation(s, s', b) && s.Chain() == [b] + s'.Chain()
    requires Sound(s.utxos, s.network) && DuplicatesRepeat() && Spendable(s.Chain())
    ensures Sound(s'.utxos, s'.network) && Spendable(s'.Chain())
  {
    assert b in s.Chain();
    InsertAllRefines(s.utxos, b.txdata, s.height, true, s.network);
    forall x | x in s'.Chain()
      ensures x in s.Chain()
    {
    }
  }

  // ---------- Beyond the current chain ----------

  /** With more confirmations than the current chain is long, a query sees the final blocks only. */
  lemma BeyondTheChain(s: Snapshot, a: Address, c: nat)
    requires Sound(s.utxos, s.network) && DuplicatesRepeat() && Spendable(s.Chain()) && c > |s.Chain()|
    ensures Query(s, a, c) == Some(Confirmed(IntoSet(OwnedBy(s.utxos.entries, a, s.network)), s.MainChainHeight(), c))
  {
    hide Query;
    QueryIsLedgerAnswer(s, a, c);
    CutOffIsExact(s.height, |s.Chain()|, 0, c);
    assert Applied(s, c) == [];
    var mine := OwnedBy(s.utxos.entries, a, s.network);
    assert OwnedBy(mine, a, s.network) == mine;
  }

  /**
   The bound on the confirmations is needed. For instance, at one confirmation more than the length
   of the current chain, an output that the block creates is missing before the block is made final
   and present after, because its recorded height falls.
   */
  lemma FinalisationShowsBeyondTheChain(s: Snapshot, s': Snapshot, b: Block, a: Address, op: OutPoint)
    requires s.delta >= 1 && WellAnchored(s.trees, s.anchor) && IsFinalisation(s, s', b)
    requires Sound(s.utxos, s.network) && DuplicatesRepeat() && Spendable(s.Chain())
    requires op !in s.utxos.entries && op in s'.utxos.entries
    requires Owner(s'.utxos.entries[op].output, s.network) == Some(a)
    ensures var c := |s.Chain()| + 1;
      && Query(s, a, c).Some? && Query(s', a, c).Some?
      && (op, s'.utxos.entries[op].output, s.height) in Query(s', a, c).value
      && forall t | t in Query(s, a, c).value :: t.0 != op
  {
    hide Query, WellAnchored, Sound, Replay, ApplyAll, CurrentChain;
    FinalisationMovesHead(s, s', b);
    FinalisationKeepsSound(s, s', b);
    ApplyAllAddsAt(s.utxos.entries, b.txdata, s.height, true);
    BeyondTheChain(s, a, |s.Chain()| + 1);
    BeyondTheChain(s', a, |s.Chain()| + 1);
    assert op in OwnedBy(s'.utxos.entries, a, s.network);
  }

  // ---------- Balances ----------

  lemma IntoSetSplits(m: Entries, op: OutPoint)
    requires op in m
    ensures IntoSet(m) == IntoSet(m - {op}) + {(op, m[op].output, m[op].height)}
  {
    forall t | t in IntoSet(m)
      ensures t in IntoSet(m - {op}) + {(op, m[op].output, m[op].height)}
    {
      var o :| o in m && t == (o, m[o].output, m[o].height);
      assert o != op ==> o in m - {op};
    }
    forall t | t in IntoSet(m - {op})
      ensures t in IntoSet(m)
    {
      var o :| o in m - {op} && t == (o, m[o].output, m[o].height);
      assert o in m;
    }
  }

  lemma {:induction false} SumOfEntries(m: Entries)
    ensures Sum(IntoSet(m)) == Total(m)
    decreases |m|
  {
    if m == map[] {
      assert IntoSet(m) == {};
    } else {
      var op :| op in m;
      var t := (op, m[op].output, m[op].height);
      TotalWithout(m, op);
      SumOfEntries(m - {op});
      IntoSetSplits(m, op);
      SumWithout(IntoSet(m), t);
      assert IntoSet(m) - {t} == IntoSet(m - {op});
    }
  }

  lemma {:induction false} SumOfPart(part: Answer, all: Answer)
    requires part <= all
    ensures Sum(part) <= Sum(all)
    decreases |part|
  {
    if part != {} {
      var t :| t in part;
      SumWithout(part, t);
      SumWithout(all, t);
      SumOfPart(part - {t}, all - {t});
    }
  }

  lemma BalanceIsPartOfTotal(m: Entries, a: Address, network: Network, mainHeight: nat, c: nat)
    ensures Sum(Confirmed(IntoSet(OwnedBy(m, a, network)), mainHeight, c)) <= Total(m)
  {
    var mine := OwnedBy(m, a, network);
    SumOfPart(Confirmed(IntoSet(mine), mainHeight, c), IntoSet(mine));
    SumOfEntries(mine);
    PartIsAtMostTotal(m, mine);
  }

  const MAX_SATOSHIS: nat := 2_100_000_000_000_000

  lemma NoWrap(x: nat)
    requires x <= MAX_SATOSHIS
    ensures x % U64 == x
  {
  }

  /**
   For every state: `get_balance` panics when `get_utxos` does, answers less than 2^64, differs from
   the sum of the answer by a multiple of that, and is the sum if and only if the sum is less.
   */
  lemma BalanceIsSumIff(s: Snapshot, a: Address, c: nat)
    ensures Balance(s, a, c).Some? <==> Query(s, a, c).Some?
    ensures Query(s, a, c).Some? ==>
      var sum, balance := Sum(Query(s, a, c).value), Balance(s, a, c).value;
      && balance < 18446744073709551616 && (exists k: nat :: sum == balance + k * 18446744073709551616)
      && (balance == sum <==> sum < 18446744073709551616)
  {
    hide Query, Sum;
    if Query(s, a, c).Some? {
      var sum := Sum(Query(s, a, c).value);
      assert sum == sum % U64 + (sum / U64) * U64;
    }
  }

  /** If the applied blocks leave at most all the bitcoins there are, the sum of a balance does not wrap around. */
  lemma BalanceIsExact(s: Snapshot, a: Address, c: nat)
    requires Sound(s.utxos, s.network) && DuplicatesRepeat() && Spendable(s.Chain())
    requires FullReplay(s, c).Some? && Total(FullReplay(s, c).value) <= MAX_SATOSHIS
    ensures Query(s, a, c).Some? && Sum(Query(s, a, c).value) <= Total(FullReplay(s, c).value)
    ensures Balance(s, a, c) == Some(Sum(Query(s, a, c).value))
  {
    hide Query, FullReplay;
    QueryAgreesWithFullReplay(s, a, c);
    var full := FullReplay(s, c).value;
    BalanceIsPartOfTotal(full, a, s.network, s.MainChainHeight(), c);
    NoWrap(Sum(Query(s, a, c).value));
  }

  /** The outputs with enough confirmations. */
  ghost function Counted(m: Entries, mainHeight: nat, c: nat): Entries
  {
    map op | op in m && mainHeight - m[op].height + 1 >= c :: m[op]
  }

  lemma ConfirmedIsCounted(m: Entries, a: Address, network: Network, mainHeight: nat, c: nat)
    ensures Confirmed(IntoSet(OwnedBy(m, a, network)), mainHeight, c)
         == IntoSet(OwnedBy(Counted(m, mainHeight, c), a, network))
  {
    var mine, counted := OwnedBy(m, a, network), OwnedBy(Counted(m, mainHeight, c), a, network);
    forall t | t in Confirmed(IntoSet(mine), mainHeight, c)
      ensures t in IntoSet(counted)
    {
      assert t.0 in counted;
    }
    forall t | t in IntoSet(counted)
      ensures t in Confirmed(IntoSet(mine), mainHeight, c)
    {
      assert t.0 in mine;
    }
  }

  /** What `get_balance` answers for an address is what the address owns in the fully replayed ledger. */
  lemma BalanceIsOwned(s: Snapshot, a: Address, c: nat)
    requires Sound(s.utxos, s.network) && DuplicatesRepeat() && Spendable(s.Chain())
    requires FullReplay(s, c).Some? && Total(FullReplay(s, c).value) <= MAX_SATOSHIS
    ensures var counted := Counted(FullReplay(s, c).value, s.MainChainHeight(), c);
      Balance(s, a, c) == Some(Total(OwnedBy(counted, a, s.network)))
  {
    hide Query, FullReplay, Balance, Counted, Confirmed;
    var full := FullReplay(s, c).value;
    BalanceIsExact(s, a, c);
    QueryAgreesWithFullReplay(s, a, c);
    ConfirmedIsCounted(full, a, s.network, s.MainChainHeight(), c);
    SumOfEntries(OwnedBy(Counted(full, s.MainChainHeight(), c), a, s.network));
  }

  /** The `get_balance` answers of a state. */
  ghost function Balances(s: Snapshot, c: nat): Address -> nat
    requires forall a :: Balance(s, a, c).Some?
  {
    (a: Address) => Balance(s, a, c).value
  }

  lemma FullReplayBounded(s: Snapshot, log: seq<Block>, c: nat)
    requires RefinesLog(s, log) && FullReplay(s, c).Some?
    ensures Bounded(FullReplay(s, c).value, s.MainChainHeight())
  {
    assert |Applied(s, c)| <= |s.Chain()|;
    assert Bounded(s.utxos.entries, s.MainChainHeight());
    hide RefinesLog, Replay, CurrentChain, Applied, Bounded;
    ReplayBounded(s.utxos.entries, Applied(s, c), s.height + 1, true, s.MainChainHeight());
  }

  /**
   Nothing is counted twice or lost: the `get_balance` answers of all addresses and the outputs
   without an address make up the outputs with enough confirmations, and for up to one confirmation
   these are the whole ledger.
   */
  lemma GetBalancesSumToTotal(s: Snapshot, log: seq<Block>, addresses: set<Address>, c: nat)
    requires RefinesLog(s, log) && Sound(s.utxos, s.network) && DuplicatesRepeat() && Spendable(s.Chain())
    requires FullReplay(s, c).Some? && Total(FullReplay(s, c).value) <= MAX_SATOSHIS
    requires forall op | op in FullReplay(s, c).value && Owner(FullReplay(s, c).value[op].output, s.network).Some? ::
               Owner(FullReplay(s, c).value[op].output, s.network).value in addresses
    ensures forall a :: Balance(s, a, c).Some?
    ensures var full := FullReplay(s, c).value;
      var counted := Counted(full, s.MainChainHeight(), c);
      && SumOver(addresses, Balances(s, c)) + Total(Unaddressed(counted, s.network)) == Total(counted)
      && (c <= 1 ==> counted == full)
  {
    var full := FullReplay(s, c).value;
    var counted := Counted(full, s.MainChainHeight(), c);
    FullReplayBounded(s, log, c);
    hide FullReplay, Balance, RefinesLog, Sound, Query, Total;
    forall a
      ensures Balance(s, a, c) == Some(Total(OwnedBy(counted, a, s.network)))
    {
      BalanceIsOwned(s, a, c);
    }
    BalancesSumToTotal(counted, addresses, Balances(s, c), s.network);
  }
}
