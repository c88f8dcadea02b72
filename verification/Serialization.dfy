/**
 The conversions of the whole state to and from protobuf message records. A record may lack a
 part or hold bytes of the wrong length; converting it then panics, which is `None` here.
 */
module Serialization {
  import opened Wrappers
  import opened Bitcoin
  import opened Sequences
  import opened BlockTrees
  import opened BlockForests
  import opened Ledger
  import opened UtxoIndex
  import opened UtxoSets
  import opened ChainState
  import Store

  // ---------- The message records ----------

  /** The bytes of a block hash, or bytes that are not 32 in number. */
  datatype HashBytes = HashBytes(hash: BlockHash) | WrongLength(bytes: seq<Byte>)

  datatype OutPointMessage = OutPointMessage(txid: seq<Byte>, vout: nat)

  datatype TxOutMessage = TxOutMessage(value: nat, scriptPubkey: seq<Byte>)

  datatype TxInMessage = TxInMessage(
    previousOutput: Option<OutPointMessage>, scriptSig: seq<Byte>, sequence: nat, witnesses: seq<seq<Byte>>)

  datatype TransactionMessage = TransactionMessage(
    version: int, lockTime: nat, input: seq<TxInMessage>, output: seq<TxOutMessage>)

  datatype HeaderMessage = HeaderMessage(
    version: int, prevBlockhash: HashBytes, merkleRoot: seq<Byte>, time: nat, bits: nat, nonce: nat)

  datatype BlockMessage = BlockMessage(header: Option<HeaderMessage>, txdata: seq<TransactionMessage>)

  datatype TreeMessage = TreeMessage(root: Option<BlockMessage>, children: seq<TreeMessage>)

  datatype ForestMessage = ForestMessage(delta: nat, trees: seq<TreeMessage>)

  datatype UtxoMessage = UtxoMessage(outpoint: Option<OutPointMessage>, txout: Option<TxOutMessage>, height: nat)

  datatype UtxoSetMessage = UtxoSetMessage(utxos: seq<UtxoMessage>, strict: bool, network: int)

  datatype StateMessage = StateMessage(
    height: nat, latestStableBlockHash: HashBytes, utxos: Option<UtxoSetMessage>, unstableBlocks: Option<ForestMessage>)

  // ---------- Lists ----------

  function MapTo<T, U>(s: seq<T>, f: T -> U): (r: seq<U>)
    ensures |r| == |s| && forall i | 0 <= i < |s| :: r[i] == f(s[i])
  {
    if s == [] then [] else [f(s[0])] + MapTo(s[1..], f)
  }

  /** Converts each element, or nothing if one fails. */
  function TryMap<T, U>(s: seq<T>, f: T -> Option<U>): Option<seq<U>>
  {
    if s == [] then
      Some([])
    else
      var first :- f(s[0]);
      var rest :- TryMap(s[1..], f);
      Some([first] + rest)
  }

  lemma {:induction false} TryMapInverts<T, U>(s: seq<T>, f: T -> U, g: U -> Option<T>)
    requires forall i | 0 <= i < |s| :: g(f(s[i])) == Some(s[i])
    ensures TryMap(MapTo(s, f), g) == Some(s)
  {
    if s != [] {
      var rest := s[1..];
      FirstAndTail(s);
      assert g(f(s[0])) == Some(s[0]);
      assert forall i | 0 <= i < |rest| :: rest[i] == s[i + 1];
      TryMapInverts(rest, f, g);
      TailOfConcat([f(s[0])], MapTo(rest, f));
      assert [f(s[0])][1..] + MapTo(rest, f) == MapTo(rest, f);
    }
  }

  /** If `g` accepts exactly what `f` yields, converting lists accepts exactly what converting lists yields. */
  lemma {:induction false} TryMapExact<T(!new), U>(ms: seq<U>, f: T -> U, g: U -> Option<T>, s: seq<T>)
    requires forall m, t | m in ms :: g(m) == Some(t) <==> m == f(t)
    ensures TryMap(ms, g) == Some(s) <==> ms == MapTo(s, f)
  {
    if ms != [] && s != [] {
      var rest := ms[1..];
      assert ms == [ms[0]] + rest && ms[0] in ms;
      TryMapExact(rest, f, g, s[1..]);
      FirstAndTail(s);
      TailOfConcat([f(s[0])], MapTo(s[1..], f));
      assert [f(s[0])][1..] + MapTo(s[1..], f) == MapTo(s[1..], f);
      if TryMap(ms, g) == Some(s) {
        var first, others := g(ms[0]).value, TryMap(rest, g).value;
        assert ([first] + others)[0] == first && ([first] + others)[1..] == others;
      }
    } else if ms != [] && TryMap(ms, g).Some? {
      assert TryMap(ms, g).value != [];
    }
  }

  // ---------- Blocks ----------

  function DigestFromSlice(bytes: seq<Byte>): Option<Digest>
  {
    if |bytes| == 32 then Some(bytes) else None
  }

  function HashFromSlice(bytes: HashBytes): Option<BlockHash>
  {
    match bytes
    case HashBytes(h) => Some(h)
    case WrongLength(_) => None
  }

  function OutPointToProto(op: OutPoint): OutPointMessage
  {
    OutPointMessage(op.txid, op.vout)
  }

  function OutPointFromProto(m: OutPointMessage): Option<OutPoint>
  {
    var txid :- DigestFromSlice(m.txid);
    Some(OutPoint(txid, m.vout))
  }

  function TxOutToProto(o: TxOut): TxOutMessage
  {
    TxOutMessage(o.value, o.scriptPubkey)
  }

  function TxOutFromProto(m: TxOutMessage): Option<TxOut>
  {
    Some(TxOut(m.value, m.scriptPubkey))
  }

  function TxInToProto(i: TxIn): TxInMessage
  {
    TxInMessage(Some(OutPointToProto(i.previousOutput)), i.scriptSig, i.sequence, i.witnesses)
  }

  function TxInFromProto(m: TxInMessage): Option<TxIn>
  {
    var previous :- m.previousOutput;
    var op :- OutPointFromProto(previous);
    Some(TxIn(op, m.scriptSig, m.sequence, m.witnesses))
  }

  function TransactionToProto(t: Transaction): TransactionMessage
  {
    TransactionMessage(t.version, t.lockTime, MapTo(t.input, TxInToProto), MapTo(t.output, TxOutToProto))
  }

  function TransactionFromProto(m: TransactionMessage): Option<Transaction>
  {
    var input :- TryMap(m.input, TxInFromProto);
    var output :- TryMap(m.output, TxOutFromProto);
    Some(Transaction(m.version, m.lockTime, input, output))
  }

  function HeaderToProto(h: BlockHeader): HeaderMessage
  {
    HeaderMessage(h.version, HashBytes(h.prevBlockhash), h.merkleRoot, h.time, h.bits, h.nonce)
  }

  function HeaderFromProto(m: HeaderMessage): Option<BlockHeader>
  {
    var prev :- HashFromSlice(m.prevBlockhash);
    var merkleRoot :- DigestFromSlice(m.merkleRoot);
    Some(BlockHeader(m.version, prev, merkleRoot, m.time, m.bits, m.nonce))
  }

  function BlockToProto(b: Block): BlockMessage
  {
    BlockMessage(Some(HeaderToProto(b.header)), MapTo(b.txdata, TransactionToProto))
  }

  function BlockFromProto(m: BlockMessage): Option<Block>
  {
    var h :- m.header;
    var header :- HeaderFromProto(h);
    var txdata :- TryMap(m.txdata, TransactionFromProto);
    Some(Block(header, txdata))
  }

  lemma TransactionRoundTrip(t: Transaction)
    ensures TransactionFromProto(TransactionToProto(t)) == Some(t)
  {
    TryMapInverts(t.input, TxInToProto, TxInFromProto);
    TryMapInverts(t.output, TxOutToProto, TxOutFromProto);
  }

  /** Converting a block to a record and back yields the block. */
  lemma BlockRoundTrip(b: Block)
    ensures BlockFromProto(BlockToProto(b)) == Some(b)
  {
    forall t {
      TransactionRoundTrip(t);
    }
    TryMapInverts(b.txdata, TransactionToProto, TransactionFromProto);
  }

  lemma TxInExact(m: TxInMessage, i: TxIn)
    ensures TxInFromProto(m) == Some(i) <==> m == TxInToProto(i)
  {
  }

  lemma TransactionExact(m: TransactionMessage, t: Transaction)
    ensures TransactionFromProto(m) == Some(t) <==> m == TransactionToProto(t)
  {
    forall n, i {
      TxInExact(n, i);
    }
    TryMapExact(m.input, TxInToProto, TxInFromProto, t.input);
    TryMapExact(m.output, TxOutToProto, TxOutFromProto, t.output);
  }

  /** Reading a record back yields a block if and only if it is the record of that block. */
  lemma BlockExact(m: BlockMessage, b: Block)
    ensures BlockFromProto(m) == Some(b) <==> m == BlockToProto(b)
  {
    forall n, t {
      TransactionExact(n, t);
    }
    hide TransactionToProto, TransactionFromProto, TryMap;
    TryMapExact(m.txdata, TransactionToProto, TransactionFromProto, b.txdata);
  }

  /** Each field of a record holds the field of the block that has its name. */
  lemma BlockFields(b: Block, i: nat, j: nat, k: nat)
    requires i < |b.txdata| && j < |b.txdata[i].input| && k < |b.txdata[i].output|
    ensures var m := BlockToProto(b);
      && m.header.Some? && |m.txdata| == |b.txdata|
      && m.header.value.version == b.header.version && m.header.value.prevBlockhash == HashBytes(b.header.prevBlockhash)
      && m.header.value.merkleRoot == b.header.merkleRoot && m.header.value.time == b.header.time
      && m.header.value.bits == b.header.bits && m.header.value.nonce == b.header.nonce
      && var tx, t := m.txdata[i], b.txdata[i];
      && tx.version == t.version && tx.lockTime == t.lockTime
      && |tx.input| == |t.input| && |tx.output| == |t.output|
      && var previous := t.input[j].previousOutput;
      && tx.input[j].previousOutput == Some(OutPointMessage(previous.txid, previous.vout))
      && tx.input[j].scriptSig == t.input[j].scriptSig && tx.input[j].sequence == t.input[j].sequence
      && tx.input[j].witnesses == t.input[j].witnesses
      && tx.output[k] == TxOutMessage(t.output[k].value, t.output[k].scriptPubkey)
  {
  }

  // ---------- Trees ----------

  function TreeToProto(t: BlockTree): TreeMessage
  {
    TreeMessage(Some(BlockToProto(t.root)), TreesToProto(t.children))
  }

  function TreesToProto(ts: seq<BlockTree>): seq<TreeMessage>
  {
    if ts == [] then [] else [TreeToProto(ts[0])] + TreesToProto(ts[1..])
  }

  function TreeFromProto(m: TreeMessage): Option<BlockTree>
  {
    var r :- m.root;
    var root :- BlockFromProto(r);
    var children :- TreesFromProto(m.children);
    Some(BlockTree(root, children))
  }

  function TreesFromProto(ms: seq<TreeMessage>): Option<seq<BlockTree>>
  {
    if ms == [] then
      Some([])
    else
      var first :- TreeFromProto(ms[0]);
      var rest :- TreesFromProto(ms[1..]);
      Some([first] + rest)
  }

  lemma {:induction false} TreeRoundTrip(t: BlockTree)
    ensures TreeFromProto(TreeToProto(t)) == Some(t)
  {
    BlockRoundTrip(t.root);
    TreesRoundTrip(t.children);
  }

  lemma {:induction false} TreesRoundTrip(ts: seq<BlockTree>)
    ensures TreesFromProto(TreesToProto(ts)) == Some(ts)
  {
    if ts != [] {
      TreeRoundTrip(ts[0]);
      TreesRoundTrip(ts[1..]);
      TailOfConcat([TreeToProto(ts[0])], TreesToProto(ts[1..]));
      assert [TreeToProto(ts[0])][1..] + TreesToProto(ts[1..]) == TreesToProto(ts[1..]);
      FirstAndTail(ts);
    }
  }

  lemma {:induction false} TreeExact(m: TreeMessage, t: BlockTree)
    ensures TreeFromProto(m) == Some(t) <==> m == TreeToProto(t)
  {
    if m.root.Some? {
      BlockExact(m.root.value, t.root);
      TreesExact(m.children, t.children);
    }
  }

  /** Reading records back yields trees if and only if they are the records of those trees. */
  lemma {:induction false} TreesExact(ms: seq<TreeMessage>, ts: seq<BlockTree>)
    ensures TreesFromProto(ms) == Some(ts) <==> ms == TreesToProto(ts)
  {
    if ms != [] && ts != [] {
      TreeExact(ms[0], ts[0]);
      TreesExact(ms[1..], ts[1..]);
      FirstAndTail(ms);
      FirstAndTail(ts);
      TailOfConcat([TreeToProto(ts[0])], TreesToProto(ts[1..]));
      assert [TreeToProto(ts[0])][1..] + TreesToProto(ts[1..]) == TreesToProto(ts[1..]);
      if TreesFromProto(ms) == Some(ts) {
        var first, rest := TreeFromProto(ms[0]).value, TreesFromProto(ms[1..]).value;
        assert ([first] + rest)[0] == first && ([first] + rest)[1..] == rest;
      }
    } else if ms != [] && TreesFromProto(ms).Some? {
      assert TreesFromProto(ms).value != [];
    }
  }

  // ---------- Unspent outputs ----------

  function NetworkToProto(n: Network): int
  {
    match n
    case Mainnet => 0
    case Testnet => 1
    case Signet => 2
    case Regtest => 3
  }

  function NetworkFromProto(n: int): Option<Network>
  {
    match n
    case 0 => Some(Mainnet)
    case 1 => Some(Testnet)
    case 2 => Some(Signet)
    case 3 => Some(Regtest)
    case _ => None
  }

  /** The codes of the networks; no other code is accepted. */
  lemma NetworkCodes(code: int, network: Network)
    ensures NetworkFromProto(code) == Some(network) <==> NetworkToProto(network) == code
    ensures NetworkToProto(network) ==
      if network == Mainnet then 0 else if network == Testnet then 1 else if network == Signet then 2 else 3
  {
  }

  /** `order` lists each key of the map once: an order in which the source may iterate over it. */
  ghost predicate IsOrderOf(order: seq<OutPoint>, m: Entries)
  {
    (forall op :: op in order <==> op in m) && forall i, j | 0 <= i < j < |order| :: order[i] != order[j]
  }

  function UtxoToProto(op: OutPoint, utxo: Utxo): UtxoMessage
  {
    UtxoMessage(Some(OutPointToProto(op)), Some(TxOutToProto(utxo.output)), utxo.height)
  }

  function EntriesToProto(m: Entries, order: seq<OutPoint>): seq<UtxoMessage>
    requires forall op | op in order :: op in m
  {
    seq(|order|, i requires 0 <= i < |order| => UtxoToProto(order[i], m[order[i]]))
  }

  /** Inserting the listed outputs one after the other, which rebuilds the index. */
  function InsertListed(u: Indexed, utxos: seq<UtxoMessage>, network: Network): Option<Indexed>
    decreases |utxos|
  {
    if utxos == [] then
      Some(u)
    else
      var o :- utxos[0].outpoint;
      var op :- OutPointFromProto(o);
      var t :- utxos[0].txout;
      var output :- TxOutFromProto(t);
      var u' :- InsertOutpoint(u, op, output, utxos[0].height, network);
      InsertListed(u', utxos[1..], network)
  }

  /** Does the record have all its parts, and an id of 32 bytes? */
  predicate IsUtxoRecord(m: UtxoMessage)
  {
    m.outpoint.Some? && |m.outpoint.value.txid| == 32 && m.txout.Some?
  }

  ghost function OutPointOf(m: UtxoMessage): OutPoint
    requires IsUtxoRecord(m)
  {
    OutPoint(m.outpoint.value.txid, m.outpoint.value.vout)
  }

  /** The outpoint of record `i` is neither in the map nor in a record before, but for the two duplicate ids. */
  ghost predicate IsNewRecord(m: Entries, utxos: seq<UtxoMessage>, i: nat)
    requires i < |utxos| && forall j | 0 <= j <= i :: IsUtxoRecord(utxos[j])
  {
    || OutPointOf(utxos[i]).txid in DUPLICATE_TX_IDS
    || (OutPointOf(utxos[i]) !in m && forall j | 0 <= j < i :: OutPointOf(utxos[j]) != OutPointOf(utxos[i]))
  }

  ghost predicate AllNewRecords(m: Entries, utxos: seq<UtxoMessage>)
  {
    && (forall i | 0 <= i < |utxos| :: IsUtxoRecord(utxos[i]))
    && (forall i | 0 <= i < |utxos| :: IsNewRecord(m, utxos, i))
  }

  lemma FirstRecord(m: Entries, utxos: seq<UtxoMessage>, utxo: Utxo)
    requires utxos != [] && IsUtxoRecord(utxos[0])
    requires OutPointOf(utxos[0]) in m ==> OutPointOf(utxos[0]).txid in DUPLICATE_TX_IDS
    ensures AllNewRecords(m, utxos) <==> AllNewRecords(m[OutPointOf(utxos[0]) := utxo], utxos[1..])
  {
    var m', rest := m[OutPointOf(utxos[0]) := utxo], utxos[1..];
    if forall i | 0 <= i < |utxos| :: IsUtxoRecord(utxos[i]) {
      forall i | 0 <= i < |rest|
        ensures IsNewRecord(m', rest, i) <==> IsNewRecord(m, utxos, i + 1)
      {
        assert rest[i] == utxos[i + 1];
        assert forall j | 0 <= j < i :: rest[j] == utxos[j + 1];
        assert forall j | 0 <= j <= i && j > 0 :: utxos[j] == rest[j - 1];
      }
      assert IsNewRecord(m, utxos, 0);
      if AllNewRecords(m', rest) {
        forall i | 0 <= i < |utxos|
          ensures IsNewRecord(m, utxos, i)
        {
          assert i > 0 ==> IsNewRecord(m', rest, i - 1);
        }
      }
    } else {
      var i :| 0 <= i < |utxos| && !IsUtxoRecord(utxos[i]);
      assert rest[i - 1] == utxos[i];
    }
  }

  /**
   Exactly when reading back the listed outputs panics: a part is missing or of the wrong length, or
   an outpoint comes twice.
   */
  lemma {:induction false} InsertListedIff(u: Indexed, utxos: seq<UtxoMessage>, network: Network)
    ensures InsertListed(u, utxos, network).Some? <==> AllNewRecords(u.entries, utxos)
    decreases |utxos|
  {
    if utxos != [] && IsUtxoRecord(utxos[0]) {
      hide AllNewRecords, Owner;
      var op, output := OutPointOf(utxos[0]), TxOut(utxos[0].txout.value.value, utxos[0].txout.value.scriptPubkey);
      var r := InsertOutpoint(u, op, output, utxos[0].height, network);
      if r.Some? {
        FirstRecord(u.entries, utxos, Utxo(output, utxos[0].height));
        InsertListedIff(r.value, utxos[1..], network);
      } else {
        PresentIsNotNew(u.entries, utxos);
      }
    }
  }

  lemma PresentIsNotNew(m: Entries, utxos: seq<UtxoMessage>)
    requires utxos != [] && IsUtxoRecord(utxos[0])
    requires OutPointOf(utxos[0]) in m && OutPointOf(utxos[0]).txid !in DUPLICATE_TX_IDS
    ensures !AllNewRecords(m, utxos)
  {
    if forall i | 0 <= i < |utxos| :: IsUtxoRecord(utxos[i]) {
      assert !IsNewRecord(m, utxos, 0);
    }
  }

  /** The source's loop over the listed outputs. */
  method InsertAllListed(utxoSet: UtxoSet, utxos: seq<UtxoMessage>) returns (ok: bool)
    modifies utxoSet
    ensures match InsertListed(old(utxoSet.View()), utxos, utxoSet.network)
      case None => !ok
      case Some(u) => ok && utxoSet.View() == u
  {
    for i := 0 to |utxos|
      invariant InsertListed(utxoSet.View(), utxos[i..], utxoSet.network)
             == InsertListed(old(utxoSet.View()), utxos, utxoSet.network)
    {
      assert utxos[i..][0] == utxos[i] && utxos[i..][1..] == utxos[i + 1..];
      var utxo := utxos[i];
      if utxo.outpoint.None? || utxo.txout.None? {
        return false;
      }
      var outpoint := OutPointFromProto(utxo.outpoint.value);
      var output := TxOutFromProto(utxo.txout.value);
      if outpoint.None? || output.None? {
        return false;
      }
      ok := utxoSet.InsertOutpoint(outpoint.value, output.value, utxo.height);
      if !ok {
        return;
      }
    }
    return true;
  }

  // ---------- The state ----------

  function UtxosToProto(u: Indexed, strict: bool, network: Network, order: seq<OutPoint>): UtxoSetMessage
    requires forall op | op in order :: op in u.entries
  {
    UtxoSetMessage(EntriesToProto(u.entries, order), strict, NetworkToProto(network))
  }

  function StateToProto(s: Snapshot, strict: bool, order: seq<OutPoint>): StateMessage
    requires forall op | op in order :: op in s.utxos.entries
  {
    StateMessage(
      s.height,
      HashBytes(s.anchor),
      Some(UtxosToProto(s.utxos, strict, s.network, order)),
      Some(ForestMessage(s.delta, TreesToProto(s.trees))))
  }

  /** Each field of a record holds the part of the state that has its name. */
  lemma StateFields(s: Snapshot, strict: bool, order: seq<OutPoint>, i: nat)
    requires (forall op | op in order :: op in s.utxos.entries) && i < |order|
    ensures var m := StateToProto(s, strict, order);
      && m.height == s.height && m.latestStableBlockHash == HashBytes(s.anchor)
      && m.utxos.Some? && m.utxos.value.strict == strict && NetworkFromProto(m.utxos.value.network) == Some(s.network)
      && m.unstableBlocks.Some? && m.unstableBlocks.value.delta == s.delta && |m.utxos.value.utxos| == |order|
      && var utxo, stored := m.utxos.value.utxos[i], s.utxos.entries[order[i]];
      && utxo.outpoint == Some(OutPointMessage(order[i].txid, order[i].vout))
      && utxo.txout == Some(TxOutMessage(stored.output.value, stored.output.scriptPubkey))
      && utxo.height == stored.height
  {
  }

  /** `to_proto` of a state object, for an order in which the map is iterated over. */
  method ToProto(state: Store.State, order: seq<OutPoint>) returns (m: StateMessage)
    requires forall op | op in order :: op in state.utxos.utxos
    ensures m == StateToProto(state.View(), state.utxos.strict, order)
  {
    var utxos := UtxosToProto(state.utxos.View(), state.utxos.strict, state.utxos.network, order);
    var forest := ForestMessage(state.unstableBlocks.delta, TreesToProto(state.unstableBlocks.trees));
    return StateMessage(state.height, HashBytes(state.latestStableBlockHash), Some(utxos), Some(forest));
  }

  function UtxosFromProto(m: UtxoSetMessage): Option<(Network, Indexed)>
  {
    var network :- NetworkFromProto(m.network);
    var u :- InsertListed(EMPTY, m.utxos, network);
    Some((network, u))
  }

  function StateFromProto(m: StateMessage): Option<Snapshot>
  {
    var anchor :- HashFromSlice(m.latestStableBlockHash);
    var utxos :- m.utxos;
    var u :- UtxosFromProto(utxos);
    var forest :- m.unstableBlocks;
    var trees :- TreesFromProto(forest.trees);
    Some(Snapshot(forest.delta, u.0, m.height, anchor, u.1, trees))
  }

  method UtxoSetFromProto(m: UtxoSetMessage) returns (r: Option<UtxoSet>)
    ensures match UtxosFromProto(m)
      case None => r.None?
      case Some(u) => r.Some? && fresh(r.value) && r.value.strict == m.strict
                      && r.value.network == u.0 && r.value.View() == u.1
  {
    var network := NetworkFromProto(m.network);
    if network.None? {
      return None;
    }
    var utxoSet := new UtxoSet(m.strict, network.value);
    var ok := InsertAllListed(utxoSet, m.utxos);
    return if ok then Some(utxoSet) else None;
  }

  method NewStateFromProto(m: StateMessage) returns (r: Option<Store.State>)
    ensures match StateFromProto(m)
      case None => r.None?
      case Some(s) => r.Some? && fresh(r.value) && r.value.View() == s
                      && m.utxos.Some? && r.value.utxos.strict == m.utxos.value.strict
  {
    var anchor := HashFromSlice(m.latestStableBlockHash);
    if anchor.None? || m.utxos.None? || m.unstableBlocks.None? {
      return None;
    }
    var utxos := UtxoSetFromProto(m.utxos.value);
    var trees := TreesFromProto(m.unstableBlocks.value.trees);
    if utxos.None? || trees.None? {
      return None;
    }
    var forest := new BlockForest(m.unstableBlocks.value.delta);
    forest.trees := trees.value;
    var state := new Store.State(m.height, anchor.value, utxos.value, forest);
    return Some(state);
  }
}
