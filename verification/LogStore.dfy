/** The Raft log as `MemStore` keeps it, a map from index to entry, and the plain sequence with a base
    that the storage contract promises it to be. */
module LogStore {
  import opened Text
  import opened Machine
  import opened Ordering

  // ----- The map log -----

  datatype MapLog = MapLog(log: map<nat, Entry>, purged: Option<LogId>)

  function InsertAll(m: map<nat, Entry>, es: seq<Entry>): map<nat, Entry> {
    if es == [] then m
    else InsertAll(m, es[..|es| - 1])[es[|es| - 1].logId.index := es[|es| - 1]]
  }

  function Append(l: MapLog, es: seq<Entry>): MapLog { l.(log := InsertAll(l.log, es)) }

  function TruncateFrom(l: MapLog, id: LogId): MapLog {
    l.(log := map k | k in l.log && k < id.index :: l.log[k])
  }

  function PurgeUpTo(l: MapLog, id: LogId): MapLog {
    MapLog(map k | k in l.log && k > id.index :: l.log[k],
           if l.purged.None? || l.purged.value.index < id.index then Some(id) else l.purged)
  }

  /** Keys of a range with an optional upper end. */
  function KeysIn(m: map<nat, Entry>, lo: nat, hi: Option<nat>): set<nat> {
    set k | k in m && lo <= k && (hi.Some? ==> k < hi.value)
  }

  function ValuesAt(m: map<nat, Entry>, ks: seq<nat>): (es: seq<Entry>)
    requires forall k :: k in ks ==> k in m
    ensures |es| == |ks| && forall i :: 0 <= i < |es| ==> es[i] == m[ks[i]]
  {
    seq(|ks|, i requires 0 <= i < |ks| => m[ks[i]])
  }

  /** A set of indices in increasing order. */
  ghost function InOrder(keys: set<nat>): (ks: seq<nat>)
    ensures forall k :: k in ks <==> k in keys
  {
    NatOrder();
    Listing(NatLess, keys)
  }

  method IndicesInOrder(keys: set<nat>) returns (ks: seq<nat>)
    ensures ks == InOrder(keys)
    ensures forall i :: 0 <= i < |ks| ==> ks[i] in keys
  {
    NatOrder();
    ks := SortedKeys(NatLess, keys);
    ListingIs(NatLess, keys, ks);
  }

  /** A range whose ends are the wrong way round, on which `BTreeMap::range` panics. */
  predicate Inverted(lo: nat, hi: Option<nat>) { hi.Some? && hi.value < lo }

  /** The entries of a range in index order, or nothing when reading it panics. */
  ghost function ReadRange(l: MapLog, lo: nat, hi: Option<nat>): Option<seq<Entry>> {
    if Inverted(lo, hi) then None else Some(ValuesAt(l.log, InOrder(KeysIn(l.log, lo, hi))))
  }

  /** The last id that `get_log_state` reports: that of the greatest key, else the purged id. */
  ghost function LastLogId(l: MapLog): Option<LogId> {
    var ks := InOrder(l.log.Keys);
    if ks == [] then l.purged else Some(l.log[ks[|ks| - 1]].logId)
  }

  // ----- The sequence with a base -----

  datatype BlockLog = BlockLog(purged: Option<LogId>, entries: seq<Entry>) {
    /** Index of the first entry: right after the purged one. */
    function Base(): nat { if purged.Some? then purged.value.index + 1 else 0 }

    function End(): nat { Base() + |entries| }

    function Clamp(i: nat): (r: nat)
      ensures r <= |entries|
    {
      if i <= Base() then 0 else if i >= End() then |entries| else i - Base()
    }

    function Last(): Option<LogId> { if entries == [] then purged else Some(entries[|entries| - 1].logId) }

    function Upper(hi: Option<nat>): (r: nat)
      ensures r <= |entries|
    {
      if hi.Some? then Clamp(hi.value) else |entries|
    }

    function Range(lo: nat, hi: Option<nat>): Option<seq<Entry>> {
      if Inverted(lo, hi) then None else Some(entries[Clamp(lo)..Upper(hi)])
    }
  }

  datatype Op = AppendOp(entries: seq<Entry>) | TruncateOp(from: LogId) | PurgeOp(upTo: LogId)

  /** The storage contract: entries are appended without a hole. Truncation and purging take any id. */
  predicate Contract(b: BlockLog, op: Op) {
    op.AppendOp? ==> forall i :: 0 <= i < |op.entries| ==> op.entries[i].logId.index == b.End() + i
  }

  function StepMap(l: MapLog, op: Op): MapLog {
    match op
    case AppendOp(es) => Append(l, es)
    case TruncateOp(id) => TruncateFrom(l, id)
    case PurgeOp(id) => PurgeUpTo(l, id)
  }

  function StepBlock(b: BlockLog, op: Op): BlockLog {
    match op
    case AppendOp(es) => b.(entries := b.entries + es)
    case TruncateOp(id) => b.(entries := b.entries[..b.Clamp(id.index)])
    case PurgeOp(id) =>
      if id.index < b.Base() then b else BlockLog(Some(id), b.entries[b.Clamp(id.index + 1)..])
  }

  /** The keys are exactly the block's indices and every key holds the block's entry. */
  ghost predicate Refines(l: MapLog, b: BlockLog) {
    && l.purged == b.purged
    && (forall k :: k in l.log <==> b.Base() <= k < b.End())
    && (forall k :: k in l.log ==> l.log[k].logId.index == k)
    && (forall k :: k in l.log ==> l.log[k] == b.entries[k - b.Base()])
  }

  lemma {:induction false} InsertAllMeaning(m: map<nat, Entry>, es: seq<Entry>, start: nat)
    requires forall i :: 0 <= i < |es| ==> es[i].logId.index == start + i
    ensures forall k :: k in InsertAll(m, es) <==> k in m || start <= k < start + |es|
    ensures forall k :: start <= k < start + |es| ==> InsertAll(m, es)[k] == es[k - start]
    ensures forall k :: k in m && !(start <= k < start + |es|) ==> InsertAll(m, es)[k] == m[k]
  {
    if es != [] {
      InsertAllMeaning(m, es[..|es| - 1], start);
    }
  }

  lemma {:induction false} AppendKey(l: MapLog, b: BlockLog, es: seq<Entry>, k: nat)
    requires Refines(l, b) && Contract(b, AppendOp(es))
    ensures k in Append(l, es).log <==> b.Base() <= k < b.End() + |es|
    ensures k in Append(l, es).log ==>
              Append(l, es).log[k].logId.index == k && Append(l, es).log[k] == (b.entries + es)[k - b.Base()]
  {
    InsertAllMeaning(l.log, es, b.End());
    assert k in l.log <==> b.Base() <= k < b.End();
  }

  lemma {:induction false} AppendRefines(l: MapLog, b: BlockLog, es: seq<Entry>)
    requires Refines(l, b) && Contract(b, AppendOp(es))
    ensures Refines(Append(l, es), StepBlock(b, AppendOp(es)))
  {
    var m, c := Append(l, es), StepBlock(b, AppendOp(es));
    forall k: nat
      ensures k in m.log <==> c.Base() <= k < c.End()
      ensures k in m.log ==> m.log[k].logId.index == k && m.log[k] == c.entries[k - c.Base()]
    {
      AppendKey(l, b, es, k);
    }
  }

  lemma {:induction false} TruncateRefines(l: MapLog, b: BlockLog, id: LogId)
    requires Refines(l, b)
    ensures Refines(TruncateFrom(l, id), StepBlock(b, TruncateOp(id)))
  {
  }

  lemma {:induction false} PurgePart(l: MapLog, b: BlockLog, id: LogId)
    requires Refines(l, b) && b.Base() <= id.index && id.index + 1 < b.End()
    ensures Refines(PurgeUpTo(l, id), StepBlock(b, PurgeOp(id)))
  {
  }

  lemma {:induction false} PurgeWhole(l: MapLog, b: BlockLog, id: LogId)
    requires Refines(l, b) && b.Base() <= id.index && b.End() <= id.index + 1
    ensures Refines(PurgeUpTo(l, id), StepBlock(b, PurgeOp(id)))
  {
  }

  lemma {:induction false} PurgeRefines(l: MapLog, b: BlockLog, id: LogId)
    requires Refines(l, b)
    ensures Refines(PurgeUpTo(l, id), StepBlock(b, PurgeOp(id)))
  {
    if id.index >= b.Base() {
      if id.index + 1 < b.End() { PurgePart(l, b, id); } else { PurgeWhole(l, b, id); }
    }
  }

  lemma {:induction false} StepRefines(l: MapLog, b: BlockLog, op: Op)
    requires Refines(l, b) && Contract(b, op)
    ensures Refines(StepMap(l, op), StepBlock(b, op))
  {
    match op
    case AppendOp(es) => AppendRefines(l, b, es);
    case TruncateOp(id) => TruncateRefines(l, b, id);
    case PurgeOp(id) => PurgeRefines(l, b, id);
  }

  // ----- Observations -----

  /** The indices lo .. hi - 1 in order. */
  function Indices(lo: nat, hi: nat): (ks: seq<nat>)
    requires lo <= hi
    ensures |ks| == hi - lo && forall i :: 0 <= i < |ks| ==> ks[i] == lo + i
  {
    seq(hi - lo, i => lo + i)
  }

  lemma {:induction false} BlockListing(keys: set<nat>, lo: nat, hi: nat)
    requires lo <= hi && forall k :: k in keys <==> lo <= k < hi
    ensures InOrder(keys) == Indices(lo, hi)
  {
    NatOrder();
    var ks := Indices(lo, hi);
    forall k ensures k in ks <==> k in keys {
      if lo <= k < hi { assert ks[k - lo] == k; }
    }
    ListingIs(NatLess, keys, ks);
  }

  lemma {:induction false} RangeKeys(l: MapLog, b: BlockLog, lo: nat, hi: Option<nat>, k: nat)
    requires Refines(l, b)
    ensures k in KeysIn(l.log, lo, hi) <==> b.Base() + b.Clamp(lo) <= k < b.Base() + b.Upper(hi)
  {
  }

  lemma {:induction false} BlockValues(l: MapLog, b: BlockLog, ks: seq<nat>, i: nat, j: nat)
    requires Refines(l, b) && i <= j <= |b.entries|
    requires ks == Indices(b.Base() + i, b.Base() + j) && forall k :: k in ks ==> k in l.log
    ensures ValuesAt(l.log, ks) == b.entries[i..j]
  {
  }

  lemma {:induction false} RangeListing(l: MapLog, b: BlockLog, lo: nat, hi: Option<nat>)
    requires Refines(l, b) && !Inverted(lo, hi)
    ensures InOrder(KeysIn(l.log, lo, hi)) == Indices(b.Base() + b.Clamp(lo), b.Base() + b.Upper(hi))
  {
    var keys, i, j := KeysIn(l.log, lo, hi), b.Base() + b.Clamp(lo), b.Base() + b.Upper(hi);
    forall k: nat ensures k in keys <==> i <= k < j { RangeKeys(l, b, lo, hi, k); }
    BlockListing(keys, i, j);
  }

  /** Range reads return exactly the block's entries in the range, in index order, and panic on the same ranges. */
  lemma {:induction false} RangeRefines(l: MapLog, b: BlockLog, lo: nat, hi: Option<nat>)
    requires Refines(l, b)
    ensures ReadRange(l, lo, hi) == b.Range(lo, hi)
  {
    if !Inverted(lo, hi) {
      RangeListing(l, b, lo, hi);
      var ks := InOrder(KeysIn(l.log, lo, hi));
      assert forall k :: k in ks ==> k in l.log;
      BlockValues(l, b, ks, b.Clamp(lo), b.Upper(hi));
    }
  }

  /** The reported last id ends the block: the next append goes right after it. */
  lemma {:induction false} LastRefines(l: MapLog, b: BlockLog)
    requires Refines(l, b)
    ensures LastLogId(l) == b.Last()
    ensures b.End() == if LastLogId(l).Some? then LastLogId(l).value.index + 1 else 0
  {
    BlockListing(l.log.Keys, b.Base(), b.End());
  }

  // ----- Whole runs -----

  predicate Legal(b: BlockLog, ops: seq<Op>)
    decreases |ops|
  {
    ops == [] || (Contract(b, ops[0]) && Legal(StepBlock(b, ops[0]), ops[1..]))
  }

  function RunMap(l: MapLog, ops: seq<Op>): MapLog
    decreases |ops|
  {
    if ops == [] then l else RunMap(StepMap(l, ops[0]), ops[1..])
  }

  function RunBlock(b: BlockLog, ops: seq<Op>): BlockLog
    decreases |ops|
  {
    if ops == [] then b else RunBlock(StepBlock(b, ops[0]), ops[1..])
  }

  lemma {:induction false} RunRefinesFrom(l: MapLog, b: BlockLog, ops: seq<Op>)
    requires Refines(l, b) && Legal(b, ops)
    ensures Refines(RunMap(l, ops), RunBlock(b, ops))
    decreases |ops|
  {
    if ops != [] {
      StepRefines(l, b, ops[0]);
      RunRefinesFrom(StepMap(l, ops[0]), StepBlock(b, ops[0]), ops[1..]);
    }
  }

  /** After any run the map log is one contiguous block right after the purged id, and both reads agree
      with the sequence. */
  lemma {:induction false} LogRefinement(ops: seq<Op>, lo: nat, hi: Option<nat>)
    requires Legal(BlockLog(None, []), ops)
    ensures var l, b := RunMap(MapLog(map[], None), ops), RunBlock(BlockLog(None, []), ops);
            Refines(l, b) && LastLogId(l) == b.Last() && ReadRange(l, lo, hi) == b.Range(lo, hi)
  {
    RunRefinesFrom(MapLog(map[], None), BlockLog(None, []), ops);
    var l, b := RunMap(MapLog(map[], None), ops), RunBlock(BlockLog(None, []), ops);
    LastRefines(l, b);
    RangeRefines(l, b, lo, hi);
  }

  /** The purged id never moves back, on any map log and under any operations. */
  lemma {:induction false} PurgedMonotone(l: MapLog, ops: seq<Op>)
    ensures l.purged.Some? ==> RunMap(l, ops).purged.Some? && l.purged.value.index <= RunMap(l, ops).purged.value.index
    decreases |ops|
  {
    if ops != [] { PurgedMonotone(StepMap(l, ops[0]), ops[1..]); }
  }

  /** The contract on appends is needed: with a hole no block refines the map. */
  lemma {:induction false} AppendExact(l: MapLog, b: BlockLog, e: Entry)
    requires Refines(l, b) && e.logId.index >= b.End()
    ensures (exists c :: Refines(Append(l, [e]), c)) <==> e.logId.index == b.End()
  {
    if e.logId.index == b.End() {
      AppendRefines(l, b, [e]);
    } else {
      InsertAllMeaning(l.log, [e], e.logId.index);
      var m := Append(l, [e]);
      assert e.logId.index in m.log && b.End() !in m.log;
      forall c ensures !Refines(m, c) {
      }
    }
  }
}
