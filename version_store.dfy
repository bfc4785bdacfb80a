/** The multi-version runner of models/two_phase_locking.py
    (`_simulate_mvcc`): every row of `items` is seeded with one version
    written by transaction 0; each transaction takes a start timestamp,
    reads the newest version no newer than its start, and writes by
    appending a new version (base + value_change) unless some other
    transaction has written a version after its start, in which case the
    write is logged as a conflict and skipped; at commit every item the
    transaction wrote takes the value of its last version of that item.

    The version table is kept as one chain per item in insertion
    (`version_id`) order: every query of the runner filters on one item
    name, so nothing is lost. Timestamps are ticks of a strictly
    increasing clock; `clock` is the last tick issued. */
module VersionStore {
  import opened Timeline

  datatype Version = Version(value: int, writer: TxnId, ts: nat)
  type Chains = map<Item, seq<Version>>

  /** The rows of the version table for one item, oldest first. */
  function Chain(chains: Chains, item: Item): seq<Version> {
    if item in chains then chains[item] else []
  }

  /** Timestamps increase strictly along the chain. */
  predicate Ascending(chain: seq<Version>) {
    forall i, j | 0 <= i < j < |chain| :: chain[i].ts < chain[j].ts
  }

  function Last(chain: seq<Version>): Version
    requires chain != []
  {
    chain[|chain| - 1]
  }

  /** The first row of `WHERE timestamp <= start ORDER BY timestamp DESC`,
      looked for from the newest row back. */
  function Visible(chain: seq<Version>, start: nat): (r: Option<Version>)
    ensures r.Some? ==> r.value.ts <= start && exists i | 0 <= i < |chain| :: chain[i] == r.value
    ensures r.None? <==> forall i | 0 <= i < |chain| :: chain[i].ts > start
    decreases |chain|
  {
    if chain == [] then None
    else if Last(chain).ts <= start then Some(Last(chain))
    else Visible(chain[..|chain| - 1], start)
  }

  /** Some version of the item is newer than `start` and was written by
      another transaction (the write-conflict query). */
  predicate NewerForeign(chain: seq<Version>, start: nat, txn: TxnId) {
    exists i | 0 <= i < |chain| :: chain[i].ts > start && chain[i].writer != txn
  }

  /** The last version `txn` inserted (`ORDER BY version_id DESC LIMIT 1`). */
  function LastBy(chain: seq<Version>, txn: TxnId): (r: Option<Version>)
    ensures r.Some? ==> r.value.writer == txn && exists i | 0 <= i < |chain| :: chain[i] == r.value
    ensures r.None? <==> forall i | 0 <= i < |chain| :: chain[i].writer != txn
    decreases |chain|
  {
    if chain == [] then None
    else if Last(chain).writer == txn then Some(Last(chain))
    else LastBy(chain[..|chain| - 1], txn)
  }

  // ---------------------------------------------------------------------
  // One transaction
  // ---------------------------------------------------------------------

  /** The state of one transaction's operation loop: the version table,
      `txn_data` (values read), the events logged and the clock. */
  datatype Pass = Pass(chains: Chains, data: map<Item, int>, events: seq<Event>, clock: nat)

  /** The base of a write: the value read, else the visible version. */
  function WriteBase(chains: Chains, data: map<Item, int>, start: nat, item: Item): Option<int> {
    if item in data then Some(data[item])
    else
      match Visible(Chain(chains, item), start)
      case Some(v) => Some(v.value)
      case None => None
  }

  /** One operation of a transaction that started at `start`. */
  function OpStep(p: Pass, txn: TxnId, start: nat, op: Op): Pass {
    match op
    case Read(item) =>
      (match Visible(Chain(p.chains, item), start)
       case Some(v) => p.(data := p.data[item := v.value], events := p.events + [SnapshotRead(txn, item, v.value, v.ts)])
       case None => p.(events := p.events + [NoVisibleVersion(txn, item)]))
    case Write(item, delta) =>
      (match WriteBase(p.chains, p.data, start, item)
       case None => p.(events := p.events + [CannotWrite(txn, item)])
       case Some(base) =>
         var ts := p.clock + 1;
         if NewerForeign(Chain(p.chains, item), start, txn) then
           p.(events := p.events + [WriteConflict(txn, item)], clock := ts)
         else
           p.(chains := p.chains[item := Chain(p.chains, item) + [Version(base + delta, txn, ts)]],
              events := p.events + [VersionCreated(txn, item, base, base + delta, delta)],
              clock := ts))
  }

  function Ops(p0: Pass, txn: TxnId, start: nat, ops: seq<Op>): Pass
    decreases |ops|
  {
    if ops == [] then p0
    else OpStep(Ops(p0, txn, start, ops[..|ops| - 1]), txn, start, ops[|ops| - 1])
  }

  /** An operation appends its event to whatever was logged before. */
  lemma OpStepAnyLog(p: Pass, txn: TxnId, start: nat, op: Op)
    ensures var q := OpStep(p.(events := []), txn, start, op);
            OpStep(p, txn, start, op) == q.(events := p.events + q.events)
  {
    var e := OpStep(p, txn, start, op).events[|p.events|];
    assert [] + [e] == [e];
  }

  /** The operation loop over one more operation takes one more step. */
  lemma OpsSnoc(p0: Pass, txn: TxnId, start: nat, ops: seq<Op>, i: nat)
    requires i < |ops|
    ensures Ops(p0, txn, start, ops[..i + 1]) == OpStep(Ops(p0, txn, start, ops[..i]), txn, start, ops[i])
  {
    assert ops[..i + 1][..i] == ops[..i];
  }

  /** One write operation's copy-back at commit: the row (if there is one)
      takes the value of the transaction's last version of the item. */
  function CopyStep(items: Store, chains: Chains, txn: TxnId, op: Op): (r: Store)
    ensures r.Keys == items.Keys
  {
    if !op.Write? then items
    else
      match LastBy(Chain(chains, op.item), txn)
      case Some(v) => if op.item in items then items[op.item := v.value] else items
      case None => items
  }

  function CopyBack(items: Store, chains: Chains, txn: TxnId, ops: seq<Op>): (r: Store)
    ensures r.Keys == items.Keys
    decreases |ops|
  {
    if ops == [] then items
    else CopyStep(CopyBack(items, chains, txn, ops[..|ops| - 1]), chains, txn, ops[|ops| - 1])
  }

  datatype MState = MState(chains: Chains, items: Store, timeline: seq<Event>, clock: nat)

  /** One iteration of the transaction loop of `_simulate_mvcc`. */
  function RunTxn(s: MState, t: Txn): (r: MState)
    ensures r.items.Keys == s.items.Keys
  {
    var start := s.clock + 1;
    var p := Ops(Pass(s.chains, map[], [], start), t.id, start, t.ops);
    MState(p.chains, CopyBack(s.items, p.chains, t.id, t.ops),
           s.timeline + [Started(t.id)] + p.events + [Committed(t.id)], p.clock)
  }

  function RunAll(s: MState, txns: seq<Txn>): (r: MState)
    ensures r.items.Keys == s.items.Keys
    decreases |txns|
  {
    if txns == [] then s
    else RunTxn(RunAll(s, txns[..|txns| - 1]), txns[|txns| - 1])
  }

  /** One version per row, written by transaction 0 at `ts`. */
  function Seeded(items: Store, ts: nat): (r: Chains)
    ensures r.Keys == items.Keys
  {
    map k | k in items :: [Version(items[k], 0, ts)]
  }

  /** `_simulate_mvcc`: seed the (empty) version table at one timestamp,
      run every transaction, drop the table. */
  function Simulate(items: Store, timeline: seq<Event>, clock: nat, txns: seq<Txn>): (r: MState)
    ensures r.chains == map[]
  {
    var t0 := clock + 1;
    RunAll(MState(Seeded(items, t0), items, timeline, t0), txns).(chains := map[])
  }

  // ---------------------------------------------------------------------
  // The runner, updating the version table, the items table, the timeline
  // and the clock in place
  // ---------------------------------------------------------------------

  class MvccRun {
    var chains: Chains
    var items: Store
    var timeline: seq<Event>
    var clock: nat

    constructor (items: Store, timeline: seq<Event>, clock: nat)
      ensures this.chains == map[] && this.items == items
      ensures this.timeline == timeline && this.clock == clock
    {
      this.chains := map[];
      this.items := items;
      this.timeline := timeline;
      this.clock := clock;
    }

    function Snapshot(): MState
      reads this
    {
      MState(chains, items, timeline, clock)
    }

    /** Inserts the initial version of every row, all at timestamp `ts`. */
    method Seed(ts: nat)
      requires chains == map[]
      modifies this`chains
      ensures chains == Seeded(items, ts)
    {
      var rest := items.Keys;
      while rest != {}
        invariant rest <= items.Keys
        invariant chains == map k | k in items && k !in rest :: [Version(items[k], 0, ts)]
        decreases rest
      {
        var k :| k in rest;
        chains := chains[k := [Version(items[k], 0, ts)]];
        rest := rest - {k};
      }
    }

    /** One operation of the loop: the chains and clock it leaves, the
        values read so far, and the one event it logs. */
    method OperateOne(txn: TxnId, start: nat, op: Op, data: map<Item, int>) returns (data': map<Item, int>, e: Event)
      modifies this`chains, this`clock
      ensures var p := OpStep(Pass(old(chains), data, [], old(clock)), txn, start, op);
              chains == p.chains && clock == p.clock && data' == p.data && p.events == [e]
    {
      data' := data;
      match op {
        case Read(item) =>
          var found := Visible(Chain(chains, item), start);
          if found.Some? {
            data' := data[item := found.value.value];
            e := SnapshotRead(txn, item, found.value.value, found.value.ts);
          } else {
            e := NoVisibleVersion(txn, item);
          }
        case Write(item, delta) =>
          var base := WriteBase(chains, data, start, item);
          if base.None? {
            e := CannotWrite(txn, item);
          } else {
            clock := clock + 1;
            if NewerForeign(Chain(chains, item), start, txn) {
              e := WriteConflict(txn, item);
            } else {
              chains := chains[item := Chain(chains, item) + [Version(base.value + delta, txn, clock)]];
              e := VersionCreated(txn, item, base.value, base.value + delta, delta);
            }
          }
      }
    }

    /** The operation loop of one transaction that started at `start`. */
    method Operate(t: Txn, start: nat)
      modifies this`chains, this`timeline, this`clock
      ensures var p := Ops(Pass(old(chains), map[], [], old(clock)), t.id, start, t.ops);
              chains == p.chains && clock == p.clock && timeline == old(timeline) + p.events
    {
      ghost var p0 := Pass(chains, map[], [], clock);
      ghost var events: seq<Event> := [];
      var data: map<Item, int> := map[];
      for i := 0 to |t.ops|
        invariant Pass(chains, data, events, clock) == Ops(p0, t.id, start, t.ops[..i])
        invariant timeline == old(timeline) + events
      {
        ghost var before := Pass(chains, data, events, clock);
        var e;
        data, e := OperateOne(t.id, start, t.ops[i], data);
        LogAppend(old(timeline), events, [e]);
        timeline, events := timeline + [e], events + [e];
        OpStepAnyLog(before, t.id, start, t.ops[i]);
        OpsSnoc(p0, t.id, start, t.ops, i);
      }
      assert t.ops[..|t.ops|] == t.ops;
    }

    /** After the commit: every written item takes the value of this
        transaction's last version of it. */
    method CopyBackWrites(t: Txn)
      modifies this`items
      ensures items == CopyBack(old(items), chains, t.id, t.ops)
    {
      for j := 0 to |t.ops|
        invariant items == CopyBack(old(items), chains, t.id, t.ops[..j])
      {
        assert t.ops[..j + 1][..j] == t.ops[..j];
        var op := t.ops[j];
        if op.Write? {
          var last := LastBy(Chain(chains, op.item), t.id);
          if last.Some? && op.item in items {
            items := items[op.item := last.value.value];
          }
        }
      }
      assert t.ops[..|t.ops|] == t.ops;
    }

    method RunTransaction(t: Txn)
      modifies this
      ensures Snapshot() == RunTxn(old(Snapshot()), t)
    {
      clock := clock + 1;
      var start := clock;
      timeline := timeline + [Started(t.id)];
      Operate(t, start);
      timeline := timeline + [Committed(t.id)];
      CopyBackWrites(t);
    }

    method SimulateMvcc(txns: seq<Txn>)
      modifies this
      ensures Snapshot() == Simulate(old(items), old(timeline), old(clock), txns)
    {
      chains := map[];
      clock := clock + 1;
      Seed(clock);
      ghost var s0 := Snapshot();
      for k := 0 to |txns|
        invariant Snapshot() == RunAll(s0, txns[..k])
      {
        assert txns[..k + 1][..k] == txns[..k];
        RunTransaction(txns[k]);
      }
      assert txns[..|txns|] == txns;
      chains := map[];
    }
  }

  // ---------------------------------------------------------------------
  // Snapshot reads
  // ---------------------------------------------------------------------

  /** On a chain in timestamp order, the version a read finds is the newest
      one no newer than the start: the first row the query returns. */
  lemma {:induction false} VisibleIsLatest(chain: seq<Version>, start: nat)
    requires Ascending(chain)
    ensures var r := Visible(chain, start);
            r.Some? ==> forall i | 0 <= i < |chain| && chain[i].ts <= start :: chain[i].ts <= r.value.ts
    decreases |chain|
  {
    if chain != [] && Last(chain).ts > start {
      var c' := chain[..|chain| - 1];
      VisibleIsLatest(c', start);
      assert forall i | 0 <= i < |c'| :: c'[i] == chain[i];
    }
  }

  /** Versions appended after `start` do not change what a read at `start`
      finds, and a chain whose newest version is no newer than `start`
      shows that version. */
  lemma {:induction false} VisibleAtStart(c0: seq<Version>, added: seq<Version>, start: nat)
    requires c0 != [] && Last(c0).ts <= start
    requires forall i | 0 <= i < |added| :: added[i].ts > start
    ensures Visible(c0 + added, start) == Some(Last(c0))
    decreases |added|
  {
    if added != [] {
      var added' := added[..|added| - 1];
      assert (c0 + added)[..|c0 + added| - 1] == c0 + added';
      VisibleAtStart(c0, added', start);
    } else {
      assert c0 + added == c0;
    }
  }

  /** Every row of the table is seeded, so a read of a row at any later
      start finds its initial version. */
  lemma SeededVisible(items: Store, ts: nat, item: Item, start: nat)
    requires item in items && ts <= start
    ensures Visible(Chain(Seeded(items, ts), item), start) == Some(Version(items[item], 0, ts))
  {
  }

  /** One write of an item that has a base value: logged as a conflict and
      skipped (no version, the clock still ticks) exactly when another
      transaction wrote a version after the start; otherwise the version
      base + delta is appended with a fresh timestamp. */
  lemma WriteOutcome(p: Pass, txn: TxnId, start: nat, item: Item, delta: int)
    requires WriteBase(p.chains, p.data, start, item).Some?
    ensures var base := WriteBase(p.chains, p.data, start, item).value;
            var p2 := OpStep(p, txn, start, Write(item, delta));
            && p2.data == p.data && p2.clock == p.clock + 1
            && (NewerForeign(Chain(p.chains, item), start, txn) ==>
                  p2.chains == p.chains && p2.events == p.events + [WriteConflict(txn, item)])
            && (!NewerForeign(Chain(p.chains, item), start, txn) ==>
                  p2.chains == p.chains[item := Chain(p.chains, item) + [Version(base + delta, txn, p.clock + 1)]]
                  && p2.events == p.events + [VersionCreated(txn, item, base, base + delta, delta)])
  {
  }

  // ---------------------------------------------------------------------
  // The version table is append-only
  // ---------------------------------------------------------------------

  /** What one operation does to the table: every chain keeps its rows,
      and any row added is this transaction's, stamped after the clock. */
  ghost predicate Extends(p0: Pass, p: Pass, txn: TxnId) {
    && p0.clock <= p.clock
    && (forall k :: Chain(p0.chains, k) <= Chain(p.chains, k))
    && (forall k, i | |Chain(p0.chains, k)| <= i < |Chain(p.chains, k)| ::
          Chain(p.chains, k)[i].writer == txn && p0.clock < Chain(p.chains, k)[i].ts <= p.clock)
  }

  lemma OpStepExtends(p: Pass, txn: TxnId, start: nat, op: Op)
    ensures Extends(p, OpStep(p, txn, start, op), txn)
  {
    var p2 := OpStep(p, txn, start, op);
    forall k
      ensures Chain(p.chains, k) <= Chain(p2.chains, k)
    {
      if op.Write? && k == op.item && p2.chains != p.chains {
        assert Chain(p2.chains, k)[..|Chain(p.chains, k)|] == Chain(p.chains, k);
      }
    }
  }

  /** Versions are never modified or removed while transactions run: the
      operation loop only appends this transaction's rows. */
  lemma {:induction false} OpsExtend(p0: Pass, txn: TxnId, start: nat, ops: seq<Op>)
    ensures Extends(p0, Ops(p0, txn, start, ops), txn)
    decreases |ops|
  {
    if ops != [] {
      var p' := Ops(p0, txn, start, ops[..|ops| - 1]);
      OpsExtend(p0, txn, start, ops[..|ops| - 1]);
      OpStepExtends(p', txn, start, ops[|ops| - 1]);
      var p := Ops(p0, txn, start, ops);
      forall k
        ensures Chain(p0.chains, k) <= Chain(p.chains, k)
      {
        assert Chain(p0.chains, k) <= Chain(p'.chains, k) <= Chain(p.chains, k);
      }
      forall k, i | |Chain(p0.chains, k)| <= i < |Chain(p.chains, k)|
        ensures Chain(p.chains, k)[i].writer == txn && p0.clock < Chain(p.chains, k)[i].ts <= p.clock
      {
        if i < |Chain(p'.chains, k)| {
          assert Chain(p.chains, k)[i] == Chain(p'.chains, k)[i];
        }
      }
    }
  }

  // ---------------------------------------------------------------------
  // Transactions run one after another
  // ---------------------------------------------------------------------

  /** Between transactions: one chain per row, in timestamp order, none of
      it newer than the clock, and each row holds its newest version. */
  ghost predicate Synced(s: MState) {
    && s.chains.Keys == s.items.Keys
    && forall k | k in s.chains ::
         && s.chains[k] != []
         && Ascending(s.chains[k])
         && Last(s.chains[k]).ts <= s.clock
         && Last(s.chains[k]).value == s.items[k]
  }

  /** Last of a non-empty delta list. */
  function LastDelta(ds: seq<int>): int
    requires ds != []
  {
    ds[|ds| - 1]
  }

  /** One chain during the operation loop of a transaction that started
      (at `start`) after every version of the chain `c0` it started from:
      the chain is in timestamp order and no newer than the clock, a read
      still sees the newest version of `c0`, no other transaction's version
      is newer than the start, and when the transaction has written the
      item (deltas `ds`) the newest version is its own and holds the newest
      value of `c0` plus the last delta; otherwise the chain is `c0`. */
  ghost predicate ChainRunning(c0: seq<Version>, c: seq<Version>, txn: TxnId, start: nat, clock: nat, ds: seq<int>)
    requires c0 != []
  {
    && c != []
    && Ascending(c)
    && Last(c).ts <= clock
    && Visible(c, start) == Some(Last(c0))
    && !NewerForeign(c, start, txn)
    && (ds == [] ==> c == c0)
    && (ds != [] ==> Last(c).writer == txn && Last(c).value == Last(c0).value + LastDelta(ds))
  }

  /** Before its first operation, a transaction that started after every
      version of a chain sees its newest version, and no version is newer
      than its start. */
  lemma ChainStarts(c0: seq<Version>, txn: TxnId, start: nat, clock: nat)
    requires c0 != [] && Ascending(c0) && Last(c0).ts < start <= clock
    ensures ChainRunning(c0, c0, txn, start, clock, [])
  {
    forall i | 0 <= i < |c0|
      ensures c0[i].ts <= Last(c0).ts
    {
    }
  }

  lemma DeltasSnoc(done: seq<Op>, op: Op, k: Item)
    ensures Deltas(done + [op], k) == Deltas(done, k) + (if op.Write? && op.item == k then [op.delta] else [])
  {
    assert (done + [op])[..|done + [op]| - 1] == done;
  }

  lemma ChainLater(c0: seq<Version>, c: seq<Version>, txn: TxnId, start: nat, clock: nat, clock': nat, ds: seq<int>)
    requires c0 != [] && ChainRunning(c0, c, txn, start, clock, ds) && clock <= clock'
    ensures ChainRunning(c0, c, txn, start, clock', ds)
  {
  }

  lemma ChainAppend(c0: seq<Version>, c: seq<Version>, c2: seq<Version>, txn: TxnId, start: nat, clock: nat,
                    ds: seq<int>, ds2: seq<int>, delta: int)
    requires c0 != [] && ChainRunning(c0, c, txn, start, clock, ds) && start <= clock
    requires c2 == c + [Version(Last(c0).value + delta, txn, clock + 1)] && ds2 == ds + [delta]
    ensures ChainRunning(c0, c2, txn, start, clock + 1, ds2)
  {
    assert c2[..|c2| - 1] == c;
    assert LastDelta(ds2) == delta;
    forall i | 0 <= i < |c2| && c2[i].ts > start
      ensures c2[i].writer == txn
    {
      if i < |c| {
        assert c2[i] == c[i];
      }
    }
  }

  /** Each operation logs exactly one event; it never mentions an abort,
      and it mentions a conflict exactly when it is a write whose base was
      found but that another transaction's newer version blocked. */
  lemma OpStepLog(p: Pass, txn: TxnId, start: nat, op: Op)
    ensures var p2 := OpStep(p, txn, start, op);
            && |p2.events| == |p.events| + 1
            && p2.events == p.events + [p2.events[|p.events|]]
            && !Mentions(p2.events[|p.events|], Abort)
            && (Mentions(p2.events[|p.events|], Conflict) <==>
                  op.Write? && WriteBase(p.chains, p.data, start, op.item).Some?
                  && NewerForeign(Chain(p.chains, op.item), start, txn))
  {
  }

  /** One item during the operation loop of a transaction that started
      after every version of it: its chain is as `ChainRunning` says, and
      any value read for it is the newest value of `c0`. */
  ghost predicate ItemRunning(c0: seq<Version>, p: Pass, txn: TxnId, start: nat, done: seq<Op>, k: Item)
    requires c0 != []
  {
    && start <= p.clock
    && ChainRunning(c0, Chain(p.chains, k), txn, start, p.clock, Deltas(done, k))
    && (k in p.data ==> p.data[k] == Last(c0).value)
  }

  /** An operation on another item leaves this item's chain and read value
      alone. */
  lemma ItemStepOther(c0: seq<Version>, p: Pass, txn: TxnId, start: nat, done: seq<Op>, k: Item, op: Op)
    requires c0 != [] && ItemRunning(c0, p, txn, start, done, k) && op.item != k
    ensures ItemRunning(c0, OpStep(p, txn, start, op), txn, start, done + [op], k)
  {
    var p2 := OpStep(p, txn, start, op);
    OpStepOther(p, txn, start, op, k);
    DeltasSnoc(done, op, k);
    assert Deltas(done + [op], k) == Deltas(done, k) + [];
    ChainLater(c0, Chain(p.chains, k), txn, start, p.clock, p2.clock, Deltas(done, k));
  }

  /** An operation on another item leaves this item's chain and read value
      alone, and never turns the clock back. */
  lemma OpStepOther(p: Pass, txn: TxnId, start: nat, op: Op, k: Item)
    requires op.item != k
    ensures var p2 := OpStep(p, txn, start, op);
            && Chain(p2.chains, k) == Chain(p.chains, k)
            && (k in p2.data <==> k in p.data)
            && (k in p.data ==> p2.data[k] == p.data[k])
            && p.clock <= p2.clock
  {
  }

  /** A read of the item records the newest value of `c0`; a write appends
      this transaction's version newest value + delta, unblocked. */
  lemma ItemStepSame(c0: seq<Version>, p: Pass, txn: TxnId, start: nat, done: seq<Op>, k: Item, op: Op)
    requires c0 != [] && ItemRunning(c0, p, txn, start, done, k) && op.item == k
    ensures ItemRunning(c0, OpStep(p, txn, start, op), txn, start, done + [op], k)
    ensures WriteBase(p.chains, p.data, start, k) == Some(Last(c0).value)
    ensures !NewerForeign(Chain(p.chains, k), start, txn)
  {
    var p2 := OpStep(p, txn, start, op);
    var c := Chain(p.chains, k);
    DeltasSnoc(done, op, k);
    if op.Write? {
      var v := Version(Last(c0).value + op.delta, txn, p.clock + 1);
      assert Chain(p2.chains, k) == c + [v];
      ChainAppend(c0, c, Chain(p2.chains, k), txn, start, p.clock, Deltas(done, k), Deltas(done + [op], k), op.delta);
    } else {
      assert Deltas(done + [op], k) == Deltas(done, k) + [];
      assert Chain(p2.chains, k) == c;
    }
  }

  lemma ItemStep(c0: seq<Version>, p: Pass, txn: TxnId, start: nat, done: seq<Op>, k: Item, op: Op)
    requires c0 != [] && ItemRunning(c0, p, txn, start, done, k)
    ensures ItemRunning(c0, OpStep(p, txn, start, op), txn, start, done + [op], k)
  {
    if op.item == k {
      ItemStepSame(c0, p, txn, start, done, k, op);
    } else {
      ItemStepOther(c0, p, txn, start, done, k, op);
    }
  }

  /** The whole operation loop, seen from one item. */
  lemma {:induction false} ItemOps(c0: seq<Version>, p0: Pass, txn: TxnId, start: nat, ops: seq<Op>, k: Item)
    requires c0 != [] && ItemRunning(c0, p0, txn, start, [], k)
    ensures ItemRunning(c0, Ops(p0, txn, start, ops), txn, start, ops, k)
    decreases |ops|
  {
    if ops != [] {
      ItemOps(c0, p0, txn, start, ops[..|ops| - 1], k);
      ItemStepLast(c0, Ops(p0, txn, start, ops[..|ops| - 1]), txn, start, ops, k);
    }
  }

  /** `ItemStep` for the last operation of `ops`. */
  lemma ItemStepLast(c0: seq<Version>, p: Pass, txn: TxnId, start: nat, ops: seq<Op>, k: Item)
    requires ops != [] && c0 != [] && ItemRunning(c0, p, txn, start, ops[..|ops| - 1], k)
    ensures ItemRunning(c0, OpStep(p, txn, start, ops[|ops| - 1]), txn, start, ops, k)
  {
    ItemStep(c0, p, txn, start, ops[..|ops| - 1], k, ops[|ops| - 1]);
    assert ops[..|ops| - 1] + [ops[|ops| - 1]] == ops;
  }

  /** The chains a transaction starts from in a synced table: each in
      timestamp order and older than the start. */
  ghost predicate StartsAfter(c0s: Chains, start: nat) {
    forall k | k in c0s :: c0s[k] != [] && Ascending(c0s[k]) && Last(c0s[k]).ts < start
  }

  lemma ItemStarts(c0s: Chains, txn: TxnId, start: nat, k: Item)
    requires StartsAfter(c0s, start) && k in c0s
    ensures ItemRunning(c0s[k], Pass(c0s, map[], [], start), txn, start, [], k)
  {
    ChainStarts(c0s[k], txn, start, start);
  }

  /** Every operation of the script names a row of the table. */
  predicate OnRows(chains: Chains, ops: seq<Op>) {
    forall i | 0 <= i < |ops| :: ops[i].item in chains
  }

  /** A transaction that started after every version of the table logs no
      conflict (nor abort) and keeps the table's set of rows. */
  lemma {:induction false} OpsQuiet(c0s: Chains, txn: TxnId, start: nat, ops: seq<Op>)
    requires StartsAfter(c0s, start) && OnRows(c0s, ops)
    ensures var p := Ops(Pass(c0s, map[], [], start), txn, start, ops);
            Quiet(p.events) && p.chains.Keys == c0s.Keys
    decreases |ops|
  {
    var p0 := Pass(c0s, map[], [], start);
    if ops != [] {
      var ops', op := ops[..|ops| - 1], ops[|ops| - 1];
      assert OnRows(c0s, ops');
      OpsQuiet(c0s, txn, start, ops');
      var p' := Ops(p0, txn, start, ops');
      ItemStarts(c0s, txn, start, op.item);
      ItemOps(c0s[op.item], p0, txn, start, ops', op.item);
      ItemStepSame(c0s[op.item], p', txn, start, ops', op.item, op);
      OpStepLog(p', txn, start, op);
      var p := OpStep(p', txn, start, op);
      QuietAppend(p'.events, [p.events[|p'.events|]]);
    }
  }

  /** The copy-back leaves a row alone unless the script writes it and the
      transaction has a version of it; then the row takes the value of the
      transaction's last version. */
  lemma {:induction false} CopyBackValue(items: Store, chains: Chains, txn: TxnId, ops: seq<Op>, k: Item)
    requires k in items
    ensures var last := LastBy(Chain(chains, k), txn);
            CopyBack(items, chains, txn, ops)[k]
            == if Deltas(ops, k) != [] && last.Some? then last.value.value else items[k]
    decreases |ops|
  {
    if ops != [] {
      var ops', op := ops[..|ops| - 1], ops[|ops| - 1];
      CopyBackValue(items, chains, txn, ops', k);
      assert ops' + [op] == ops;
      DeltasSnoc(ops', op, k);
    }
  }

  /** The rows a committed transaction leaves when it ran alone: each
      written row holds its value plus the last delta written to it. */
  function MvccCommitValues(items: Store, t: Txn): (r: Store)
    ensures r.Keys == items.Keys
  {
    map k | k in items :: if Deltas(t.ops, k) == [] then items[k] else items[k] + LastDelta(Deltas(t.ops, k))
  }

  lemma SyncedStartsAfter(s: MState)
    requires Synced(s)
    ensures StartsAfter(s.chains, s.clock + 1)
  {
  }

  /** A transaction that started after every version ends its operation
      loop with each row's chain as `ChainRunning` says. */
  lemma ItemAfterOps(c0s: Chains, txn: TxnId, start: nat, ops: seq<Op>, k: Item)
    requires StartsAfter(c0s, start) && OnRows(c0s, ops) && k in c0s
    ensures var p := Ops(Pass(c0s, map[], [], start), txn, start, ops);
            && k in p.chains
            && ChainRunning(c0s[k], p.chains[k], txn, start, p.clock, Deltas(ops, k))
  {
    ItemStarts(c0s, txn, start, k);
    ItemOps(c0s[k], Pass(c0s, map[], [], start), txn, start, ops, k);
    OpsQuiet(c0s, txn, start, ops);
  }

  /** At commit a row whose chain ran as `ChainRunning` says takes the
      newest version of the chain: its old value plus the last delta
      written to it, if any. */
  lemma CommitRow(items: Store, chains: Chains, t: Txn, k: Item, c0: seq<Version>, start: nat, clock: nat)
    requires k in items && k in chains && c0 != [] && Last(c0).value == items[k]
    requires ChainRunning(c0, chains[k], t.id, start, clock, Deltas(t.ops, k))
    ensures CopyBack(items, chains, t.id, t.ops)[k] == Last(chains[k]).value
    ensures Last(chains[k]).value == MvccCommitValues(items, t)[k]
  {
    CopyBackValue(items, chains, t.id, t.ops, k);
    if Deltas(t.ops, k) != [] {
      assert LastBy(Chain(chains, k), t.id) == Some(Last(chains[k]));
    }
  }

  /** A transaction's chains, clock and rows are those its operation loop
      and copy-back leave. */
  lemma RunTxnParts(s: MState, t: Txn)
    ensures var p := Ops(Pass(s.chains, map[], [], s.clock + 1), t.id, s.clock + 1, t.ops);
            && RunTxn(s, t).chains == p.chains && RunTxn(s, t).clock == p.clock
            && RunTxn(s, t).items == CopyBack(s.items, p.chains, t.id, t.ops)
            && RunTxn(s, t).timeline == s.timeline + [Started(t.id)] + p.events + [Committed(t.id)]
  {
  }

  /** One row after a transaction that started after every version, when
      the row held its chain's newest value: the chain is still ordered and
      no newer than the clock, and the row, copied back from the chain,
      holds the newest version, its old value plus the last delta written. */
  lemma RowAfterTxn(c0s: Chains, items: Store, t: Txn, start: nat, k: Item)
    requires StartsAfter(c0s, start) && OnRows(c0s, t.ops)
    requires k in c0s && k in items && Last(c0s[k]).value == items[k]
    ensures var p := Ops(Pass(c0s, map[], [], start), t.id, start, t.ops);
            && k in p.chains && p.chains[k] != [] && Ascending(p.chains[k]) && Last(p.chains[k]).ts <= p.clock
            && CopyBack(items, p.chains, t.id, t.ops)[k] == Last(p.chains[k]).value
            && Last(p.chains[k]).value == MvccCommitValues(items, t)[k]
  {
    var p := Ops(Pass(c0s, map[], [], start), t.id, start, t.ops);
    ItemAfterOps(c0s, t.id, start, t.ops, k);
    CommitRow(items, p.chains, t, k, c0s[k], start, p.clock);
  }

  /** What one transaction does to one row, when it starts after every
      version and the row holds its chain's newest value. */
  lemma TxnItem(s: MState, t: Txn, k: Item)
    requires StartsAfter(s.chains, s.clock + 1) && OnRows(s.chains, t.ops)
    requires k in s.chains && k in s.items && Last(s.chains[k]).value == s.items[k]
    ensures var r := RunTxn(s, t);
            && k in r.chains && k in r.items
            && r.chains[k] != [] && Ascending(r.chains[k]) && Last(r.chains[k]).ts <= r.clock
            && Last(r.chains[k]).value == r.items[k]
            && r.items[k] == MvccCommitValues(s.items, t)[k]
  {
    RunTxnParts(s, t);
    RowAfterTxn(s.chains, s.items, t, s.clock + 1, k);
  }

  /** One transaction on a synced table leaves it synced, each written row
      at its old value plus the last delta written to it. */
  lemma TxnRows(s: MState, t: Txn)
    requires Synced(s) && Known(s.items, t.ops)
    ensures Synced(RunTxn(s, t)) && RunTxn(s, t).items == MvccCommitValues(s.items, t)
  {
    SyncedStartsAfter(s);
    assert OnRows(s.chains, t.ops);
    TxnSynced(s, t);
    TxnValues(s, t);
  }

  lemma TxnSynced(s: MState, t: Txn)
    requires Synced(s) && StartsAfter(s.chains, s.clock + 1) && OnRows(s.chains, t.ops)
    ensures Synced(RunTxn(s, t))
  {
    var r := RunTxn(s, t);
    OpsQuiet(s.chains, t.id, s.clock + 1, t.ops);
    assert r.chains.Keys == r.items.Keys;
    forall k | k in r.chains
      ensures && r.chains[k] != [] && Ascending(r.chains[k]) && Last(r.chains[k]).ts <= r.clock
              && Last(r.chains[k]).value == r.items[k]
    {
      TxnItem(s, t, k);
    }
  }

  lemma TxnValues(s: MState, t: Txn)
    requires Synced(s) && StartsAfter(s.chains, s.clock + 1) && OnRows(s.chains, t.ops)
    ensures RunTxn(s, t).items == MvccCommitValues(s.items, t)
  {
    var r := RunTxn(s, t);
    forall k | k in s.items
      ensures r.items[k] == MvccCommitValues(s.items, t)[k]
    {
      TxnItem(s, t, k);
    }
  }

  /** A transaction's log (start, operations, commit) whose operations
      mention neither marker extends the timeline by a quiet suffix. */
  lemma LogShape(tl: seq<Event>, id: TxnId, evs: seq<Event>)
    requires Quiet(evs)
    ensures var r := tl + [Started(id)] + evs + [Committed(id)];
            |tl| <= |r| && r[..|tl|] == tl && Quiet(r[|tl|..])
  {
    var added := [Started(id)] + evs + [Committed(id)];
    assert tl + [Started(id)] + evs + [Committed(id)] == tl + added;
    assert (tl + added)[|tl|..] == added;
    QuietAppend([Started(id)], evs);
    QuietAppend([Started(id)] + evs, [Committed(id)]);
  }

  /** One transaction on a synced table logs nothing that mentions a
      conflict or an abort. */
  lemma TxnLog(s: MState, t: Txn)
    requires Synced(s) && Known(s.items, t.ops)
    ensures var r := RunTxn(s, t);
            && |s.timeline| <= |r.timeline| && r.timeline[..|s.timeline|] == s.timeline
            && Quiet(r.timeline[|s.timeline|..])
  {
    var start := s.clock + 1;
    var p := Ops(Pass(s.chains, map[], [], start), t.id, start, t.ops);
    assert Quiet(p.events) by {
      SyncedStartsAfter(s);
      assert OnRows(s.chains, t.ops);
      OpsQuiet(s.chains, t.id, start, t.ops);
    }
    LogShape(s.timeline, t.id, p.events);
  }

  /** The operation loop never logs an abort. */
  lemma {:induction false} OpsNoAbort(p0: Pass, txn: TxnId, start: nat, ops: seq<Op>)
    ensures Count(Ops(p0, txn, start, ops).events, Abort) == Count(p0.events, Abort)
    decreases |ops|
  {
    if ops != [] {
      var ops' := ops[..|ops| - 1];
      OpsNoAbort(p0, txn, start, ops');
      OpStepLog(Ops(p0, txn, start, ops'), txn, start, ops[|ops| - 1]);
    }
  }

  /** A transaction under MVCC never aborts: whatever the table, its run
      adds no event whose text mentions an abort. */
  lemma TxnNoAbort(s: MState, t: Txn)
    ensures Count(RunTxn(s, t).timeline, Abort) == Count(s.timeline, Abort)
  {
    var start := s.clock + 1;
    var p0 := Pass(s.chains, map[], [], start);
    var p := Ops(p0, t.id, start, t.ops);
    RunTxnParts(s, t);
    OpsNoAbort(p0, t.id, start, t.ops);
    CountBetween(s.timeline, t.id, p.events, Abort);
  }

  /** Counting over a committed transaction's entries: its start and its
      commit mention nothing. */
  lemma CountBetween(base: seq<Event>, id: TxnId, evs: seq<Event>, m: Marker)
    ensures Count(base + [Started(id)] + evs + [Committed(id)], m) == Count(base, m) + Count(evs, m)
  {
    CountAppend(base, [Started(id)], m);
    CountAppend(base + [Started(id)], evs, m);
    CountAppend(base + [Started(id)] + evs, [Committed(id)], m);
    CountOne(Started(id), m);
    CountOne(Committed(id), m);
  }

  lemma {:induction false} RunNoAbort(s: MState, txns: seq<Txn>)
    ensures Count(RunAll(s, txns).timeline, Abort) == Count(s.timeline, Abort)
    decreases |txns|
  {
    if txns != [] {
      RunNoAbort(s, txns[..|txns| - 1]);
      TxnNoAbort(RunAll(s, txns[..|txns| - 1]), txns[|txns| - 1]);
    }
  }

  /** The abort count of an MVCC run is whatever the timeline held before
      it: MVCC has no abort path. */
  lemma SimulateNoAbort(items: Store, timeline: seq<Event>, clock: nat, txns: seq<Txn>)
    ensures Count(Simulate(items, timeline, clock, txns).timeline, Abort) == Count(timeline, Abort)
  {
    RunNoAbort(MState(Seeded(items, clock + 1), items, timeline, clock + 1), txns);
  }

  /** The rows after transactions that ran one after another without
      interleaving. */
  function MvccSerialItems(items: Store, txns: seq<Txn>): (r: Store)
    ensures r.Keys == items.Keys
    decreases |txns|
  {
    if txns == [] then items
    else MvccCommitValues(MvccSerialItems(items, txns[..|txns| - 1]), txns[|txns| - 1])
  }

  /** Transactions run one after another on a synced table commit every
      write: the rows end as `MvccSerialItems` says, the table stays synced
      and nothing logged mentions a conflict or an abort. */
  lemma {:induction false} SerialRun(s: MState, txns: seq<Txn>)
    requires Synced(s) && AllKnown(s.items, txns)
    ensures var r := RunAll(s, txns);
            && Synced(r)
            && r.items == MvccSerialItems(s.items, txns)
            && |s.timeline| <= |r.timeline| && r.timeline[..|s.timeline|] == s.timeline
            && Quiet(r.timeline[|s.timeline|..])
    decreases |txns|
  {
    if txns != [] {
      var txns', t := txns[..|txns| - 1], txns[|txns| - 1];
      assert AllKnown(s.items, txns');
      SerialRun(s, txns');
      var m := RunAll(s, txns');
      assert Known(m.items, t.ops) by {
        assert Known(s.items, t.ops);
      }
      TxnRows(m, t);
      TxnLog(m, t);
      QuietTransitive(s.timeline, m.timeline, RunTxn(m, t).timeline);
    }
  }

  /** The seeded table is synced at the seed timestamp. */
  lemma SeededSynced(items: Store, timeline: seq<Event>, t0: nat)
    ensures Synced(MState(Seeded(items, t0), items, timeline, t0))
  {
  }

  /** `_simulate_mvcc` over transactions that each touch only rows of the
      table: every write commits, the rows end as `MvccSerialItems` says,
      and the run adds no conflict and no abort to the counts. */
  lemma SimulateSerial(items: Store, timeline: seq<Event>, clock: nat, txns: seq<Txn>)
    requires AllKnown(items, txns)
    ensures var r := Simulate(items, timeline, clock, txns);
            && r.items == MvccSerialItems(items, txns)
            && |timeline| <= |r.timeline| && r.timeline[..|timeline|] == timeline
            && Count(r.timeline[|timeline|..], Conflict) == 0
            && Count(r.timeline[|timeline|..], Abort) == 0
  {
    var s := MState(Seeded(items, clock + 1), items, timeline, clock + 1);
    SeededSynced(items, timeline, clock + 1);
    SerialRun(s, txns);
    QuietCounts(Simulate(items, timeline, clock, txns).timeline[|timeline|..]);
  }
}
