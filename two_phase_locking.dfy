/** The two-phase-locking runner of models/two_phase_locking.py
    (`_simulate_2pl`): one in-memory lock table item -> (owner, READ|WRITE),
    transactions run one after another against the `items` table; each one
    acquires (or upgrades) every lock it needs, reads as it goes, and on the
    first conflicting request stops, logs the abort and drops its locks;
    otherwise it applies its writes as deltas and only then releases.

    The runner is specified by left folds over the operation list (`Grow`,
    `ApplyWrites`, `ReleaseAll`) so that the loops of `LockingRun` are
    verified against the fold of the prefix they have processed. */
module TwoPhaseLocking {
  import opened Timeline

  datatype Lock = Lock(owner: TxnId, mode: LockMode)
  type LockTable = map<Item, Lock>

  function ModeFor(op: Op): LockMode {
    if op.Read? then ReadLock else WriteLock
  }

  /** The conflict rule: a lock held by another transaction refuses a request
      when either the held or the requested lock is WRITE. */
  predicate Incompatible(held: Lock, txn: TxnId, mode: LockMode) {
    held.owner != txn && (held.mode == WriteLock || mode == WriteLock)
  }

  // ---------------------------------------------------------------------
  // Growing phase
  // ---------------------------------------------------------------------

  /** The state of the growing phase: the lock table, `txn_locks` (items this
      transaction freshly acquired, in order), `txn_data` (values read), the
      events logged so far and `txn_conflict`. */
  datatype Growth = Growth(locks: LockTable, held: seq<Item>, data: map<Item, int>,
                           events: seq<Event>, conflict: bool)

  /** One iteration of the acquisition loop; after a conflict the loop has
      stopped, so a settled state is left as it is. */
  function GrowStep(g: Growth, txn: TxnId, items: Store, op: Op): Growth
    requires op.item in items
  {
    if g.conflict then g
    else
      var item, mode := op.item, ModeFor(op);
      var g1 :=
        if item in g.locks then
          var current := g.locks[item];
          if Incompatible(current, txn, mode) then
            g.(events := g.events + [LockConflict(txn, item, current.owner, current.mode)], conflict := true)
          else if current.owner == txn && current.mode == ReadLock && mode == WriteLock then
            g.(locks := g.locks[item := Lock(txn, WriteLock)], events := g.events + [Upgraded(txn, item)])
          else
            g
        else
          g.(locks := g.locks[item := Lock(txn, mode)], held := g.held + [item],
             events := g.events + [Acquired(txn, item, mode)]);
      if g1.conflict || !op.Read? then g1
      else g1.(data := g1.data[item := items[item]], events := g1.events + [ReadValue(txn, item, items[item])])
  }

  function Grow(g0: Growth, txn: TxnId, items: Store, ops: seq<Op>): Growth
    requires Known(items, ops)
    decreases |ops|
  {
    if ops == [] then g0
    else GrowStep(Grow(g0, txn, items, ops[..|ops| - 1]), txn, items, ops[|ops| - 1])
  }

  // ---------------------------------------------------------------------
  // Writes and releases
  // ---------------------------------------------------------------------

  datatype Writes = Writes(items: Store, events: seq<Event>)

  /** One write: the base is the value this transaction read for the item,
      else the value currently stored; the row is set to base + delta. */
  function WriteStep(w: Writes, txn: TxnId, data: map<Item, int>, op: Op): (r: Writes)
    requires op.item in w.items
    ensures r.items.Keys == w.items.Keys
  {
    if !op.Write? then w
    else
      var base := if op.item in data then data[op.item] else w.items[op.item];
      var v := base + op.delta;
      Writes(w.items[op.item := v], w.events + [Wrote(txn, op.item, base, v, op.delta)])
  }

  function ApplyWrites(w0: Writes, txn: TxnId, data: map<Item, int>, ops: seq<Op>): (r: Writes)
    requires Known(w0.items, ops)
    ensures r.items.Keys == w0.items.Keys
    decreases |ops|
  {
    if ops == [] then w0
    else
      var w := ApplyWrites(w0, txn, data, ops[..|ops| - 1]);
      WriteStep(w, txn, data, ops[|ops| - 1])
  }

  datatype Release = Release(locks: LockTable, events: seq<Event>)

  /** Drops the entry of `item` if this transaction still owns it; the
      shrinking phase logs each release, the abort path does not. */
  function ReleaseStep(r: Release, txn: TxnId, item: Item, log: bool): Release {
    if item in r.locks && r.locks[item].owner == txn then
      Release(r.locks - {item}, if log then r.events + [Released(txn, item)] else r.events)
    else r
  }

  function ReleaseAll(r0: Release, txn: TxnId, held: seq<Item>, log: bool): Release
    decreases |held|
  {
    if held == [] then r0
    else ReleaseStep(ReleaseAll(r0, txn, held[..|held| - 1], log), txn, held[|held| - 1], log)
  }

  // ---------------------------------------------------------------------
  // One transaction, and the whole run
  // ---------------------------------------------------------------------

  datatype State = State(locks: LockTable, items: Store, timeline: seq<Event>)

  function Start(locks: LockTable): Growth {
    Growth(locks, [], map[], [], false)
  }

  /** One iteration of the transaction loop of `_simulate_2pl`. */
  function RunTxn(s: State, t: Txn): (r: State)
    requires Known(s.items, t.ops)
    ensures r.items.Keys == s.items.Keys
  {
    var g := Grow(Start(s.locks), t.id, s.items, t.ops);
    if g.conflict then
      var rel := ReleaseAll(Release(g.locks, []), t.id, g.held, false);
      State(rel.locks, s.items, s.timeline + [Started(t.id)] + g.events + [Aborted(t.id)])
    else
      var w := ApplyWrites(Writes(s.items, []), t.id, g.data, t.ops);
      var rel := ReleaseAll(Release(g.locks, []), t.id, g.held, true);
      State(rel.locks, w.items,
            s.timeline + [Started(t.id)] + g.events + w.events + rel.events + [Committed(t.id)])
  }

  function RunAll(s: State, txns: seq<Txn>): (r: State)
    requires AllKnown(s.items, txns)
    ensures r.items.Keys == s.items.Keys
    decreases |txns|
  {
    if txns == [] then s
    else
      var s' := RunAll(s, txns[..|txns| - 1]);
      RunTxn(s', txns[|txns| - 1])
  }

  /** `_simulate_2pl`: a fresh, empty lock table, then every transaction. */
  function Simulate(items: Store, timeline: seq<Event>, txns: seq<Txn>): (r: State)
    requires AllKnown(items, txns)
  {
    RunAll(State(map[], items, timeline), txns)
  }

  // ---------------------------------------------------------------------
  // The runner, updating the lock table, the items table and the timeline
  // in place
  // ---------------------------------------------------------------------

  class LockingRun {
    var locks: LockTable
    var items: Store
    var timeline: seq<Event>

    constructor (items: Store, timeline: seq<Event>)
      ensures this.locks == map[] && this.items == items && this.timeline == timeline
    {
      this.locks := map[];
      this.items := items;
      this.timeline := timeline;
    }

    function Snapshot(): State
      reads this
    {
      State(locks, items, timeline)
    }

    /** Releases every entry of `held` this transaction still owns. */
    method ReleaseHeld(txn: TxnId, held: seq<Item>, log: bool)
      modifies this`locks, this`timeline
      ensures var r := ReleaseAll(Release(old(locks), []), txn, held, log);
              locks == r.locks && timeline == old(timeline) + r.events
    {
      ghost var events: seq<Event> := [];
      var j := 0;
      while j < |held|
        invariant 0 <= j <= |held|
        invariant Release(locks, events) == ReleaseAll(Release(old(locks), []), txn, held[..j], log)
        invariant timeline == old(timeline) + events
      {
        assert held[..j + 1][..j] == held[..j];
        var item := held[j];
        if item in locks && locks[item].owner == txn {
          locks := locks - {item};
          if log {
            LogAppend(old(timeline), events, [Released(txn, item)]);
            timeline := timeline + [Released(txn, item)];
            events := events + [Released(txn, item)];
          }
        }
        j := j + 1;
      }
      assert held[..|held|] == held;
    }

    /** Phase 1, the growing phase: acquire (or upgrade) every lock the
        script needs, reading as it goes; stops at the first conflict. */
    method Acquire(t: Txn) returns (held: seq<Item>, data: map<Item, int>, conflict: bool)
      requires Known(items, t.ops)
      modifies this`locks, this`timeline
      ensures var g := Grow(Start(old(locks)), t.id, items, t.ops);
              locks == g.locks && held == g.held && data == g.data && conflict == g.conflict
              && timeline == old(timeline) + g.events
    {
      ghost var g0, store := Start(locks), items;
      ghost var events: seq<Event> := [];
      held, data, conflict := [], map[], false;
      var i := 0;
      while i < |t.ops| && !conflict
        invariant 0 <= i <= |t.ops| && items == store
        invariant timeline == old(timeline) + events
        invariant Growth(locks, held, data, events, conflict) == Grow(g0, t.id, store, t.ops[..i])
      {
        ghost var before := Growth(locks, held, data, events, false);
        var added;
        held, data, conflict, added := Request(t.id, t.ops[i], held, data);
        GrowNext(g0, t.id, store, t.ops, i, before, Growth(locks, held, data, added, conflict));
        LogAppend(old(timeline), events, added);
        events := events + added;
        i := i + 1;
      }
      GrowSettled(g0, t.id, store, t.ops, i);
    }

    /** One iteration of the acquisition loop: request the lock `op`
        needs (or upgrade it), then read. */
    method Request(txn: TxnId, op: Op, held: seq<Item>, data: map<Item, int>)
        returns (held': seq<Item>, data': map<Item, int>, conflict: bool, added: seq<Event>)
      requires op.item in items
      modifies this`locks, this`timeline
      ensures var g := GrowStep(Growth(old(locks), held, data, [], false), txn, items, op);
              && locks == g.locks && held' == g.held && data' == g.data && conflict == g.conflict
              && added == g.events && timeline == old(timeline) + added
    {
      held', data', conflict, added := held, data, false, [];
      var item := op.item;
      var mode := ModeFor(op);
      if item in locks {
        var current := locks[item];
        if Incompatible(current, txn, mode) {
          added := [LockConflict(txn, item, current.owner, current.mode)];
          conflict := true;
        } else if current.owner == txn && current.mode == ReadLock && mode == WriteLock {
          locks := locks[item := Lock(txn, WriteLock)];
          added := [Upgraded(txn, item)];
        }
      } else {
        locks := locks[item := Lock(txn, mode)];
        held' := held + [item];
        added := [Acquired(txn, item, mode)];
      }
      if !conflict && op.Read? {
        var value := items[item];
        data' := data[item := value];
        added := added + [ReadValue(txn, item, value)];
      }
      timeline := timeline + added;
    }

    /** The writes, applied before any lock is released. */
    method WriteAll(t: Txn, data: map<Item, int>)
      requires Known(items, t.ops)
      modifies this`items, this`timeline
      ensures var w := ApplyWrites(Writes(old(items), []), t.id, data, t.ops);
              items == w.items && timeline == old(timeline) + w.events
    {
      ghost var w0 := Writes(items, []);
      ghost var events: seq<Event> := [];
      var j := 0;
      while j < |t.ops|
        invariant 0 <= j <= |t.ops|
        invariant timeline == old(timeline) + events
        invariant Writes(items, events) == ApplyWrites(w0, t.id, data, t.ops[..j])
      {
        ghost var before := Writes(items, events);
        var added := WriteOne(t.id, t.ops[j], data);
        WriteNext(w0, t.id, data, t.ops, j, before, Writes(items, added));
        LogAppend(old(timeline), events, added);
        events := events + added;
        j := j + 1;
      }
      assert t.ops[..|t.ops|] == t.ops;
    }

    /** One iteration of the write loop. */
    method WriteOne(txn: TxnId, op: Op, data: map<Item, int>) returns (added: seq<Event>)
      requires op.item in items
      modifies this`items, this`timeline
      ensures var w := WriteStep(Writes(old(items), []), txn, data, op);
              items == w.items && added == w.events && timeline == old(timeline) + added
    {
      added := [];
      if op.Write? {
        var base := if op.item in data then data[op.item] else items[op.item];
        var v := base + op.delta;
        items := items[op.item := v];
        added := [Wrote(txn, op.item, base, v, op.delta)];
      }
      timeline := timeline + added;
    }

    method RunTransaction(t: Txn)
      requires Known(items, t.ops)
      modifies this
      ensures Snapshot() == RunTxn(old(Snapshot()), t)
    {
      timeline := timeline + [Started(t.id)];
      var held, data, conflict := Acquire(t);
      if conflict {
        timeline := timeline + [Aborted(t.id)];
        QuietRelease(Release(locks, []), t.id, held);
        ReleaseHeld(t.id, held, false);
        return;
      }
      WriteAll(t, data);
      // Phase 2: the shrinking phase, then the commit.
      ReleaseHeld(t.id, held, true);
      timeline := timeline + [Committed(t.id)];
    }

    method Simulate2PL(txns: seq<Txn>)
      requires AllKnown(items, txns)
      modifies this
      ensures Snapshot() == Simulate(old(items), old(timeline), txns)
    {
      locks := map[];
      ghost var s0 := Snapshot();
      for k := 0 to |txns|
        invariant items.Keys == s0.items.Keys
        invariant Snapshot() == RunAll(s0, txns[..k])
      {
        assert txns[..k + 1][..k] == txns[..k];
        RunTransaction(txns[k]);
      }
      assert txns[..|txns|] == txns;
    }
  }

  // ---------------------------------------------------------------------
  // Proofs
  // ---------------------------------------------------------------------

  /** The abort path releases without logging. */
  lemma {:induction false} QuietRelease(r0: Release, txn: TxnId, held: seq<Item>)
    ensures ReleaseAll(r0, txn, held, false).events == r0.events
    decreases |held|
  {
    if held != [] {
      QuietRelease(r0, txn, held[..|held| - 1]);
    }
  }

  /** A step of the growing phase appends to whatever log it is given. */
  lemma GrowStepAnyLog(g: Growth, txn: TxnId, items: Store, op: Op)
    requires op.item in items && !g.conflict
    ensures var q := GrowStep(g.(events := []), txn, items, op);
            GrowStep(g, txn, items, op) == q.(events := g.events + q.events)
  {
  }

  /** The acquisition loop's invariant carried over one iteration. */
  lemma GrowNext(g0: Growth, txn: TxnId, items: Store, ops: seq<Op>, i: nat, before: Growth, q: Growth)
    requires Known(items, ops) && i < |ops|
    requires before == Grow(g0, txn, items, ops[..i]) && !before.conflict
    requires q == GrowStep(before.(events := []), txn, items, ops[i])
    ensures Known(items, ops[..i + 1])
    ensures Grow(g0, txn, items, ops[..i + 1]) == q.(events := before.events + q.events)
  {
    GrowStepAnyLog(before, txn, items, ops[i]);
    GrowSnoc(g0, txn, items, ops, i);
  }

  lemma GrowSnoc(g0: Growth, txn: TxnId, items: Store, ops: seq<Op>, i: nat)
    requires Known(items, ops) && i < |ops|
    ensures Known(items, ops[..i]) && Known(items, ops[..i + 1])
    ensures Grow(g0, txn, items, ops[..i + 1]) == GrowStep(Grow(g0, txn, items, ops[..i]), txn, items, ops[i])
  {
    assert ops[..i + 1][..i] == ops[..i];
  }

  /** The write loop's invariant carried over one iteration. */
  lemma WriteNext(w0: Writes, txn: TxnId, data: map<Item, int>, ops: seq<Op>, i: nat, before: Writes, q: Writes)
    requires Known(w0.items, ops) && i < |ops|
    requires before == ApplyWrites(w0, txn, data, ops[..i])
    requires q == WriteStep(before.(events := []), txn, data, ops[i])
    ensures Known(w0.items, ops[..i + 1])
    ensures ApplyWrites(w0, txn, data, ops[..i + 1]) == q.(events := before.events + q.events)
  {
    WriteStepAnyLog(before, txn, data, ops[i]);
    WritesSnoc(w0, txn, data, ops, i);
  }

  /** A write appends to whatever log it is given. */
  lemma WriteStepAnyLog(w: Writes, txn: TxnId, data: map<Item, int>, op: Op)
    requires op.item in w.items
    ensures var q := WriteStep(w.(events := []), txn, data, op);
            WriteStep(w, txn, data, op) == q.(events := w.events + q.events)
  {
    if op.Write? {
      var e := WriteStep(w, txn, data, op).events[|w.events|];
      assert [] + [e] == [e];
    } else {
      assert w.events + [] == w.events;
    }
  }

  lemma WritesSnoc(w0: Writes, txn: TxnId, data: map<Item, int>, ops: seq<Op>, i: nat)
    requires Known(w0.items, ops) && i < |ops|
    ensures Known(w0.items, ops[..i]) && Known(w0.items, ops[..i + 1])
    ensures ApplyWrites(w0, txn, data, ops[..i + 1]) == WriteStep(ApplyWrites(w0, txn, data, ops[..i]), txn, data, ops[i])
  {
    assert ops[..i + 1][..i] == ops[..i];
  }

  /** Once the acquisition loop has stopped (a conflict, or the end of the
      script), the rest of the script changes nothing. */
  lemma {:induction false} GrowSettled(g0: Growth, txn: TxnId, items: Store, ops: seq<Op>, i: nat)
    requires Known(items, ops) && i <= |ops|
    requires i == |ops| || Grow(g0, txn, items, ops[..i]).conflict
    ensures Grow(g0, txn, items, ops) == Grow(g0, txn, items, ops[..i])
    decreases |ops| - i
  {
    if i == |ops| {
      assert ops[..i] == ops;
    } else {
      assert ops[..i + 1][..i] == ops[..i];
      GrowSettled(g0, txn, items, ops, i + 1);
    }
  }

  // ---------------------------------------------------------------------
  // The growing phase against the lock table it started from
  // ---------------------------------------------------------------------

  /** The request `op` of `txn` meets an incompatible lock of another
      transaction in `locks`. */
  predicate BlockedBy(locks: LockTable, txn: TxnId, op: Op) {
    op.item in locks && Incompatible(locks[op.item], txn, ModeFor(op))
  }

  /** During the growing phase the entries of other transactions are
      untouched, every other entry belongs to this transaction, and nothing
      is removed. */
  ghost predicate GrowFrame(g: Growth, locks0: LockTable, txn: TxnId) {
    && locks0.Keys <= g.locks.Keys
    && (forall k | k in g.locks && k in locks0 && locks0[k].owner != txn :: g.locks[k] == locks0[k])
    && (forall k | k in g.locks && !(k in locks0 && locks0[k].owner != txn) :: g.locks[k].owner == txn)
  }

  lemma GrowStepFrame(g: Growth, locks0: LockTable, txn: TxnId, items: Store, op: Op)
    requires op.item in items && GrowFrame(g, locks0, txn)
    ensures GrowFrame(GrowStep(g, txn, items, op), locks0, txn)
    ensures !g.conflict ==> (GrowStep(g, txn, items, op).conflict <==> BlockedBy(locks0, txn, op))
  {
  }

  /** One lock request against an entry already in the table: refused
      exactly under the conflict rule; a READ request against another
      transaction's READ lock (or any request against a lock this
      transaction already holds in a sufficient mode) leaves the table and
      `txn_locks` as they were; an upgrade rewrites only that entry's mode,
      keeps its owner and adds nothing to `txn_locks`. */
  lemma HeldRequest(g: Growth, txn: TxnId, items: Store, op: Op)
    requires op.item in items && op.item in g.locks && !g.conflict
    ensures var g2 := GrowStep(g, txn, items, op);
            var current := g.locks[op.item];
            && (g2.conflict <==> Incompatible(current, txn, ModeFor(op)))
            && g2.held == g.held
            && (current.mode == ReadLock && op.Read? ==> g2.locks == g.locks && !g2.conflict)
            && (!g2.conflict && current.owner == txn && current.mode == ReadLock && op.Write? ==>
                  g2.locks == g.locks[op.item := Lock(current.owner, WriteLock)])
            && (current.owner == txn && current.mode == WriteLock ==> g2.locks == g.locks)
  {
  }

  /** A request for a free item takes the lock in the requested mode and
      lists the item in `txn_locks`. */
  lemma FreeRequest(g: Growth, txn: TxnId, items: Store, op: Op)
    requires op.item in items && op.item !in g.locks && !g.conflict
    ensures var g2 := GrowStep(g, txn, items, op);
            && !g2.conflict
            && g2.locks == g.locks[op.item := Lock(txn, ModeFor(op))]
            && g2.held == g.held + [op.item]
  {
  }

  /** A transaction's growing phase ends in a conflict exactly when one of
      its requests meets an incompatible lock that another transaction held
      in the table the transaction started from. */
  lemma {:induction false} GrowConflict(locks0: LockTable, txn: TxnId, items: Store, ops: seq<Op>)
    requires Known(items, ops)
    ensures GrowFrame(Grow(Start(locks0), txn, items, ops), locks0, txn)
    ensures Grow(Start(locks0), txn, items, ops).conflict
            <==> exists j | 0 <= j < |ops| :: BlockedBy(locks0, txn, ops[j])
    decreases |ops|
  {
    if ops != [] {
      var ops', op := ops[..|ops| - 1], ops[|ops| - 1];
      GrowConflict(locks0, txn, items, ops');
      var g' := Grow(Start(locks0), txn, items, ops');
      GrowStepFrame(g', locks0, txn, items, op);
      BlockedSnoc(locks0, txn, ops, ops');
    }
  }

  lemma BlockedSnoc(locks0: LockTable, txn: TxnId, ops: seq<Op>, ops': seq<Op>)
    requires ops != [] && ops' == ops[..|ops| - 1]
    ensures (exists j | 0 <= j < |ops| :: BlockedBy(locks0, txn, ops[j]))
            <==> (exists j | 0 <= j < |ops'| :: BlockedBy(locks0, txn, ops'[j]))
                 || BlockedBy(locks0, txn, ops[|ops| - 1])
  {
    assert forall j | 0 <= j < |ops'| :: ops'[j] == ops[j];
  }

  lemma ReadsItemSnoc(ops: seq<Op>, k: Item)
    requires ops != []
    ensures ReadsItem(ops, k) <==> ReadsItem(ops[..|ops| - 1], k) || ops[|ops| - 1] == Read(k)
  {
    var ops' := ops[..|ops| - 1];
    assert forall j | 0 <= j < |ops'| :: ops'[j] == ops[j];
  }

  /** What one step does to `txn_data`: a read that is not refused records
      the stored value. */
  lemma GrowStepData(g: Growth, txn: TxnId, items: Store, op: Op)
    requires op.item in items
    ensures var g2 := GrowStep(g, txn, items, op);
            && (g.conflict ==> g2 == g)
            && g2.data == (if !g2.conflict && op.Read? then g.data[op.item := items[op.item]] else g.data)
  {
  }

  /** Without a conflict the phase has read every item the script reads,
      and each read returned the stored value (nothing is written yet). */
  lemma {:induction false} GrowData(locks0: LockTable, txn: TxnId, items: Store, ops: seq<Op>)
    requires Known(items, ops)
    ensures var g := Grow(Start(locks0), txn, items, ops);
            && (forall k | k in g.data :: k in items && g.data[k] == items[k])
            && (!g.conflict ==> forall k :: k in g.data <==> ReadsItem(ops, k))
    decreases |ops|
  {
    if ops != [] {
      var ops', op := ops[..|ops| - 1], ops[|ops| - 1];
      GrowData(locks0, txn, items, ops');
      var g' := Grow(Start(locks0), txn, items, ops');
      GrowStepData(g', txn, items, op);
      forall k {
        ReadsItemSnoc(ops, k);
      }
    }
  }

  /** What one step adds to the log: at most two entries, one conflict
      exactly when this step stops the phase, no abort, release or write. */
  lemma GrowStepEvents(g: Growth, txn: TxnId, items: Store, op: Op)
    requires op.item in items
    ensures var g2 := GrowStep(g, txn, items, op);
            && (g.conflict ==> g2.conflict)
            && |g.events| <= |g2.events|
            && g2.events[..|g.events|] == g.events
            && var added := g2.events[|g.events|..];
               && Count(added, Conflict) == (if g2.conflict && !g.conflict then 1 else 0)
               && Count(added, Abort) == 0
               && (forall i | 0 <= i < |added| :: !added[i].Released? && !added[i].Wrote?)
  {
    var g2 := GrowStep(g, txn, items, op);
    var added := g2.events[|g.events|..];
    assert |added| <= 2;
    if |added| == 2 {
      assert added[..1][..0] == [];
    } else if |added| == 1 {
      assert added[..0] == [];
    }
  }

  /** The phase logs exactly one conflict when it stops on one, never an
      abort, a release or a write. */
  lemma {:induction false} GrowEvents(locks0: LockTable, txn: TxnId, items: Store, ops: seq<Op>)
    requires Known(items, ops)
    ensures var g := Grow(Start(locks0), txn, items, ops);
            && Count(g.events, Conflict) == (if g.conflict then 1 else 0)
            && Count(g.events, Abort) == 0
            && (forall i | 0 <= i < |g.events| :: !g.events[i].Released? && !g.events[i].Wrote?)
    decreases |ops|
  {
    if ops != [] {
      var ops', op := ops[..|ops| - 1], ops[|ops| - 1];
      GrowEvents(locks0, txn, items, ops');
      var g' := Grow(Start(locks0), txn, items, ops');
      GrowStepEvents(g', txn, items, op);
      var g := GrowStep(g', txn, items, op);
      EventsGrow(g'.events, g.events, g'.conflict, g.conflict);
    }
  }

  /** The log of the growing phase extended by one step keeps its shape. */
  lemma EventsGrow(before: seq<Event>, after: seq<Event>, stopped: bool, stops: bool)
    requires |before| <= |after| && after[..|before|] == before && (stopped ==> stops)
    requires Count(before, Conflict) == (if stopped then 1 else 0) && Count(before, Abort) == 0
    requires forall i | 0 <= i < |before| :: !before[i].Released? && !before[i].Wrote?
    requires var added := after[|before|..];
             && Count(added, Conflict) == (if stops && !stopped then 1 else 0)
             && Count(added, Abort) == 0
             && (forall i | 0 <= i < |added| :: !added[i].Released? && !added[i].Wrote?)
    ensures Count(after, Conflict) == (if stops then 1 else 0) && Count(after, Abort) == 0
    ensures forall i | 0 <= i < |after| :: !after[i].Released? && !after[i].Wrote?
  {
    var added := after[|before|..];
    assert after == before + added;
    CountAppend(before, added, Conflict);
    CountAppend(before, added, Abort);
    forall i | |before| <= i < |after|
      ensures !after[i].Released? && !after[i].Wrote?
    {
      assert after[i] == added[i - |before|];
    }
  }

  // ---------------------------------------------------------------------
  // Releases: the transaction leaves the table as it found it
  // ---------------------------------------------------------------------

  /** No entry of the table belongs to `txn`. */
  predicate NoneOwnedBy(locks: LockTable, txn: TxnId) {
    forall k | k in locks :: locks[k].owner != txn
  }

  /** `txn_locks` never lists an item twice, lists only items that were
      free when the transaction started, and together with the starting
      table it spans the current table. */
  ghost predicate HeldFrame(g: Growth, locks0: LockTable) {
    && (forall i, j | 0 <= i < j < |g.held| :: g.held[i] != g.held[j])
    && (forall i | 0 <= i < |g.held| :: g.held[i] !in locks0)
    && (forall k :: k in g.locks <==> k in locks0 || k in g.held)
  }

  lemma GrowStepHeld(g: Growth, locks0: LockTable, txn: TxnId, items: Store, op: Op)
    requires op.item in items && HeldFrame(g, locks0) && GrowFrame(g, locks0, txn)
    ensures HeldFrame(GrowStep(g, txn, items, op), locks0)
  {
    var g2 := GrowStep(g, txn, items, op);
    if !g.conflict && op.item !in g.locks {
      assert g2.held == g.held + [op.item];
    } else {
      assert g2.held == g.held;
    }
  }

  lemma {:induction false} GrowHeld(locks0: LockTable, txn: TxnId, items: Store, ops: seq<Op>)
    requires Known(items, ops)
    ensures HeldFrame(Grow(Start(locks0), txn, items, ops), locks0)
    decreases |ops|
  {
    if ops != [] {
      var ops', op := ops[..|ops| - 1], ops[|ops| - 1];
      GrowHeld(locks0, txn, items, ops');
      GrowConflict(locks0, txn, items, ops');
      GrowStepHeld(Grow(Start(locks0), txn, items, ops'), locks0, txn, items, op);
    }
  }

  /** Releasing a list of items drops exactly the listed entries the
      transaction owns, and nothing else; each drop logs one release when
      logging. */
  lemma {:induction false} ReleaseAllEffect(locks: LockTable, txn: TxnId, held: seq<Item>, log: bool)
    ensures var r := ReleaseAll(Release(locks, []), txn, held, log);
            && (forall k :: k in r.locks <==> k in locks && !(k in held && locks[k].owner == txn))
            && (forall k | k in r.locks :: r.locks[k] == locks[k])
            && (forall i | 0 <= i < |r.events| :: r.events[i].Released?)
            && (!log ==> r.events == [])
    decreases |held|
  {
    if held != [] {
      var held' := held[..|held| - 1];
      ReleaseAllEffect(locks, txn, held', log);
      forall k
        ensures k in held <==> k in held' || k == held[|held| - 1]
      {
        assert held == held' + [held[|held| - 1]];
      }
    }
  }

  /** Commit or abort, a transaction that held nothing when it started
      leaves the lock table exactly as it found it: every entry it acquired
      is released, and no other entry was touched. */
  lemma RestoresLockTable(s: State, t: Txn)
    requires Known(s.items, t.ops) && NoneOwnedBy(s.locks, t.id)
    ensures RunTxn(s, t).locks == s.locks
  {
    var g := Grow(Start(s.locks), t.id, s.items, t.ops);
    GrowConflict(s.locks, t.id, s.items, t.ops);
    GrowHeld(s.locks, t.id, s.items, t.ops);
    var log := !g.conflict;
    ReleaseAllEffect(g.locks, t.id, g.held, log);
    var r := ReleaseAll(Release(g.locks, []), t.id, g.held, log);
    assert r.locks.Keys == s.locks.Keys;
    assert RunTxn(s, t).locks == r.locks;
  }

  // ---------------------------------------------------------------------
  // Writes
  // ---------------------------------------------------------------------

  /** The value the write phase leaves in one row: untouched when the script
      does not write it; otherwise the read value plus the last delta when
      the transaction read it (every write starts again from that value),
      else the stored value plus all deltas (each write starts from the
      previous one). */
  function WrittenValue(stored: int, read: Option<int>, ds: seq<int>): int {
    if ds == [] then stored
    else if read.Some? then read.value + ds[|ds| - 1]
    else stored + Sum(ds)
  }

  lemma {:induction false} WriteValues(items: Store, txn: TxnId, data: map<Item, int>, ops: seq<Op>, k: Item)
    requires Known(items, ops) && k in items
    ensures ApplyWrites(Writes(items, []), txn, data, ops).items[k]
            == WrittenValue(items[k], if k in data then Some(data[k]) else None, Deltas(ops, k))
    decreases |ops|
  {
    if ops != [] {
      var ops', op := ops[..|ops| - 1], ops[|ops| - 1];
      var read := if k in data then Some(data[k]) else None;
      WriteValues(items, txn, data, ops', k);
      var w' := ApplyWrites(Writes(items, []), txn, data, ops');
      assert ApplyWrites(Writes(items, []), txn, data, ops) == WriteStep(w', txn, data, op);
      if op.Write? && op.item == k {
        assert Deltas(ops, k) == Deltas(ops', k) + [op.delta];
        WrittenValueSnoc(items[k], read, Deltas(ops', k), op.delta);
      } else {
        assert Deltas(ops, k) == Deltas(ops', k) + [];
        assert Deltas(ops', k) + [] == Deltas(ops', k);
      }
    }
  }

  /** One more write of `d` starts from the value read, or else from the
      value the earlier writes left. */
  lemma WrittenValueSnoc(stored: int, read: Option<int>, ds: seq<int>, d: int)
    ensures WrittenValue(stored, read, ds + [d])
            == (if read.Some? then read.value else WrittenValue(stored, read, ds)) + d
  {
    assert (ds + [d])[..|ds|] == ds;
  }

  /** Every event of `evs` is a write record. */
  predicate AllWrote(evs: seq<Event>) {
    forall i | 0 <= i < |evs| :: evs[i].Wrote?
  }

  /** The write phase logs nothing but write records. */
  lemma {:induction false} WriteEvents(w0: Writes, txn: TxnId, data: map<Item, int>, ops: seq<Op>)
    requires Known(w0.items, ops)
    requires AllWrote(w0.events)
    ensures AllWrote(ApplyWrites(w0, txn, data, ops).events)
    decreases |ops|
  {
    if ops != [] {
      var ops' := ops[..|ops| - 1];
      WriteEvents(w0, txn, data, ops');
    }
  }


  // ---------------------------------------------------------------------
  // One transaction: commit or abort
  // ---------------------------------------------------------------------

  /** Some request of `t` meets an incompatible lock another transaction
      holds in the table `t` starts from. */
  predicate Aborts(s: State, t: Txn) {
    exists j | 0 <= j < |t.ops| :: BlockedBy(s.locks, t.id, t.ops[j])
  }

  /** The value a committed transaction leaves in each row. */
  function CommitValues(items: Store, t: Txn): (r: Store)
    ensures r.Keys == items.Keys
  {
    map k | k in items :: WrittenValue(items[k], if ReadsItem(t.ops, k) then Some(items[k]) else None, Deltas(t.ops, k))
  }

  /** The entries one transaction appends to the timeline. */
  function Added(s: State, t: Txn): seq<Event>
    requires Known(s.items, t.ops)
  {
    var r := RunTxn(s, t);
    if |s.timeline| <= |r.timeline| then r.timeline[|s.timeline|..] else []
  }

  /** Strict two-phase locking as seen on the timeline: once a lock has been
      released, no lock is acquired or upgraded and no row is written. */
  predicate TwoPhase(tl: seq<Event>) {
    forall i, j | 0 <= i < j < |tl| && tl[i].Released? ::
      !tl[j].Acquired? && !tl[j].Upgraded? && !tl[j].Wrote?
  }

  /** The log of an aborted transaction: its start, the growing phase up to
      the refused request, its abort. */
  lemma AbortLog(id: TxnId, grown: seq<Event>)
    requires Count(grown, Conflict) == 1 && Count(grown, Abort) == 0
    requires forall i | 0 <= i < |grown| :: !grown[i].Released?
    ensures var added := [Started(id)] + grown + [Aborted(id)];
            Count(added, Conflict) == 2 && Count(added, Abort) == 1 && TwoPhase(added)
  {
    CountAround(id, grown, Conflict);
    CountAround(id, grown, Abort);
    NoReleaseAround(id, grown);
  }

  /** Counting over an aborted transaction's log: its start mentions
      nothing, its abort mentions both markers. */
  lemma CountAround(id: TxnId, grown: seq<Event>, m: Marker)
    ensures Count([Started(id)] + grown + [Aborted(id)], m) == Count(grown, m) + 1
  {
    CountAppend([Started(id)], grown, m);
    CountAppend([Started(id)] + grown, [Aborted(id)], m);
    CountOne(Started(id), m);
    CountOne(Aborted(id), m);
  }

  /** Without a release, an aborted transaction's log is two-phase. */
  lemma NoReleaseAround(id: TxnId, grown: seq<Event>)
    requires forall i | 0 <= i < |grown| :: !grown[i].Released?
    ensures TwoPhase([Started(id)] + grown + [Aborted(id)])
  {
    var added := [Started(id)] + grown + [Aborted(id)];
    forall i | 0 <= i < |added|
      ensures !added[i].Released?
    {
      if 0 < i < |added| - 1 {
        assert added[i] == grown[i - 1];
      }
    }
  }

  /** A log whose releases all come after everything else is two-phase. */
  lemma ReleasesLast(before: seq<Event>, after: seq<Event>)
    requires forall i | 0 <= i < |before| :: !before[i].Released?
    requires forall i | 0 <= i < |after| :: after[i].Released? || after[i].Committed?
    ensures TwoPhase(before + after)
  {
    var tl := before + after;
    forall i, j | 0 <= i < j < |tl| && tl[i].Released?
      ensures !tl[j].Acquired? && !tl[j].Upgraded? && !tl[j].Wrote?
    {
      assert tl[j] == after[j - |before|];
    }
  }

  lemma NoReleaseAppend(a: seq<Event>, b: seq<Event>)
    requires forall i | 0 <= i < |a| :: !a[i].Released?
    requires forall i | 0 <= i < |b| :: !b[i].Released?
    ensures forall i | 0 <= i < |a + b| :: !(a + b)[i].Released?
  {
    forall i | 0 <= i < |a + b|
      ensures !(a + b)[i].Released?
    {
      if i >= |a| {
        assert (a + b)[i] == b[i - |a|];
      }
    }
  }

  /** The log of a committed transaction: its start, a growing phase that
      counted no conflict, write records, release records, its commit. */
  lemma CommitLog(id: TxnId, grown: seq<Event>, written: seq<Event>, released: seq<Event>)
    requires Count(grown, Conflict) == 0
    requires forall i | 0 <= i < |grown| :: !grown[i].Released? && !grown[i].Wrote?
    requires AllWrote(written)
    requires forall i | 0 <= i < |released| :: released[i].Released?
    ensures var added := [Started(id)] + grown + written + released + [Committed(id)];
            Quiet(added) && Count(added, Conflict) == 0 && Count(added, Abort) == 0 && TwoPhase(added)
  {
    var before := [Started(id)] + grown + written;
    var after := released + [Committed(id)];
    CommitHead(id, grown, written);
    CommitTail(id, released);
    QuietAppend(before, after);
    ReleasesLast(before, after);
    LogAppend(before, released, [Committed(id)]);
    QuietCounts(before + after);
  }

  /** What a committed transaction logs before its releases. */
  lemma CommitHead(id: TxnId, grown: seq<Event>, written: seq<Event>)
    requires Count(grown, Conflict) == 0
    requires forall i | 0 <= i < |grown| :: !grown[i].Released? && !grown[i].Wrote?
    requires AllWrote(written)
    ensures var before := [Started(id)] + grown + written;
            Quiet(before) && forall i | 0 <= i < |before| :: !before[i].Released?
  {
    NoConflictQuiet(grown);
    QuietAppend([Started(id)], grown);
    QuietAppend([Started(id)] + grown, written);
    NoReleaseAppend([Started(id)], grown);
    NoReleaseAppend([Started(id)] + grown, written);
  }

  /** What a committed transaction logs from its first release on. */
  lemma CommitTail(id: TxnId, released: seq<Event>)
    requires forall i | 0 <= i < |released| :: released[i].Released?
    ensures var after := released + [Committed(id)];
            Quiet(after) && forall i | 0 <= i < |after| :: after[i].Released? || after[i].Committed?
  {
    var after := released + [Committed(id)];
    forall i | 0 <= i < |after|
      ensures after[i].Released? || after[i].Committed?
    {
      if i < |released| {
        assert after[i] == released[i];
      }
    }
  }

  /** An aborted transaction leaves the items table as it was, logs its
      start, the phase up to the refused request and its abort, and so two
      entries that mention a conflict (the refused request and the abort
      itself) and one that mentions an abort; it releases nothing on the
      log. */
  lemma AbortOutcome(s: State, t: Txn)
    requires Known(s.items, t.ops) && Aborts(s, t)
    ensures var r := RunTxn(s, t);
            && r.items == s.items
            && r.timeline == s.timeline + Added(s, t)
            && var added := Added(s, t);
               && |added| >= 2 && added[0] == Started(t.id) && added[|added| - 1] == Aborted(t.id)
               && Count(added, Conflict) == 2 && Count(added, Abort) == 1
               && TwoPhase(added)
  {
    var g := Grow(Start(s.locks), t.id, s.items, t.ops);
    GrowConflict(s.locks, t.id, s.items, t.ops);
    GrowEvents(s.locks, t.id, s.items, t.ops);
    var added := [Started(t.id)] + g.events + [Aborted(t.id)];
    var r := RunTxn(s, t);
    assert r.timeline == s.timeline + added;
    assert r.timeline[|s.timeline|..] == added;
    AbortLog(t.id, g.events);
  }

  /** A committed transaction leaves in every row the value `CommitValues`
      describes, logs its start, the growing phase, the writes, the releases
      and its commit, strictly in two phases, and nothing on its log
      mentions a conflict or an abort. */
  lemma CommitOutcome(s: State, t: Txn)
    requires Known(s.items, t.ops) && !Aborts(s, t)
    ensures var r := RunTxn(s, t);
            && r.items == CommitValues(s.items, t)
            && r.timeline == s.timeline + Added(s, t)
            && var added := Added(s, t);
               && |added| >= 2 && added[0] == Started(t.id) && added[|added| - 1] == Committed(t.id)
               && Quiet(added) && Count(added, Conflict) == 0 && Count(added, Abort) == 0
               && TwoPhase(added)
  {
    var g := Grow(Start(s.locks), t.id, s.items, t.ops);
    var w := ApplyWrites(Writes(s.items, []), t.id, g.data, t.ops);
    var rel := ReleaseAll(Release(g.locks, []), t.id, g.held, true);
    var added := [Started(t.id)] + g.events + w.events + rel.events + [Committed(t.id)];
    GrowConflict(s.locks, t.id, s.items, t.ops);
    CommitAdded(s.timeline, t.id, g.events, w.events, rel.events);
    assert Quiet(added) && Count(added, Conflict) == 0 && Count(added, Abort) == 0 && TwoPhase(added) by {
      GrowEvents(s.locks, t.id, s.items, t.ops);
      WriteEvents(Writes(s.items, []), t.id, g.data, t.ops);
      ReleaseAllEffect(g.locks, t.id, g.held, true);
      CommitLog(t.id, g.events, w.events, rel.events);
    }
    CommitItems(s, t);
  }

  /** A committed transaction's entries, appended to the timeline. */
  lemma CommitAdded(base: seq<Event>, id: TxnId, grown: seq<Event>, written: seq<Event>, released: seq<Event>)
    ensures var added := [Started(id)] + grown + written + released + [Committed(id)];
            && base + [Started(id)] + grown + written + released + [Committed(id)] == base + added
            && (base + added)[|base|..] == added
            && |added| >= 2 && added[0] == Started(id) && added[|added| - 1] == Committed(id)
  {
    var added := [Started(id)] + grown + written + released + [Committed(id)];
    LogAppend(base, [Started(id)], grown);
    LogAppend(base, [Started(id)] + grown, written);
    LogAppend(base, [Started(id)] + grown + written, released);
    LogAppend(base, [Started(id)] + grown + written + released, [Committed(id)]);
    assert (base + added)[|base|..] == added;
  }

  /** The rows a committed transaction leaves. */
  lemma CommitItems(s: State, t: Txn)
    requires Known(s.items, t.ops) && !Aborts(s, t)
    ensures RunTxn(s, t).items == CommitValues(s.items, t)
  {
    var g := Grow(Start(s.locks), t.id, s.items, t.ops);
    GrowConflict(s.locks, t.id, s.items, t.ops);
    GrowData(s.locks, t.id, s.items, t.ops);
    var r := RunTxn(s, t);
    forall k | k in s.items
      ensures r.items[k] == CommitValues(s.items, t)[k]
    {
      WriteValues(s.items, t.id, g.data, t.ops, k);
    }
  }

  // ---------------------------------------------------------------------
  // The whole run
  // ---------------------------------------------------------------------

  /** The items table after committing `txns` one after another. */
  function SerialItems(items: Store, txns: seq<Txn>): (r: Store)
    ensures r.Keys == items.Keys
    decreases |txns|
  {
    if txns == [] then items
    else CommitValues(SerialItems(items, txns[..|txns| - 1]), txns[|txns| - 1])
  }

  /** Run one after another from an empty lock table, no transaction ever
      meets a lock: the table is empty again after each one, every
      transaction commits with the values `CommitValues` describes, and
      nothing the run logs mentions a conflict or an abort. */
  lemma {:induction false} SerialRun(s: State, txns: seq<Txn>)
    requires s.locks == map[] && AllKnown(s.items, txns)
    ensures var r := RunAll(s, txns);
            && r.locks == map[]
            && r.items == SerialItems(s.items, txns)
            && |s.timeline| <= |r.timeline| && r.timeline[..|s.timeline|] == s.timeline
            && Quiet(r.timeline[|s.timeline|..])
    decreases |txns|
  {
    if txns == [] {
      assert s.timeline[|s.timeline|..] == [];
    } else {
      var txns', t := txns[..|txns| - 1], txns[|txns| - 1];
      assert AllKnown(s.items, txns');
      SerialRun(s, txns');
      var s' := RunAll(s, txns');
      assert Known(s'.items, t.ops);
      FreeTableCommits(s', t);
      QuietExtend(s.timeline, s'.timeline, Added(s', t));
    }
  }

  /** A transaction that starts from an empty lock table commits and leaves
      the table empty. */
  lemma FreeTableCommits(s: State, t: Txn)
    requires s.locks == map[] && Known(s.items, t.ops)
    ensures var r := RunTxn(s, t);
            && r.locks == map[]
            && r.items == CommitValues(s.items, t)
            && r.timeline == s.timeline + Added(s, t)
            && Quiet(Added(s, t))
  {
    assert !Aborts(s, t);
    RestoresLockTable(s, t);
    CommitOutcome(s, t);
  }

  lemma QuietExtend(base: seq<Event>, tl: seq<Event>, more: seq<Event>)
    requires |base| <= |tl| && tl[..|base|] == base && Quiet(tl[|base|..]) && Quiet(more)
    ensures var tl' := tl + more;
            |base| <= |tl'| && tl'[..|base|] == base && Quiet(tl'[|base|..])
  {
    assert (tl + more)[|base|..] == tl[|base|..] + more;
    QuietAppend(tl[|base|..], more);
  }

  /** `_simulate_2pl` on the sequential workload: no conflicts and no
      aborts are ever logged, and the lock table ends empty. */
  lemma SimulateSerial(items: Store, timeline: seq<Event>, txns: seq<Txn>)
    requires AllKnown(items, txns)
    ensures var r := Simulate(items, timeline, txns);
            && r.locks == map[]
            && r.items == SerialItems(items, txns)
            && |timeline| <= |r.timeline| && r.timeline[..|timeline|] == timeline
            && Count(r.timeline[|timeline|..], Conflict) == 0
            && Count(r.timeline[|timeline|..], Abort) == 0
  {
    var s := State(map[], items, timeline);
    SerialRun(s, txns);
    QuietCounts(RunAll(s, txns).timeline[|timeline|..]);
  }
}
