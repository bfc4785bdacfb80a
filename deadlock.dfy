/** `DeadlockDetection.detect_deadlocks`: insert a script of lock rows into
    the (cleared) `locks` table, one numbered step per row; build the
    wait-for graph from the WAITING rows to the holder of the resource's
    EXCLUSIVE row; report the simple cycles of that graph; abort the first
    member of the first cycle by deleting its lock rows. */
module Deadlock {
  import opened Timeline

  datatype LockType = Exclusive | Waiting

  /** A row of the `locks` table (its row id and timestamp left out). */
  datatype LockRow = LockRow(txn: TxnId, resource: int, kind: LockType)

  /** A `waits_for` record, one per edge added to the graph. */
  datatype WaitEdge = WaitEdge(waiting: TxnId, holding: TxnId, resource: int)

  /** A reported deadlock: the cycle and its description, the cycle's
      members followed by the first one again. */
  datatype DeadlockRecord = DeadlockRecord(cycle: seq<TxnId>, closed: seq<TxnId>)

  /** One entry of `steps`; each constructor stands for one action text. */
  datatype Step =
    | Acquires(number: nat, row: LockRow, resourceName: string)
      // "Transaction T acquires exclusive lock on R"
    | Waits(number: nat, row: LockRow, resourceName: string, heldBy: Option<TxnId>)
      // "Transaction T waits for lock on R[ (held by H)]"
    | DeadlockFound(number: nat, closed: seq<TxnId>)
      // "Deadlock detected: T1 → ... → T1"
    | Resolved(number: nat, victim: TxnId)
      // "Deadlock resolved by aborting Transaction T (victim selection)"

  datatype Report = Report(
    transactions: seq<TxnId>,
    locks: seq<LockRow>,
    waitsFor: seq<WaitEdge>,
    deadlocks: seq<DeadlockRecord>,
    steps: seq<Step>)

  /** The report, and what is left in the `locks` table afterwards. */
  datatype Outcome = Outcome(report: Report, remaining: seq<LockRow>)

  const Transactions: seq<TxnId> := [101, 102, 103, 104]

  // ---------------------------------------------------------------------
  // Queries over the lock rows
  // ---------------------------------------------------------------------

  predicate HoldsExclusive(row: LockRow, resource: int) {
    row.resource == resource && row.kind == Exclusive
  }

  /** `SELECT transaction_id FROM locks WHERE resource_id = ? AND
      lock_type = 'EXCLUSIVE'` followed by `fetchone()`: the transaction of
      the first such row, in insertion order. */
  function Holder(rows: seq<LockRow>, resource: int): (h: Option<TxnId>)
    ensures h.None? <==> forall i | 0 <= i < |rows| :: !HoldsExclusive(rows[i], resource)
    ensures h.Some? ==> exists i | 0 <= i < |rows| ::
              && HoldsExclusive(rows[i], resource) && rows[i].txn == h.value
              && forall j | 0 <= j < i :: !HoldsExclusive(rows[j], resource)
  {
    if rows == [] then None
    else if HoldsExclusive(rows[0], resource) then Some(rows[0].txn)
    else
      var h := Holder(rows[1..], resource);
      assert forall i | 1 <= i < |rows| :: rows[1..][i - 1] == rows[i];
      h
  }

  /** Every resource a row names is in the `resources` table (the name
      lookup raises otherwise). */
  predicate Named(resources: map<int, string>, rows: seq<LockRow>) {
    forall i | 0 <= i < |rows| :: rows[i].resource in resources
  }

  /** The step recorded after inserting `table[i]`; the holder lookup sees
      the rows inserted so far. */
  function LockStep(resources: map<int, string>, table: seq<LockRow>, i: nat): Step
    requires i < |table| && table[i].resource in resources
  {
    var row := table[i];
    if row.kind == Exclusive then Acquires(i + 1, row, resources[row.resource])
    else Waits(i + 1, row, resources[row.resource], Holder(table[..i + 1], row.resource))
  }

  function LockSteps(resources: map<int, string>, rows: seq<LockRow>): (r: seq<Step>)
    requires Named(resources, rows)
    ensures |r| == |rows|
    decreases |rows|
  {
    if rows == [] then []
    else LockSteps(resources, rows[..|rows| - 1]) + [LockStep(resources, rows, |rows| - 1)]
  }

  /** Inserting one more row adds its step at the end. */
  lemma LockStepsSnoc(resources: map<int, string>, ops: seq<LockRow>, i: nat)
    requires Named(resources, ops) && i < |ops|
    ensures Named(resources, ops[..i]) && Named(resources, ops[..i + 1])
    ensures LockSteps(resources, ops[..i + 1]) == LockSteps(resources, ops[..i]) + [LockStep(resources, ops[..i + 1], i)]
  {
    assert ops[..i + 1][..i] == ops[..i];
  }

  /** The edge a row adds to the wait-for graph built over `table`. */
  function EdgeOf(table: seq<LockRow>, row: LockRow): (e: Option<WaitEdge>)
    ensures e.Some? <==> row.kind == Waiting && Holder(table, row.resource).Some?
    ensures e.Some? ==> e.value == WaitEdge(row.txn, Holder(table, row.resource).value, row.resource)
  {
    if row.kind != Waiting then None
    else
      match Holder(table, row.resource)
      case Some(h) => Some(WaitEdge(row.txn, h, row.resource))
      case None => None
  }

  /** The `waits_for` records of the rows `rows`, holders looked up in
      `table`, in row order. */
  function EdgesFrom(table: seq<LockRow>, rows: seq<LockRow>): seq<WaitEdge>
    decreases |rows|
  {
    if rows == [] then []
    else
      var e := EdgeOf(table, rows[|rows| - 1]);
      EdgesFrom(table, rows[..|rows| - 1]) + (if e.Some? then [e.value] else [])
  }

  function Edges(table: seq<LockRow>): seq<WaitEdge> {
    EdgesFrom(table, table)
  }

  /** An edge is recorded exactly for a WAITING row whose resource has an
      EXCLUSIVE holder, from the waiter to that holder, for that resource. */
  lemma {:induction false} EdgesMembership(table: seq<LockRow>, rows: seq<LockRow>, e: WaitEdge)
    ensures e in EdgesFrom(table, rows) <==> exists i | 0 <= i < |rows| :: EdgeOf(table, rows[i]) == Some(e)
    decreases |rows|
  {
    if rows != [] {
      var rows' := rows[..|rows| - 1];
      EdgesMembership(table, rows', e);
      if e in EdgesFrom(table, rows) && e !in EdgesFrom(table, rows') {
        assert EdgeOf(table, rows[|rows| - 1]) == Some(e);
      }
      if i :| 0 <= i < |rows'| && EdgeOf(table, rows[i]) == Some(e) {
        assert rows'[i] == rows[i];
      }
    }
  }

  /** `DELETE FROM locks WHERE transaction_id = ?`. */
  function Without(rows: seq<LockRow>, victim: TxnId): (r: seq<LockRow>)
    ensures forall x :: x in r <==> x in rows && x.txn != victim
    ensures |r| <= |rows|
    decreases |rows|
  {
    if rows == [] then []
    else
      var last := rows[|rows| - 1];
      Without(rows[..|rows| - 1], victim) + (if last.txn == victim then [] else [last])
  }

  /** The deletion removes every row of the victim and keeps every other
      row as often as it occurred. */
  lemma {:induction false} WithoutCounts(rows: seq<LockRow>, victim: TxnId)
    ensures forall x :: multiset(Without(rows, victim))[x] == if x.txn == victim then 0 else multiset(rows)[x]
    decreases |rows|
  {
    if rows != [] {
      var last := rows[|rows| - 1];
      WithoutCounts(rows[..|rows| - 1], victim);
      assert rows == rows[..|rows| - 1] + [last];
    }
  }

  /** One more row at the end is kept or dropped on its own. */
  lemma WithoutSnoc(rows: seq<LockRow>, last: LockRow, victim: TxnId)
    ensures Without(rows + [last], victim)
         == Without(rows, victim) + (if last.txn == victim then [] else [last])
  {
    assert (rows + [last])[..|rows + [last]| - 1] == rows;
  }

  /** The deletion keeps the other rows in table order: deleting from two
      stretches of rows one after the other is deleting from both. */
  lemma {:induction false} WithoutAppend(a: seq<LockRow>, b: seq<LockRow>, victim: TxnId)
    ensures Without(a + b, victim) == Without(a, victim) + Without(b, victim)
    decreases |b|
  {
    if b == [] {
      assert a + b == a;
    } else {
      var b', last := b[..|b| - 1], b[|b| - 1];
      var tail := if last.txn == victim then [] else [last];
      assert b == b' + [last];
      assert a + b == (a + b') + [last];
      WithoutSnoc(a + b', last, victim);
      WithoutSnoc(b', last, victim);
      WithoutAppend(a, b', victim);
      RowsAppend(Without(a, victim), Without(b', victim), tail);
    }
  }

  lemma RowsAppend(a: seq<LockRow>, b: seq<LockRow>, c: seq<LockRow>)
    ensures a + b + c == a + (b + c)
  {
  }

  /** After the victim's rows are deleted, no edge of the rebuilt graph
      leaves or enters the victim. */
  lemma VictimIsolated(rows: seq<LockRow>, victim: TxnId, e: WaitEdge)
    requires e in Edges(Without(rows, victim))
    ensures e.waiting != victim && e.holding != victim
  {
    var table := Without(rows, victim);
    EdgesMembership(table, table, e);
    var i :| 0 <= i < |table| && EdgeOf(table, table[i]) == Some(e);
    assert table[i] in table;
    var j :| 0 <= j < |table| && HoldsExclusive(table[j], e.resource) && table[j].txn == e.holding
      && forall k | 0 <= k < j :: !HoldsExclusive(table[k], e.resource);
    assert table[j] in table;
  }

  // ---------------------------------------------------------------------
  // Cycles
  // ---------------------------------------------------------------------

  predicate HasEdge(edges: seq<WaitEdge>, a: TxnId, b: TxnId) {
    exists i | 0 <= i < |edges| :: edges[i].waiting == a && edges[i].holding == b
  }

  /** The member after `c[i]` around the cycle. */
  function Succ(c: seq<TxnId>, i: nat): TxnId
    requires i < |c|
  {
    if i + 1 < |c| then c[i + 1] else c[0]
  }

  /** A simple cycle of the wait-for graph: distinct transactions, each
      waiting for the next and the last for the first. */
  predicate SimpleCycle(edges: seq<WaitEdge>, c: seq<TxnId>) {
    && c != []
    && (forall i, j | 0 <= i < j < |c| :: c[i] != c[j])
    && (forall i | 0 <= i < |c| :: HasEdge(edges, c[i], Succ(c, i)))
  }

  /** `d` is the cycle `c` started at another member. */
  predicate Rotation(c: seq<TxnId>, d: seq<TxnId>) {
    exists k | 0 <= k < |c| :: d == c[k..] + c[..k]
  }

  /** What the cycle enumeration of the graph library promises: it lists
      simple cycles of the graph, every simple cycle is listed, and none is
      listed twice (each cycle once, starting at any of its members). */
  ghost predicate CyclesOf(edges: seq<WaitEdge>, cycles: seq<seq<TxnId>>) {
    && (forall j | 0 <= j < |cycles| :: SimpleCycle(edges, cycles[j]))
    && (forall c | SimpleCycle(edges, c) :: exists j | 0 <= j < |cycles| :: Rotation(cycles[j], c))
    && (forall c, i, j | 0 <= i < j < |cycles| && Rotation(cycles[i], c) :: !Rotation(cycles[j], c))
  }

  predicate NonEmpty(cycles: seq<seq<TxnId>>) {
    forall j | 0 <= j < |cycles| :: cycles[j] != []
  }

  /** The description of a cycle, closed back to its first member. */
  function Closed(c: seq<TxnId>): seq<TxnId>
    requires c != []
  {
    c + [c[0]]
  }

  /** The description of a simple cycle is a closed walk of the graph that
      lists the cycle's members in order. */
  lemma ClosedWalk(edges: seq<WaitEdge>, c: seq<TxnId>)
    requires SimpleCycle(edges, c)
    ensures var w := Closed(c);
            && |w| == |c| + 1 && w[..|c|] == c && w[|c|] == w[0]
            && forall i | 0 <= i < |c| :: HasEdge(edges, w[i], w[i + 1])
  {
    var w := Closed(c);
    forall i | 0 <= i < |c|
      ensures HasEdge(edges, w[i], w[i + 1])
    {
      assert w[i] == c[i] && w[i + 1] == Succ(c, i);
    }
  }

  /** A graph whose every edge climbs a ranking of the transactions has no
      cycle. */
  lemma RankedAcyclic(edges: seq<WaitEdge>, rank: map<TxnId, int>, c: seq<TxnId>)
    requires forall i | 0 <= i < |edges| ::
               edges[i].waiting in rank && edges[i].holding in rank
               && rank[edges[i].waiting] < rank[edges[i].holding]
    ensures !SimpleCycle(edges, c)
  {
    if SimpleCycle(edges, c) {
      Climbs(edges, rank, c, |c| - 1);
    }
  }

  lemma {:induction false} Climbs(edges: seq<WaitEdge>, rank: map<TxnId, int>, c: seq<TxnId>, n: nat)
    requires forall i | 0 <= i < |edges| ::
               edges[i].waiting in rank && edges[i].holding in rank
               && rank[edges[i].waiting] < rank[edges[i].holding]
    requires SimpleCycle(edges, c) && n < |c|
    ensures c[0] in rank && c[n] in rank && rank[c[0]] + n <= rank[c[n]]
  {
    assert HasEdge(edges, c[0], Succ(c, 0));
    if n > 0 {
      Climbs(edges, rank, c, n - 1);
      assert HasEdge(edges, c[n - 1], Succ(c, n - 1));
    }
  }

  // ---------------------------------------------------------------------
  // The whole run as a function of its inputs
  // ---------------------------------------------------------------------

  /** The "Deadlock detected" steps, numbered on from `n0`. */
  function DeadlockSteps(n0: nat, cycles: seq<seq<TxnId>>): (r: seq<Step>)
    requires NonEmpty(cycles)
    ensures |r| == |cycles|
  {
    seq(|cycles|, j requires 0 <= j < |cycles| => DeadlockFound(n0 + j + 1, Closed(cycles[j])))
  }

  function Records(cycles: seq<seq<TxnId>>): (r: seq<DeadlockRecord>)
    requires NonEmpty(cycles)
    ensures |r| == |cycles|
  {
    seq(|cycles|, j requires 0 <= j < |cycles| => DeadlockRecord(cycles[j], Closed(cycles[j])))
  }

  /** `detect_deadlocks` with lock script `ops`, `cycles` standing for what
      the graph library lists for the built graph. */
  function Detected(resources: map<int, string>, ops: seq<LockRow>, cycles: seq<seq<TxnId>>): Outcome
    requires Named(resources, ops) && NonEmpty(cycles)
  {
    var found := LockSteps(resources, ops) + DeadlockSteps(|ops|, cycles);
    var report := Report(Transactions, ops, Edges(ops), Records(cycles), found);
    if cycles == [] then Outcome(report, ops)
    else
      var victim := cycles[0][0];
      Outcome(report.(steps := found + [Resolved(|found| + 1, victim)]), Without(ops, victim))
  }

  /** The outcome, assembled from its parts: the edges, the records, the
      steps and the rows left, branch by branch. */
  lemma DetectedOf(resources: map<int, string>, ops: seq<LockRow>, cycles: seq<seq<TxnId>>,
                   waitsFor: seq<WaitEdge>, records: seq<DeadlockRecord>, steps: seq<Step>, remaining: seq<LockRow>)
    requires Named(resources, ops) && NonEmpty(cycles)
    requires waitsFor == Edges(ops) && records == Records(cycles)
    requires var found := LockSteps(resources, ops) + DeadlockSteps(|ops|, cycles);
             && (cycles == [] ==> steps == found && remaining == ops)
             && (cycles != [] ==> steps == found + [Resolved(|found| + 1, cycles[0][0])] && remaining == Without(ops, cycles[0][0]))
    ensures Outcome(Report(Transactions, ops, waitsFor, records, steps), remaining) == Detected(resources, ops, cycles)
  {
  }

  predicate Numbered(steps: seq<Step>) {
    forall i | 0 <= i < |steps| :: steps[i].number == i + 1
  }

  lemma {:induction false} LockStepsNumbered(resources: map<int, string>, rows: seq<LockRow>)
    requires Named(resources, rows)
    ensures Numbered(LockSteps(resources, rows))
    decreases |rows|
  {
    if rows != [] {
      LockStepsNumbered(resources, rows[..|rows| - 1]);
    }
  }

  /** Steps are numbered 1, 2, ... across the lock, deadlock and victim
      steps; there is one step per lock row and per cycle, and a victim step
      exactly when a cycle was reported, naming the first member of the
      first cycle and deleting exactly its rows. */
  lemma DetectedSteps(resources: map<int, string>, ops: seq<LockRow>, cycles: seq<seq<TxnId>>)
    requires Named(resources, ops) && NonEmpty(cycles)
    ensures var o := Detected(resources, ops, cycles);
            && Numbered(o.report.steps)
            && |o.report.steps| == |ops| + |cycles| + (if cycles == [] then 0 else 1)
            && (cycles == [] ==> o.remaining == ops)
            && (cycles != [] ==>
                  && o.report.steps[|o.report.steps| - 1] == Resolved(|o.report.steps|, cycles[0][0])
                  && forall x :: x in o.remaining <==> x in ops && x.txn != cycles[0][0])
  {
    LockStepsNumbered(resources, ops);
  }

  // ---------------------------------------------------------------------
  // The runner, updating the `locks` table and the steps in place
  // ---------------------------------------------------------------------

  class DeadlockDetection {
    var locks: seq<LockRow>
    var steps: seq<Step>

    constructor (locks: seq<LockRow>)
      ensures this.locks == locks && steps == []
    {
      this.locks := locks;
      steps := [];
    }

    /** Insert the lock script, recording one step per row. */
    method InsertLocks(resources: map<int, string>, ops: seq<LockRow>)
      requires locks == [] && Named(resources, ops)
      modifies this
      ensures locks == ops
      ensures steps == old(steps) + LockSteps(resources, ops)
    {
      for i := 0 to |ops|
        invariant locks == ops[..i]
        invariant steps == old(steps) + LockSteps(resources, ops[..i])
      {
        ghost var prefix := ops[..i + 1];
        locks := locks + [ops[i]];
        assert locks == prefix;
        var row := ops[i];
        var step;
        if row.kind == Exclusive {
          step := Acquires(i + 1, row, resources[row.resource]);
        } else {
          step := Waits(i + 1, row, resources[row.resource], Holder(locks, row.resource));
        }
        assert step == LockStep(resources, prefix, i) by {
          assert prefix[..i + 1] == prefix;
        }
        LockStepsSnoc(resources, ops, i);
        steps := steps + [step];
      }
      assert ops[..|ops|] == ops;
    }

    /** The loop over the collected rows that builds the wait-for edges. */
    method WaitEdges() returns (w: seq<WaitEdge>)
      ensures w == Edges(locks)
    {
      w := [];
      for i := 0 to |locks|
        invariant w == EdgesFrom(locks, locks[..i])
      {
        assert locks[..i + 1][..i] == locks[..i];
        if locks[i].kind == Waiting {
          var holder := Holder(locks, locks[i].resource);
          if holder.Some? {
            w := w + [WaitEdge(locks[i].txn, holder.value, locks[i].resource)];
          }
        }
      }
      assert locks[..|locks|] == locks;
    }

    /** One record and one step per listed cycle. */
    method ReportCycles(cycles: seq<seq<TxnId>>) returns (records: seq<DeadlockRecord>)
      requires NonEmpty(cycles)
      modifies this`steps
      ensures records == Records(cycles)
      ensures steps == old(steps) + DeadlockSteps(|old(steps)|, cycles)
    {
      records := [];
      for j := 0 to |cycles|
        invariant records == Records(cycles[..j])
        invariant steps == old(steps) + DeadlockSteps(|old(steps)|, cycles[..j])
      {
        var c := cycles[j];
        records := records + [DeadlockRecord(c, c + [c[0]])];
        steps := steps + [DeadlockFound(|steps| + 1, c + [c[0]])];
      }
      assert cycles[..|cycles|] == cycles;
    }

    /** With a cycle reported, abort the first member of the first one. */
    method Resolve(cycles: seq<seq<TxnId>>)
      requires NonEmpty(cycles)
      modifies this
      ensures cycles == [] ==> locks == old(locks) && steps == old(steps)
      ensures cycles != [] ==>
                && locks == Without(old(locks), cycles[0][0])
                && steps == old(steps) + [Resolved(|old(steps)| + 1, cycles[0][0])]
    {
      if cycles != [] {
        var victim := cycles[0][0];
        var rest := [];
        for i := 0 to |locks|
          invariant rest == Without(locks[..i], victim)
        {
          assert locks[..i + 1][..i] == locks[..i];
          if locks[i].txn != victim {
            rest := rest + [locks[i]];
          }
        }
        assert locks[..|locks|] == locks;
        locks := rest;
        steps := steps + [Resolved(|steps| + 1, victim)];
      }
    }

    /** `detect_deadlocks`: clear the table, insert the script, build the
        graph, report the cycles and resolve the first. */
    method Detect(resources: map<int, string>, ops: seq<LockRow>, cycles: seq<seq<TxnId>>)
        returns (report: Report)
      requires Named(resources, ops) && NonEmpty(cycles)
      modifies this
      ensures Outcome(report, locks) == Detected(resources, ops, cycles)
    {
      locks := [];
      steps := [];
      InsertLocks(resources, ops);
      assert steps == LockSteps(resources, ops);
      var collected := locks;
      var waitsFor := WaitEdges();
      var records := ReportCycles(cycles);
      ghost var found := steps;
      assert found == LockSteps(resources, ops) + DeadlockSteps(|ops|, cycles);
      Resolve(cycles);
      report := Report(Transactions, collected, waitsFor, records, steps);
      DetectedOf(resources, ops, cycles, waitsFor, records, steps, locks);
    }
  }

  // ---------------------------------------------------------------------
  // The scripted lock rows
  // ---------------------------------------------------------------------

  /** Each of T101..T104 takes resource 1..4 exclusively, then each waits
      for the next one's resource, T104 for T101's. */
  const Script: seq<LockRow> := [
    LockRow(101, 1, Exclusive), LockRow(102, 2, Exclusive),
    LockRow(103, 3, Exclusive), LockRow(104, 4, Exclusive),
    LockRow(101, 2, Waiting), LockRow(102, 3, Waiting),
    LockRow(103, 4, Waiting), LockRow(104, 1, Waiting)]

  /** The rows `s` are the scripted rows, stated row by row so that the
      lemmas below reason from these facts rather than by evaluating the
      literal. */
  predicate IsScript(s: seq<LockRow>) {
    && |s| == 8
    && s[0] == LockRow(101, 1, Exclusive) && s[1] == LockRow(102, 2, Exclusive)
    && s[2] == LockRow(103, 3, Exclusive) && s[3] == LockRow(104, 4, Exclusive)
    && s[4] == LockRow(101, 2, Waiting) && s[5] == LockRow(102, 3, Waiting)
    && s[6] == LockRow(103, 4, Waiting) && s[7] == LockRow(104, 1, Waiting)
  }

  /** The scripted wait-for edges. */
  const Ring: seq<WaitEdge> := [WaitEdge(101, 102, 2), WaitEdge(102, 103, 3), WaitEdge(103, 104, 4), WaitEdge(104, 101, 1)]

  /** The first EXCLUSIVE row on a resource names its holder. */
  lemma HolderAt(rows: seq<LockRow>, resource: int, i: nat)
    requires i < |rows| && HoldsExclusive(rows[i], resource)
    requires forall j | 0 <= j < i :: !HoldsExclusive(rows[j], resource)
    ensures Holder(rows, resource) == Some(rows[i].txn)
  {
    var k :| 0 <= k < |rows| && HoldsExclusive(rows[k], resource) && rows[k].txn == Holder(rows, resource).value
      && forall j | 0 <= j < k :: !HoldsExclusive(rows[j], resource);
    assert k == i;
  }

  lemma EdgesSnoc(table: seq<LockRow>, rows: seq<LockRow>, i: nat)
    requires i < |rows|
    ensures EdgesFrom(table, rows[..i + 1])
            == EdgesFrom(table, rows[..i]) + (if EdgeOf(table, rows[i]).Some? then [EdgeOf(table, rows[i]).value] else [])
  {
    assert rows[..i + 1][..i] == rows[..i];
  }

  lemma {:induction false} NoWaitingNoEdges(table: seq<LockRow>, rows: seq<LockRow>)
    requires forall i | 0 <= i < |rows| :: rows[i].kind == Exclusive
    ensures EdgesFrom(table, rows) == []
    decreases |rows|
  {
    if rows != [] {
      NoWaitingNoEdges(table, rows[..|rows| - 1]);
    }
  }

  lemma ScriptHolders(s: seq<LockRow>)
    requires IsScript(s)
    ensures Holder(s, 1) == Some(101) && Holder(s, 2) == Some(102)
    ensures Holder(s, 3) == Some(103) && Holder(s, 4) == Some(104)
  {
    HolderAt(s, 1, 0);
    HolderAt(s, 2, 1);
    HolderAt(s, 3, 2);
    HolderAt(s, 4, 3);
  }

  lemma ScriptEdgesOf(s: seq<LockRow>)
    requires IsScript(s)
    ensures Edges(s) == Ring
  {
    ScriptFirstEdges(s);
    ScriptWaits(s);
    WaitingRow(s, s, 6, Ring, 2);
    WaitingRow(s, s, 7, Ring, 3);
    assert s[..8] == s && Ring[..4] == Ring;
  }

  /** The four EXCLUSIVE rows add no edge; the next two add the first two
      edges of the ring. */
  lemma ScriptFirstEdges(s: seq<LockRow>)
    requires IsScript(s)
    ensures EdgesFrom(s, s[..6]) == Ring[..2]
  {
    ScriptWaits(s);
    NoWaitingNoEdges(s, s[..4]);
    WaitingRow(s, s, 4, Ring, 0);
    WaitingRow(s, s, 5, Ring, 1);
  }

  /** Each WAITING row of the script waits for the holder of its
      resource: the edges of the ring, in order. */
  lemma ScriptWaits(s: seq<LockRow>)
    requires IsScript(s)
    ensures EdgeOf(s, s[4]) == Some(Ring[0]) && EdgeOf(s, s[5]) == Some(Ring[1])
    ensures EdgeOf(s, s[6]) == Some(Ring[2]) && EdgeOf(s, s[7]) == Some(Ring[3])
  {
    ScriptHolders(s);
  }

  /** A row with an edge adds it, the next one of `edges`. */
  lemma WaitingRow(table: seq<LockRow>, rows: seq<LockRow>, i: nat, edges: seq<WaitEdge>, k: nat)
    requires i < |rows| && k < |edges| && EdgesFrom(table, rows[..i]) == edges[..k]
    requires EdgeOf(table, rows[i]) == Some(edges[k])
    ensures EdgesFrom(table, rows[..i + 1]) == edges[..k + 1]
  {
    EdgesSnoc(table, rows, i);
    assert edges[..k + 1] == edges[..k] + [edges[k]];
  }

  lemma ScriptIs()
    ensures IsScript(Script)
  {
  }

  /** The scripted rows give the edges 101→102, 102→103, 103→104, 104→101 ... */
  lemma ScriptEdges()
    ensures Edges(Script) == Ring
  {
    ScriptIs();
    ScriptEdgesOf(Script);
  }

  /** ... which form one cycle through all four transactions, and every
      simple cycle of the graph is that one, started at some member. */
  lemma ScriptCycle()
    ensures SimpleCycle(Edges(Script), Transactions)
    ensures forall c | SimpleCycle(Edges(Script), c) :: Rotation(c, Transactions)
  {
    ScriptEdges();
    RingCycle();
    forall c | SimpleCycle(Ring, c)
      ensures Rotation(c, Transactions)
    {
      RingRotation(c);
    }
  }

  lemma RingCycle()
    ensures SimpleCycle(Ring, Transactions)
  {
    var c := Transactions;
    EdgeListed(Ring, 0);
    EdgeListed(Ring, 1);
    EdgeListed(Ring, 2);
    EdgeListed(Ring, 3);
    assert Succ(c, 0) == 102 && Succ(c, 1) == 103 && Succ(c, 2) == 104 && Succ(c, 3) == 101;
  }

  lemma EdgeListed(edges: seq<WaitEdge>, i: nat)
    requires i < |edges|
    ensures HasEdge(edges, edges[i].waiting, edges[i].holding)
  {
  }

  /** The next transaction around the ring. */
  function Next(t: TxnId): TxnId {
    if t == 104 then 101 else t + 1
  }

  /** `n` steps round the ring from `t`. */
  function Iter(t: TxnId, n: nat): TxnId {
    if n == 0 then t else Next(Iter(t, n - 1))
  }

  /** Four steps round the ring come back, fewer do not. */
  lemma IterRound(t: TxnId)
    requires t in Transactions
    ensures Iter(t, 4) == t && Iter(t, 1) != t && Iter(t, 2) != t && Iter(t, 3) != t
  {
  }

  /** Every edge of the ring goes from a transaction to the next. */
  lemma RingEdgeIs(a: TxnId, b: TxnId)
    requires HasEdge(Ring, a, b)
    ensures a in Transactions && b == Next(a)
  {
    var i :| 0 <= i < |Ring| && Ring[i].waiting == a && Ring[i].holding == b;
  }

  /** Along a simple cycle of the ring, member `i` is `i` steps from the
      first. */
  lemma {:induction false} RingWalk(c: seq<TxnId>, i: nat)
    requires SimpleCycle(Ring, c) && i < |c|
    ensures c[i] in Transactions && c[i] == Iter(c[0], i)
  {
    assert HasEdge(Ring, c[i], Succ(c, i));
    RingEdgeIs(c[i], Succ(c, i));
    if i > 0 {
      RingWalk(c, i - 1);
      assert HasEdge(Ring, c[i - 1], Succ(c, i - 1));
      RingEdgeIs(c[i - 1], Succ(c, i - 1));
    }
  }

  /** A simple cycle of the ring has all four transactions, each followed
      by the next round the ring. */
  lemma RingCycles(c: seq<TxnId>)
    requires SimpleCycle(Ring, c)
    ensures |c| == 4
    ensures forall i | 0 <= i < |c| :: c[i] in Transactions && Succ(c, i) == Next(c[i])
  {
    forall i | 0 <= i < |c|
      ensures c[i] in Transactions && Succ(c, i) == Next(c[i])
    {
      assert HasEdge(Ring, c[i], Succ(c, i));
      RingEdgeIs(c[i], Succ(c, i));
    }
    RingShort(c);
    RingMember(c);
    IterRound(c[0]);
    RingClose(c);
  }

  /** A simple cycle of the ring has at most four members: a fifth would
      repeat the first. */
  lemma RingShort(c: seq<TxnId>)
    requires SimpleCycle(Ring, c)
    ensures |c| <= 4
  {
    if |c| > 4 {
      RingWalk(c, 4);
      IterRound(c[0]);
    }
  }

  /** Going once round a simple cycle of the ring comes back to its first
      member. */
  lemma RingClose(c: seq<TxnId>)
    requires SimpleCycle(Ring, c)
    ensures Iter(c[0], |c|) == c[0]
  {
    var n := |c| - 1;
    RingWalk(c, n);
    assert HasEdge(Ring, c[n], Succ(c, n));
    RingEdgeIs(c[n], Succ(c, n));
  }

  /** Every simple cycle of the ring is T101..T104 started at one of them. */
  lemma RingRotation(c: seq<TxnId>)
    requires SimpleCycle(Ring, c)
    ensures Rotation(c, Transactions)
  {
    RingCycles(c);
    RingWalk(c, 1);
    RingWalk(c, 2);
    RingWalk(c, 3);
    var k := if c[0] == 101 then 0 else if c[0] == 102 then 3 else if c[0] == 103 then 2 else 1;
    assert Transactions == c[k..] + c[..k];
  }

  /** Position after `victim` around the ring: 0 for the one after it. */
  function Rank(victim: TxnId, t: TxnId): int {
    (t - victim - 1) % 4
  }

  function RingRank(victim: TxnId): map<TxnId, int> {
    map[101 := Rank(victim, 101), 102 := Rank(victim, 102), 103 := Rank(victim, 103), 104 := Rank(victim, 104)]
  }

  lemma ScriptRow(s: seq<LockRow>, row: LockRow)
    requires IsScript(s) && row in s
    ensures row.txn in Transactions
    ensures row.kind == Exclusive ==> row.txn == row.resource + 100
    ensures row.kind == Waiting ==> Next(row.txn) == row.resource + 100
  {
    var i :| 0 <= i < |s| && s[i] == row;
  }

  /** Going round the ring climbs the rank unless it passes the victim. */
  lemma RingStep(victim: TxnId, t: TxnId)
    requires victim in Transactions && t in Transactions && t != victim && Next(t) != victim
    ensures t in RingRank(victim) && Next(t) in RingRank(victim)
    ensures RingRank(victim)[t] < RingRank(victim)[Next(t)]
  {
  }

  /** An edge left after deleting the victim's rows goes one step round the
      ring, not through the victim. */
  lemma RingEdge(s: seq<LockRow>, victim: TxnId, e: WaitEdge)
    requires IsScript(s) && e in Edges(Without(s, victim))
    ensures e.waiting in Transactions && e.holding == Next(e.waiting)
    ensures e.waiting != victim && e.holding != victim
  {
    var table := Without(s, victim);
    VictimIsolated(s, victim, e);
    var w, h := EdgeRows(table, e);
    ScriptRow(s, w);
    ScriptRow(s, h);
  }

  /** An edge of a table comes from a WAITING row of the waiter on the
      resource and an EXCLUSIVE row of the holder on it. */
  lemma EdgeRows(table: seq<LockRow>, e: WaitEdge) returns (w: LockRow, h: LockRow)
    requires e in Edges(table)
    ensures w in table && w.kind == Waiting && w.txn == e.waiting && w.resource == e.resource
    ensures h in table && HoldsExclusive(h, e.resource) && h.txn == e.holding
  {
    EdgesMembership(table, table, e);
    var i :| 0 <= i < |table| && EdgeOf(table, table[i]) == Some(e);
    w := table[i];
    var j :| 0 <= j < |table| && HoldsExclusive(table[j], e.resource) && table[j].txn == e.holding
      && forall k | 0 <= k < j :: !HoldsExclusive(table[k], e.resource);
    h := table[j];
  }

  /** Whichever member of the ring is the victim, deleting its rows leaves
      a wait-for graph with no cycle: the deadlock is resolved. */
  lemma ScriptResolvedOf(s: seq<LockRow>, victim: TxnId, c: seq<TxnId>)
    requires IsScript(s) && victim in Transactions
    ensures !SimpleCycle(Edges(Without(s, victim)), c)
  {
    var edges := Edges(Without(s, victim));
    var rank := RingRank(victim);
    forall i | 0 <= i < |edges|
      ensures edges[i].waiting in rank && edges[i].holding in rank
              && rank[edges[i].waiting] < rank[edges[i].holding]
    {
      RingEdge(s, victim, edges[i]);
      RingStep(victim, edges[i].waiting);
    }
    RankedAcyclic(edges, rank, c);
  }

  /** With the cycles the graph library lists for the scripted rows,
      exactly one deadlock is reported, T101..T104 started at one of them;
      the victim is one of T101..T104 and the rows left behind hold no
      deadlock. */
  lemma ScriptDetection(resources: map<int, string>, cycles: seq<seq<TxnId>>)
    requires Named(resources, Script) && CyclesOf(Edges(Script), cycles)
    ensures NonEmpty(cycles)
    ensures var o := Detected(resources, Script, cycles);
            && |cycles| == 1 && Rotation(cycles[0], Transactions)
            && |o.report.deadlocks| == 1 && o.report.deadlocks[0].cycle == cycles[0]
            && o.report.waitsFor == Ring
            && cycles[0][0] in Transactions
            && forall c :: !SimpleCycle(Edges(o.remaining), c)
  {
    ScriptEdges();
    OneScriptCycle(cycles);
    DetectedParts(resources, Script, cycles);
    RingMember(cycles[0]);
    ScriptIs();
    forall c
      ensures !SimpleCycle(Edges(Without(Script, cycles[0][0])), c)
    {
      ScriptResolvedOf(Script, cycles[0][0], c);
    }
  }

  /** The library lists exactly one cycle of the ring. */
  lemma OneScriptCycle(cycles: seq<seq<TxnId>>)
    requires CyclesOf(Ring, cycles)
    ensures |cycles| == 1 && Rotation(cycles[0], Transactions)
  {
    RingCycle();
    var j :| 0 <= j < |cycles| && Rotation(cycles[j], Transactions);
    RingRotation(cycles[0]);
    if |cycles| > 1 {
      RingRotation(cycles[1]);
    }
  }

  /** The graph and the rows left behind, out of the whole outcome. */
  lemma DetectedParts(resources: map<int, string>, ops: seq<LockRow>, cycles: seq<seq<TxnId>>)
    requires Named(resources, ops) && NonEmpty(cycles)
    ensures Detected(resources, ops, cycles).report.waitsFor == Edges(ops)
    ensures cycles != [] ==> Detected(resources, ops, cycles).remaining == Without(ops, cycles[0][0])
  {
  }

  /** Every cycle of the ring starts at one of T101..T104. */
  lemma RingMember(c: seq<TxnId>)
    requires SimpleCycle(Ring, c)
    ensures c[0] in Transactions
  {
    assert HasEdge(Ring, c[0], Succ(c, 0));
    var i :| 0 <= i < |Ring| && Ring[i].waiting == c[0] && Ring[i].holding == Succ(c, 0);
  }

  /** Step `i + 1` is the one recorded after inserting row `i`. */
  lemma {:induction false} LockStepsAt(resources: map<int, string>, rows: seq<LockRow>, i: nat)
    requires Named(resources, rows) && i < |rows|
    ensures LockSteps(resources, rows)[i] == LockStep(resources, rows, i)
    decreases |rows|
  {
    var rows' := rows[..|rows| - 1];
    if i < |rows'| {
      LockStepsAt(resources, rows', i);
      assert rows'[..i + 1] == rows[..i + 1];
    }
  }

  /** The scripted steps: four exclusive acquisitions, then each wait names
      the next transaction round the ring as the holder. */
  lemma ScriptStepsOf(resources: map<int, string>, s: seq<LockRow>, i: nat)
    requires IsScript(s) && Named(resources, s) && i < 8
    ensures var step := LockSteps(resources, s)[i];
            && step.number == i + 1
            && (i < 4 ==> step.Acquires? && step.row == s[i])
            && (4 <= i ==> step.Waits? && step.row == s[i] && step.heldBy == Some(Next(s[i].txn)))
  {
    LockStepsAt(resources, s, i);
    if 4 <= i {
      HolderAt(s[..i + 1], s[i].resource, s[i].resource - 1);
    }
  }
}
