/** `run_benchmark`: reset the four scripted rows, run the 2PL simulation,
    reset again, run the MVCC simulation, count the timeline events whose
    action mentions "conflict" or "abort", and compare the two counts. */
module Benchmark {
  import opened Timeline
  import TwoPhaseLocking
  import VersionStore

  // ---------------------------------------------------------------------
  // The scripted workload (the same operations under both protocols, with
  // ids 201-203 for 2PL and 301-303 for MVCC)
  // ---------------------------------------------------------------------

  /** The shape of every scripted transaction: read two rows, then write
      each of them once (in either order). */
  function ReadTwoWriteTwo(id: TxnId, a: Item, b: Item, c: Item, x: int, d: Item, y: int): Txn {
    Txn(id, [Read(a), Read(b), Write(c, x), Write(d, y)])
  }

  function Script(base: TxnId): seq<Txn> {
    [ ReadTwoWriteTwo(base + 1, "Item 1", "Item 3", "Item 1", 50, "Item 3", -30),
      ReadTwoWriteTwo(base + 2, "Item 2", "Item 1", "Item 2", -20, "Item 1", 10),
      ReadTwoWriteTwo(base + 3, "Item 3", "Item 4", "Item 4", 25, "Item 3", 15) ]
  }

  const Workload2PL: seq<Txn> := Script(200)
  const WorkloadMvcc: seq<Txn> := Script(300)

  /** The rows the scripted workload touches all exist. */
  predicate ScriptRows(db: Store) {
    "Item 1" in db && "Item 2" in db && "Item 3" in db && "Item 4" in db
  }

  // ---------------------------------------------------------------------
  // Resetting the rows
  // ---------------------------------------------------------------------

  /** `UPDATE items SET value = v WHERE name = n`: no effect when there is
      no such row. */
  function SetRow(db: Store, name: Item, v: int): Store {
    if name in db then db[name := v] else db
  }

  /** The four reset statements, in order. */
  function Reset(db: Store): (r: Store)
    ensures r.Keys == db.Keys
    ensures forall k | k in db :: r[k] == InitialValue(k, db[k])
  {
    SetRow(SetRow(SetRow(SetRow(db, "Item 1", 100), "Item 2", 200), "Item 3", 300), "Item 4", 400)
  }

  /** The value a row has after the reset. */
  function InitialValue(name: Item, current: int): int {
    if name == "Item 1" then 100
    else if name == "Item 2" then 200
    else if name == "Item 3" then 300
    else if name == "Item 4" then 400
    else current
  }

  /** Resetting twice is resetting once. */
  lemma ResetIdempotent(db: Store)
    ensures Reset(Reset(db)) == Reset(db)
  {
    var r := Reset(db);
    assert forall k | k in r :: Reset(r)[k] == r[k];
  }

  // ---------------------------------------------------------------------
  // Counting and comparing
  // ---------------------------------------------------------------------

  datatype Tally = Tally(timeline: seq<Event>, conflicts: nat, aborts: nat)

  datatype Difference = Difference(twoPL: nat, mvcc: nat, difference: nat)

  datatype Report = Report(twoPL: Tally, mvcc: Tally, conflicts: Difference, aborts: Difference)

  /** What `run_benchmark` reports, with the rows it leaves behind. */
  datatype Outcome = Outcome(report: Report, db: Store)

  /** The two counting loops over one timeline. */
  method CountMarkers(tl: seq<Event>) returns (t: Tally)
    ensures t.timeline == tl && t.conflicts == Count(tl, Conflict) && t.aborts == Count(tl, Abort)
  {
    var conflicts, aborts := 0, 0;
    for i := 0 to |tl|
      invariant conflicts == Count(tl[..i], Conflict)
      invariant aborts == Count(tl[..i], Abort)
    {
      assert tl[..i + 1][..i] == tl[..i];
      if Mentions(tl[i], Conflict) {
        conflicts := conflicts + 1;
      }
      if Mentions(tl[i], Abort) {
        aborts := aborts + 1;
      }
    }
    assert tl[..|tl|] == tl;
    t := Tally(tl, conflicts, aborts);
  }

  /** A side-by-side count and `abs(a - b)`. */
  function Compare(a: nat, b: nat): (d: Difference)
    ensures d.twoPL == a && d.mvcc == b
    ensures d.difference == 0 <==> a == b
    ensures a + d.difference == b || b + d.difference == a
  {
    Difference(a, b, if a >= b then a - b else b - a)
  }

  function Tallied(tl: seq<Event>): Tally {
    Tally(tl, Count(tl, Conflict), Count(tl, Abort))
  }

  /** `run_benchmark` on a table holding `db`; `clock` is the last
      timestamp issued before it. */
  function Benchmarked(db: Store, clock: nat): Outcome
    requires ScriptRows(db)
  {
    WorkloadKnown(Reset(db));
    var r2 := TwoPhaseLocking.Simulate(Reset(db), [], Workload2PL);
    var rm := VersionStore.Simulate(Reset(r2.items), [], clock, WorkloadMvcc);
    var a, b := Tallied(r2.timeline), Tallied(rm.timeline);
    Outcome(Report(a, b, Compare(a.conflicts, b.conflicts), Compare(a.aborts, b.aborts)), rm.items)
  }

  lemma WorkloadKnown(db: Store)
    requires ScriptRows(db)
    ensures AllKnown(db, Workload2PL) && AllKnown(db, WorkloadMvcc)
  {
  }

  /** The benchmark, running both protocols' runners in place. */
  method RunBenchmark(db: Store, clock: nat) returns (o: Outcome)
    requires ScriptRows(db)
    ensures o == Benchmarked(db, clock)
  {
    WorkloadKnown(Reset(db));
    var locking := new TwoPhaseLocking.LockingRun(Reset(db), []);
    locking.Simulate2PL(Workload2PL);
    var mvcc := new VersionStore.MvccRun(Reset(locking.items), [], clock);
    mvcc.SimulateMvcc(WorkloadMvcc);
    var a := CountMarkers(locking.timeline);
    var b := CountMarkers(mvcc.timeline);
    o := Outcome(Report(a, b, Compare(a.conflicts, b.conflicts), Compare(a.aborts, b.aborts)), mvcc.items);
  }

  // ---------------------------------------------------------------------
  // What the two protocols leave in the table
  // ---------------------------------------------------------------------

  /** The 2PL runner writes on top of the transaction's own earlier write
      (or of the value it read); the MVCC runner writes on top of the value
      read or of the snapshot at start, so two writes of a row the script
      does not read keep only the last delta. */
  ghost predicate ReadBeforeRewrite(t: Txn) {
    forall k :: |Deltas(t.ops, k)| > 1 ==> ReadsItem(t.ops, k)
  }

  /** Run alone, a transaction leaves the same rows under both protocols
      whenever it reads every row it writes twice. */
  lemma CommitAgree(items: Store, t: Txn)
    requires ReadBeforeRewrite(t)
    ensures TwoPhaseLocking.CommitValues(items, t) == VersionStore.MvccCommitValues(items, t)
  {
    forall k | k in items
      ensures TwoPhaseLocking.CommitValues(items, t)[k] == VersionStore.MvccCommitValues(items, t)[k]
    {
      var ds := Deltas(t.ops, k);
      if ds != [] && !ReadsItem(t.ops, k) {
        assert |ds| == 1 && ds[..0] == [];
        assert Sum(ds) == Sum(ds[..0]) + ds[0];
      }
    }
  }

  /** A row written twice and never read: 2PL adds both deltas, MVCC only
      the second. */
  lemma DoubleWriteDiverges(items: Store, id: TxnId, k: Item, d1: int, d2: int)
    requires k in items
    ensures var t := Txn(id, [Write(k, d1), Write(k, d2)]);
            && TwoPhaseLocking.CommitValues(items, t)[k] == items[k] + d1 + d2
            && VersionStore.MvccCommitValues(items, t)[k] == items[k] + d2
  {
    var t := Txn(id, [Write(k, d1), Write(k, d2)]);
    assert t.ops[..1] == [Write(k, d1)];
    assert [Write(k, d1)][..0] == [];
    assert Deltas(t.ops, k) == [d1, d2];
    assert [d1, d2][..1] == [d1] && [d1][..0] == [];
    assert Sum([d1]) == Sum([d1][..0]) + d1;
    assert !ReadsItem(t.ops, k);
  }

  lemma {:induction false} SerialAgree(items: Store, txns: seq<Txn>)
    requires forall i | 0 <= i < |txns| :: ReadBeforeRewrite(txns[i])
    ensures TwoPhaseLocking.SerialItems(items, txns) == VersionStore.MvccSerialItems(items, txns)
    decreases |txns|
  {
    if txns != [] {
      SerialAgree(items, txns[..|txns| - 1]);
      CommitAgree(TwoPhaseLocking.SerialItems(items, txns[..|txns| - 1]), txns[|txns| - 1]);
    }
  }

  lemma ShapeDeltas(id: TxnId, a: Item, b: Item, c: Item, x: int, d: Item, y: int, k: Item)
    ensures var ops := ReadTwoWriteTwo(id, a, b, c, x, d, y).ops;
            Deltas(ops, k) == (if k == c then [x] else []) + (if k == d then [y] else [])
  {
    var ops := ReadTwoWriteTwo(id, a, b, c, x, d, y).ops;
    assert ops[..3][..2] == ops[..2] && ops[..2][..1] == ops[..1] && ops[..1][..0] == [];
    assert Deltas(ops[..2], k) == [];
  }

  /** Such a transaction, run alone, adds each delta to its row under
      either protocol: `c` ends at `vc`, its value plus `x`, and `d` at `vd`,
      its value plus `y`. */
  lemma ShapeCommit(items: Store, id: TxnId, a: Item, b: Item, c: Item, x: int, d: Item, y: int, vc: int, vd: int)
    requires c in items && d in items && c != d && (c == a || c == b) && (d == a || d == b)
    requires vc == items[c] + x && vd == items[d] + y
    ensures var t := ReadTwoWriteTwo(id, a, b, c, x, d, y);
            && TwoPhaseLocking.CommitValues(items, t) == items[c := vc][d := vd]
            && VersionStore.MvccCommitValues(items, t) == items[c := vc][d := vd]
  {
    ShapeLocking(items, id, a, b, c, x, d, y, vc, vd);
    ShapeMvcc(items, id, a, b, c, x, d, y, vc, vd);
  }

  lemma ShapeLocking(items: Store, id: TxnId, a: Item, b: Item, c: Item, x: int, d: Item, y: int, vc: int, vd: int)
    requires c in items && d in items && c != d && (c == a || c == b) && (d == a || d == b)
    requires vc == items[c] + x && vd == items[d] + y
    ensures TwoPhaseLocking.CommitValues(items, ReadTwoWriteTwo(id, a, b, c, x, d, y)) == items[c := vc][d := vd]
  {
    var t := ReadTwoWriteTwo(id, a, b, c, x, d, y);
    forall k | k in items
      ensures TwoPhaseLocking.CommitValues(items, t)[k] == items[c := vc][d := vd][k]
    {
      ShapeRowLocking(items, id, a, b, c, x, d, y, k);
    }
  }

  lemma ShapeMvcc(items: Store, id: TxnId, a: Item, b: Item, c: Item, x: int, d: Item, y: int, vc: int, vd: int)
    requires c in items && d in items && c != d
    requires vc == items[c] + x && vd == items[d] + y
    ensures VersionStore.MvccCommitValues(items, ReadTwoWriteTwo(id, a, b, c, x, d, y)) == items[c := vc][d := vd]
  {
    var t := ReadTwoWriteTwo(id, a, b, c, x, d, y);
    forall k | k in items
      ensures VersionStore.MvccCommitValues(items, t)[k] == items[c := vc][d := vd][k]
    {
      ShapeRowMvcc(items, id, a, b, c, x, d, y, k);
    }
  }

  lemma ShapeRowLocking(items: Store, id: TxnId, a: Item, b: Item, c: Item, x: int, d: Item, y: int, k: Item)
    requires c in items && d in items && c != d && (c == a || c == b) && (d == a || d == b) && k in items
    ensures TwoPhaseLocking.CommitValues(items, ReadTwoWriteTwo(id, a, b, c, x, d, y))[k]
            == items[c := items[c] + x][d := items[d] + y][k]
  {
    var t := ReadTwoWriteTwo(id, a, b, c, x, d, y);
    assert t.ops[0] == Read(a) && t.ops[1] == Read(b);
    ShapeDeltas(id, a, b, c, x, d, y, k);
    if k == c || k == d {
      assert ReadsItem(t.ops, k);
    }
  }

  lemma ShapeRowMvcc(items: Store, id: TxnId, a: Item, b: Item, c: Item, x: int, d: Item, y: int, k: Item)
    requires c in items && d in items && c != d && k in items
    ensures VersionStore.MvccCommitValues(items, ReadTwoWriteTwo(id, a, b, c, x, d, y))[k]
            == items[c := items[c] + x][d := items[d] + y][k]
  {
    ShapeDeltas(id, a, b, c, x, d, y, k);
  }

  /** The rows after the scripted workload ran on a reset table. */
  function Final(db: Store): (r: Store)
    ensures r.Keys == db.Keys
  {
    map k | k in db ::
      if k == "Item 1" then 160
      else if k == "Item 2" then 180
      else if k == "Item 3" then 285
      else if k == "Item 4" then 425
      else db[k]
  }

  /** The scripted workload, whatever its ids, ends at `Final` on a reset
      table under either protocol. */
  lemma ScriptFinal(db: Store, base: TxnId)
    requires ScriptRows(db)
    ensures TwoPhaseLocking.SerialItems(Reset(db), Script(base)) == Final(db)
    ensures VersionStore.MvccSerialItems(Reset(db), Script(base)) == Final(db)
  {
    var w := Script(base);
    var s0 := Reset(db);
    var s1 := s0["Item 1" := 150]["Item 3" := 270];
    var s2 := s1["Item 2" := 180]["Item 1" := 160];
    var s3 := s2["Item 4" := 425]["Item 3" := 285];
    assert s0["Item 1"] == 100 && s0["Item 2"] == 200 && s0["Item 3"] == 300 && s0["Item 4"] == 400;
    ShapeCommit(s0, base + 1, "Item 1", "Item 3", "Item 1", 50, "Item 3", -30, 150, 270);
    ShapeCommit(s1, base + 2, "Item 2", "Item 1", "Item 2", -20, "Item 1", 10, 180, 160);
    ShapeCommit(s2, base + 3, "Item 3", "Item 4", "Item 4", 25, "Item 3", 15, 425, 285);
    ScriptLocking(s0, w, s1, s2, s3);
    ScriptMvcc(s0, w, s1, s2, s3);
    FinalRows(db, s3);
  }

  /** The 2PL runner's serial effect, one scripted transaction at a time. */
  lemma ScriptLocking(s0: Store, w: seq<Txn>, s1: Store, s2: Store, s3: Store)
    requires |w| == 3
    requires TwoPhaseLocking.CommitValues(s0, w[0]) == s1
    requires TwoPhaseLocking.CommitValues(s1, w[1]) == s2
    requires TwoPhaseLocking.CommitValues(s2, w[2]) == s3
    ensures TwoPhaseLocking.SerialItems(s0, w) == s3
  {
    assert w[..3] == w && w[..3][..2] == w[..2] && w[..2][..1] == w[..1] && w[..1][..0] == [];
    assert TwoPhaseLocking.SerialItems(s0, w[..1]) == s1;
    assert TwoPhaseLocking.SerialItems(s0, w[..2]) == s2;
  }

  /** The MVCC runner's serial effect, one scripted transaction at a time. */
  lemma ScriptMvcc(s0: Store, w: seq<Txn>, s1: Store, s2: Store, s3: Store)
    requires |w| == 3
    requires VersionStore.MvccCommitValues(s0, w[0]) == s1
    requires VersionStore.MvccCommitValues(s1, w[1]) == s2
    requires VersionStore.MvccCommitValues(s2, w[2]) == s3
    ensures VersionStore.MvccSerialItems(s0, w) == s3
  {
    assert w[..3] == w && w[..3][..2] == w[..2] && w[..2][..1] == w[..1] && w[..1][..0] == [];
    assert VersionStore.MvccSerialItems(s0, w[..1]) == s1;
    assert VersionStore.MvccSerialItems(s0, w[..2]) == s2;
  }

  lemma FinalRows(db: Store, s3: Store)
    requires ScriptRows(db)
    requires s3 == Reset(db)["Item 1" := 150]["Item 3" := 270]["Item 2" := 180]["Item 1" := 160]["Item 4" := 425]["Item 3" := 285]
    ensures s3 == Final(db)
  {
  }

  /** Resetting after the scripted workload undoes it. */
  lemma ResetFinal(db: Store)
    ensures Reset(Final(db)) == Reset(db)
  {
    forall k | k in db
      ensures Reset(Final(db))[k] == Reset(db)[k]
    {
      assert InitialValue(k, Final(db)[k]) == InitialValue(k, db[k]);
    }
  }

  /** The scripted benchmark: the transactions never overlap, so neither
      protocol logs a conflict or an abort, both differences are zero, and
      the table ends with Item 1..4 at 160, 180, 285 and 425 (other rows
      untouched); `LockingScript` shows the 2PL run ends there too. */
  lemma ScriptedBenchmark(db: Store, clock: nat)
    requires ScriptRows(db)
    ensures var o := Benchmarked(db, clock);
            && o.report.twoPL.conflicts == 0 && o.report.twoPL.aborts == 0
            && o.report.mvcc.conflicts == 0 && o.report.mvcc.aborts == 0
            && o.report.conflicts.difference == 0 && o.report.aborts.difference == 0
            && o.db == Final(db)
  {
    WorkloadKnown(Reset(db));
    var r2 := TwoPhaseLocking.Simulate(Reset(db), [], Workload2PL);
    LockingScript(db);
    ResetFinal(db);
    MvccScript(db, clock);
    assert Reset(r2.items) == Reset(db);
  }

  /** The 2PL half of the scripted benchmark. */
  lemma LockingScript(db: Store)
    requires ScriptRows(db)
    ensures AllKnown(Reset(db), Workload2PL)
    ensures var r := TwoPhaseLocking.Simulate(Reset(db), [], Workload2PL);
            r.items == Final(db) && Count(r.timeline, Conflict) == 0 && Count(r.timeline, Abort) == 0
  {
    WorkloadKnown(Reset(db));
    var r := TwoPhaseLocking.Simulate(Reset(db), [], Workload2PL);
    TwoPhaseLocking.SimulateSerial(Reset(db), [], Workload2PL);
    assert r.timeline[0..] == r.timeline;
    ScriptFinal(db, 200);
  }

  /** The MVCC half of the scripted benchmark. */
  lemma MvccScript(db: Store, clock: nat)
    requires ScriptRows(db)
    ensures var r := VersionStore.Simulate(Reset(db), [], clock, WorkloadMvcc);
            r.items == Final(db) && Count(r.timeline, Conflict) == 0 && Count(r.timeline, Abort) == 0
  {
    WorkloadKnown(Reset(db));
    var r := VersionStore.Simulate(Reset(db), [], clock, WorkloadMvcc);
    VersionStore.SimulateSerial(Reset(db), [], clock, WorkloadMvcc);
    assert r.timeline[0..] == r.timeline;
    ScriptFinal(db, 300);
  }
}
