/** Vocabulary shared by the 2PL and MVCC runners and by the benchmark that
    compares them: the workload (transactions as ordered read/write
    operations), the timeline events the runners append, and the counting of
    the events whose action text mentions a conflict or an abort. */
module Timeline {

  datatype Option<T> = None | Some(value: T)

  type TxnId = int
  /** Items are named rows of the `items` table ("Item 1", ...). */
  type Item = string

  /** One operation of a transaction script: `{"type": "read", "item": ...}` or
      `{"type": "write", "item": ..., "value_change": ...}`. */
  datatype Op = Read(item: Item) | Write(item: Item, delta: int)

  datatype Txn = Txn(id: TxnId, ops: seq<Op>)

  /** The `items` table: row name -> value. */
  type Store = map<Item, int>

  /** Every item the script touches is a row of the `items` table; the 2PL
      runner raises on a missing row (`fetchone()` returns None). */
  predicate Known(items: Store, ops: seq<Op>) {
    forall i | 0 <= i < |ops| :: ops[i].item in items
  }

  /** Every script of the workload touches only rows of the table. */
  predicate AllKnown(items: Store, txns: seq<Txn>) {
    forall i | 0 <= i < |txns| :: Known(items, txns[i].ops)
  }

  /** The lock types of the 2PL lock table ("READ" / "WRITE"). */
  datatype LockMode = ReadLock | WriteLock

  /** One timeline entry; each constructor stands for one action text of the
      source, with the values that text interpolates. */
  datatype Event =
      // both runners
    | Started(txn: TxnId)                                    // "Transaction T started (2PL|MVCC)"
    | Committed(txn: TxnId)                                  // "Transaction T committed"
      // 2PL runner
    | LockConflict(txn: TxnId, item: Item, holder: TxnId, held: LockMode)
                                                             // "T - Lock conflict on I: H holds M lock"
    | Upgraded(txn: TxnId, item: Item)                       // "T - Upgraded READ lock to WRITE lock on I"
    | Acquired(txn: TxnId, item: Item, mode: LockMode)       // "T - Acquired M lock on I"
    | ReadValue(txn: TxnId, item: Item, value: int)          // "T - Read I = v"
    | Aborted(txn: TxnId)                                    // "Transaction T aborted due to lock conflict"
    | Wrote(txn: TxnId, item: Item, before: int, after: int, delta: int)
                                                             // "T - Write I = new (changed by d)"
    | Released(txn: TxnId, item: Item)                       // "T - Released lock on I"
      // MVCC runner
    | SnapshotRead(txn: TxnId, item: Item, value: int, versionTs: nat)
                                                             // "T - Read I = v (version from ts)"
    | NoVisibleVersion(txn: TxnId, item: Item)               // "T - No visible version for I"
    | CannotWrite(txn: TxnId, item: Item)                    // "T - Cannot write to I: no visible version"
    | WriteConflict(txn: TxnId, item: Item)                  // "T - Write conflict on I: newer version exists"
    | VersionCreated(txn: TxnId, item: Item, before: int, after: int, delta: int)
                                                             // "T - Create new version of I = new (changed by d)"

  /** The two words the benchmark looks for in the lower-cased action text. */
  datatype Marker = Conflict | Abort

  /** Whether the action text of `e` contains the marker word. Only the two
      2PL texts "Lock conflict on ..." and "aborted due to lock conflict" and
      the MVCC text "Write conflict on ..." contain "conflict"; only the abort
      text contains "abort". */
  predicate Mentions(e: Event, m: Marker) {
    match m
    case Conflict => e.LockConflict? || e.Aborted? || e.WriteConflict?
    case Abort => e.Aborted?
  }

  /** Number of events of `tl` whose action mentions `m`. */
  function Count(tl: seq<Event>, m: Marker): (n: nat)
    ensures n <= |tl|
  {
    if tl == [] then 0
    else Count(tl[..|tl| - 1], m) + (if Mentions(tl[|tl| - 1], m) then 1 else 0)
  }

  /** Logging `b` then `c` after `a` is logging `b + c` after it. */
  lemma LogAppend(a: seq<Event>, b: seq<Event>, c: seq<Event>)
    ensures a + b + c == a + (b + c)
  {
  }

  /** Counting distributes over concatenation of timelines. */
  lemma {:induction false} CountAppend(a: seq<Event>, b: seq<Event>, m: Marker)
    ensures Count(a + b, m) == Count(a, m) + Count(b, m)
    decreases |b|
  {
    if b == [] {
      assert a + b == a;
    } else {
      var b' := b[..|b| - 1];
      assert (a + b)[..|a + b| - 1] == a + b';
      CountAppend(a, b', m);
    }
  }

  /** A one-event timeline counts its event when it mentions `m`. */
  lemma CountOne(e: Event, m: Marker)
    ensures Count([e], m) == if Mentions(e, m) then 1 else 0
  {
    assert [e][..0] == [];
  }

  /** A timeline none of whose events mentions `m` counts zero of it. */
  lemma {:induction false} CountNone(tl: seq<Event>, m: Marker)
    requires forall i | 0 <= i < |tl| :: !Mentions(tl[i], m)
    ensures Count(tl, m) == 0
    decreases |tl|
  {
    if tl != [] {
      CountNone(tl[..|tl| - 1], m);
    }
  }

  /** The deltas written to one item, in script order. */
  function Deltas(ops: seq<Op>, item: Item): (ds: seq<int>)
    ensures |ds| <= |ops|
  {
    if ops == [] then []
    else
      var last := ops[|ops| - 1];
      Deltas(ops[..|ops| - 1], item) + (if last.Write? && last.item == item then [last.delta] else [])
  }

  function Sum(ds: seq<int>): int {
    if ds == [] then 0 else Sum(ds[..|ds| - 1]) + ds[|ds| - 1]
  }

  /** Whether `ops` reads `item` somewhere. */
  predicate ReadsItem(ops: seq<Op>, item: Item) {
    exists i | 0 <= i < |ops| :: ops[i] == Read(item)
  }

  /** No event of `tl` mentions either marker. */
  predicate Quiet(tl: seq<Event>) {
    forall i | 0 <= i < |tl| :: !Mentions(tl[i], Conflict) && !Mentions(tl[i], Abort)
  }

  /** Logs that mention neither marker concatenate to one. */
  lemma QuietAppend(a: seq<Event>, b: seq<Event>)
    requires Quiet(a) && Quiet(b)
    ensures Quiet(a + b)
  {
    forall i | 0 <= i < |a + b|
      ensures !Mentions((a + b)[i], Conflict) && !Mentions((a + b)[i], Abort)
    {
      if i >= |a| {
        assert (a + b)[i] == b[i - |a|];
      }
    }
  }

  /** A log extended twice, each time by a suffix that mentions neither
      marker, was extended by such a suffix. */
  lemma QuietTransitive(base: seq<Event>, tl: seq<Event>, more: seq<Event>)
    requires |base| <= |tl| && tl[..|base|] == base && Quiet(tl[|base|..])
    requires |tl| <= |more| && more[..|tl|] == tl && Quiet(more[|tl|..])
    ensures |base| <= |more| && more[..|base|] == base && Quiet(more[|base|..])
  {
    assert more[|base|..] == tl[|base|..] + more[|tl|..];
    QuietAppend(tl[|base|..], more[|tl|..]);
  }

  /** A log that counts no conflict mentions neither marker (the abort
      text mentions both). */
  lemma NoConflictQuiet(tl: seq<Event>)
    requires Count(tl, Conflict) == 0
    ensures Quiet(tl)
  {
    forall i | 0 <= i < |tl|
      ensures !Mentions(tl[i], Conflict) && !Mentions(tl[i], Abort)
    {
      CountNoConflictAt(tl, i);
    }
  }

  /** A log that mentions neither marker counts zero of each. */
  lemma QuietCounts(tl: seq<Event>)
    requires Quiet(tl)
    ensures Count(tl, Conflict) == 0 && Count(tl, Abort) == 0
  {
    CountNone(tl, Conflict);
    CountNone(tl, Abort);
  }

  /** An event inside a log that counts no conflict does not mention one. */
  lemma {:induction false} CountNoConflictAt(tl: seq<Event>, i: nat)
    requires i < |tl| && Count(tl, Conflict) == 0
    ensures !Mentions(tl[i], Conflict)
    decreases |tl|
  {
    if i < |tl| - 1 {
      assert tl[..|tl| - 1][i] == tl[i];
      CountNoConflictAt(tl[..|tl| - 1], i);
    }
  }
}
