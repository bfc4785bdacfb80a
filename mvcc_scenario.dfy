/** `MVCCSimulation.run_simulation`: a scripted pair of transactions over
    the `accounts`, `transaction_log` and `account_versions` tables. T1
    (Alice to Bob, 200) starts and reads Alice; T2 starts, adds 500 to Bob,
    writes a version and commits; T1 then reads Bob from its snapshot,
    writes versions of Alice and Bob and commits, the stored Bob balance
    taking T2's value plus 200. */
module MvccScenario {
  import opened Timeline

  /** A row of `accounts`, keyed by name in `Accounts`. */
  datatype Account = Account(id: int, balance: int)

  type Accounts = map<string, Account>

  /** The `status` text of a log row. */
  datatype Status = STARTED | COMMITTED

  /** A row of `transaction_log`. */
  datatype LogEntry = LogEntry(txnId: int, start: nat, commit: Option<nat>, status: Status)

  /** A row of `account_versions` (its row id left out). */
  datatype AccountVersion = AccountVersion(account: int, balance: int, txnId: int, timestamp: nat)

  /** One `timeline` entry of the simulation; each constructor stands for
      one action text, with the data it carries. */
  datatype SimEvent =
    | InitialState(alice: Account, bob: Account)                   // "Initial state"
    | TxnStarted(txnId: int, start: nat)                           // "Transaction T started"
    | ReadsAlice(txnId: int, balance: int)                         // "T reads Alice's balance"
    | ReadsBob(txnId: int, balance: int)                           // "T reads Bob's balance"
    | VersionOfAlice(txnId: int, balance: int, timestamp: nat)     // "T creates new version of Alice's account"
    | VersionOfBob(txnId: int, balance: int, timestamp: nat)       // "T creates new version of Bob's account"
    | CommitsBob(txnId: int, newBob: int, commit: nat)             // "T commits"
    | SnapshotReadsBob(txnId: int, sees: int, actual: int)         // "T reads Bob's balance (snapshot isolation)"
    | CommitsResolved(txnId: int, newAlice: int, finalBob: int, commit: nat)
                                                                   // "T commits with conflict resolution"
    | FinalState(alice: Account, bob: Account)                     // "Final state"

  datatype SimResults = SimResults(timeline: seq<SimEvent>, transactions: seq<LogEntry>, versions: seq<AccountVersion>)

  // ---------------------------------------------------------------------
  // Queries
  // ---------------------------------------------------------------------

  /** The row id SQLite gives the next `transaction_log` row, a fresh id:
      one more than the largest id, and at least 1. */
  function NextTxnId(log: seq<LogEntry>): (r: int)
    ensures forall i | 0 <= i < |log| :: log[i].txnId < r
    ensures log == [] ==> r == 1
    ensures r >= 1 && (r == 1 || exists i | 0 <= i < |log| :: r == log[i].txnId + 1)
    decreases |log|
  {
    if log == [] then 1
    else
      var rest := NextTxnId(log[..|log| - 1]);
      assert forall i | 0 <= i < |log| - 1 :: log[..|log| - 1][i] == log[i];
      if log[|log| - 1].txnId < rest then rest else log[|log| - 1].txnId + 1
  }

  /** The start timestamp the join finds for a version's writer. */
  function StartOf(log: seq<LogEntry>, txn: int): (r: Option<nat>)
    ensures r.Some? <==> exists i | 0 <= i < |log| :: log[i].txnId == txn
    ensures r.Some? ==> exists i | 0 <= i < |log| :: log[i].txnId == txn && log[i].start == r.value
    decreases |log|
  {
    if log == [] then None
    else if log[0].txnId == txn then Some(log[0].start)
    else
      assert forall i | 1 <= i < |log| :: log[1..][i - 1] == log[i];
      StartOf(log[1..], txn)
  }

  /** A version the snapshot query can return: of the account, written by
      a logged transaction that started strictly before `before`. */
  predicate Qualifies(v: AccountVersion, log: seq<LogEntry>, account: int, before: nat) {
    v.account == account && StartOf(log, v.txnId).Some? && StartOf(log, v.txnId).value < before
  }

  /** The snapshot query without its fallback: the balance of a qualifying
      version whose writer started latest, with that start. */
  function Latest(versions: seq<AccountVersion>, log: seq<LogEntry>, account: int, before: nat): (r: Option<(int, nat)>)
    ensures r.None? <==> forall i | 0 <= i < |versions| :: !Qualifies(versions[i], log, account, before)
    ensures r.Some? ==> exists i | 0 <= i < |versions| ::
              && Qualifies(versions[i], log, account, before)
              && versions[i].balance == r.value.0 && StartOf(log, versions[i].txnId) == Some(r.value.1)
    ensures r.Some? ==> forall i | 0 <= i < |versions| && Qualifies(versions[i], log, account, before) ::
              StartOf(log, versions[i].txnId).value <= r.value.1
    decreases |versions|
  {
    if versions == [] then None
    else
      var rest := Latest(versions[..|versions| - 1], log, account, before);
      var v := versions[|versions| - 1];
      assert forall i | 0 <= i < |versions| - 1 :: versions[..|versions| - 1][i] == versions[i];
      if !Qualifies(v, log, account, before) then rest
      else
        var s := StartOf(log, v.txnId).value;
        if rest.Some? && s <= rest.value.1 then rest else Some((v.balance, s))
  }

  /** What a reader that started at `before` sees of the account: the
      latest-started qualifying version, else the balance it was given. */
  function SnapshotBalance(versions: seq<AccountVersion>, log: seq<LogEntry>, account: int, before: nat, fallback: int): int {
    match Latest(versions, log, account, before)
    case Some(p) => p.0
    case None => fallback
  }

  /** A reader sees the balance it was given when every version of the
      account was written by a transaction that started at or after the
      reader did. */
  lemma SnapshotIgnoresLater(versions: seq<AccountVersion>, log: seq<LogEntry>, account: int, before: nat, fallback: int)
    requires forall i | 0 <= i < |versions| && versions[i].account == account ::
               forall j | 0 <= j < |log| && log[j].txnId == versions[i].txnId :: log[j].start >= before
    ensures SnapshotBalance(versions, log, account, before, fallback) == fallback
  {
    forall i | 0 <= i < |versions|
      ensures !Qualifies(versions[i], log, account, before)
    {
      var s := StartOf(log, versions[i].txnId);
      if versions[i].account == account && s.Some? {
        var j :| 0 <= j < |log| && log[j].txnId == versions[i].txnId && log[j].start == s.value;
      }
    }
  }

  /** With one qualifying version, that version is what the reader sees. */
  lemma SnapshotSeesEarlier(versions: seq<AccountVersion>, log: seq<LogEntry>, account: int, before: nat, fallback: int, k: nat)
    requires k < |versions| && Qualifies(versions[k], log, account, before)
    requires forall i | 0 <= i < |versions| && i != k :: !Qualifies(versions[i], log, account, before)
    ensures SnapshotBalance(versions, log, account, before, fallback) == versions[k].balance
  {
  }

  /** `UPDATE accounts SET balance = b WHERE name = n`. */
  function SetBalance(accounts: Accounts, name: string, b: int): (r: Accounts)
    ensures r.Keys == accounts.Keys
    ensures forall n | n in accounts :: r[n] == if n == name then Account(accounts[n].id, b) else accounts[n]
  {
    if name in accounts then accounts[name := accounts[name].(balance := b)] else accounts
  }

  /** `UPDATE transaction_log SET commit_timestamp = c, status = 'COMMITTED'
      WHERE txn_id = t`. */
  function CommitEntry(log: seq<LogEntry>, txn: int, c: nat): (r: seq<LogEntry>)
    ensures |r| == |log|
    ensures forall i | 0 <= i < |log| ::
              r[i] == if log[i].txnId == txn then log[i].(commit := Some(c), status := COMMITTED) else log[i]
    decreases |log|
  {
    if log == [] then []
    else
      var e := log[|log| - 1];
      CommitEntry(log[..|log| - 1], txn, c) + [if e.txnId == txn then e.(commit := Some(c), status := COMMITTED) else e]
  }

  // ---------------------------------------------------------------------
  // The simulation, updating the four tables in place
  // ---------------------------------------------------------------------

  class MvccSimulation {
    var accounts: Accounts
    var log: seq<LogEntry>
    var versions: seq<AccountVersion>
    /** The last timestamp issued. */
    var clock: nat

    constructor (accounts: Accounts, log: seq<LogEntry>, versions: seq<AccountVersion>, clock: nat)
      ensures this.accounts == accounts && this.log == log && this.versions == versions && this.clock == clock
    {
      this.accounts := accounts;
      this.log := log;
      this.versions := versions;
      this.clock := clock;
    }

    method Tick() returns (t: nat)
      modifies this`clock
      ensures t == clock == old(clock) + 1
    {
      clock := clock + 1;
      t := clock;
    }

    /** Insert a `STARTED` row and return its id. */
    method Begin() returns (id: int, start: nat)
      modifies this`log, this`clock
      ensures id == NextTxnId(old(log)) && start == clock == old(clock) + 1
      ensures log == old(log) + [LogEntry(id, start, None, STARTED)]
    {
      start := Tick();
      id := NextTxnId(log);
      log := log + [LogEntry(id, start, None, STARTED)];
    }

    method Commit(txn: int) returns (c: nat)
      modifies this`log, this`clock
      ensures c == clock == old(clock) + 1 && log == CommitEntry(old(log), txn, c)
    {
      c := Tick();
      log := CommitEntry(log, txn, c);
    }

    method NewVersion(account: int, balance: int, txn: int) returns (ts: nat)
      modifies this`versions, this`clock
      ensures ts == clock == old(clock) + 1
      ensures versions == old(versions) + [AccountVersion(account, balance, txn, ts)]
    {
      ts := Tick();
      versions := versions + [AccountVersion(account, balance, txn, ts)];
    }

    /** Clear the log and the versions and reset the two balances. */
    method Reset()
      modifies this`log, this`versions, this`accounts
      ensures log == [] && versions == []
      ensures accounts == SetBalance(SetBalance(old(accounts), "Alice", 1000), "Bob", 2000)
    {
      log := [];
      versions := [];
      accounts := SetBalance(SetBalance(accounts, "Alice", 1000), "Bob", 2000);
    }

    /** T2 starts after T1, reads Bob, writes Bob + 500 as a new version and
        commits, storing that balance. */
    method RunT2(t1Start: nat) returns (t2Start: nat, newBob: int, versionTs: nat, events: seq<SimEvent>)
      requires log == [LogEntry(1, t1Start, None, STARTED)] && versions == [] && "Bob" in accounts
      requires t1Start <= clock
      modifies this`log, this`clock, this`versions, this`accounts
      ensures t1Start < t2Start < versionTs < clock && newBob == old(accounts)["Bob"].balance + 500
      ensures |log| == 2 && log[0] == LogEntry(1, t1Start, None, STARTED)
      ensures log[1].txnId == 2 && log[1].start == t2Start && log[1].status == COMMITTED && log[1].commit.Some?
      ensures versions == [AccountVersion(old(accounts)["Bob"].id, newBob, 2, versionTs)]
      ensures accounts == SetBalance(old(accounts), "Bob", newBob)
      ensures events == [TxnStarted(2, t2Start), ReadsBob(2, old(accounts)["Bob"].balance),
                         VersionOfBob(2, newBob, versionTs), CommitsBob(2, newBob, clock)]
    {
      var t2;
      t2, t2Start := Begin();
      var bob := accounts["Bob"];
      newBob := bob.balance + 500;
      versionTs := NewVersion(bob.id, newBob, t2);
      var c := Commit(t2);
      accounts := SetBalance(accounts, "Bob", newBob);
      events := [TxnStarted(t2, t2Start), ReadsBob(t2, bob.balance), VersionOfBob(t2, newBob, versionTs), CommitsBob(t2, newBob, c)];
    }

    /** T1 reads Bob from its snapshot, writes Alice - 200 and the Bob it
        saw + 200 as new versions and commits; the stored Bob balance is
        T2's value + 200. */
    method FinishT1(t1: int, t1Start: nat, alice: Account, bob: Account, newBob: int) returns (bobSeen: int, events: seq<SimEvent>)
      requires |log| == 2 && log[0].txnId == t1 && log[1].txnId == 2 && t1 != 2 && t1Start <= log[1].start
      requires |versions| == 1 && versions[0].txnId == 2
      requires "Alice" in accounts && "Bob" in accounts
      modifies this`log, this`clock, this`versions, this`accounts
      ensures bobSeen == bob.balance
      ensures |log| == 2 && log[0] == old(log)[0].(commit := Some(clock), status := COMMITTED) && log[1] == old(log)[1]
      ensures |versions| == 3 && versions[0] == old(versions)[0]
      ensures versions[1].account == alice.id && versions[1].txnId == t1 && versions[1].balance == alice.balance - 200
      ensures versions[2].account == bob.id && versions[2].txnId == t1 && versions[2].balance == bob.balance + 200
      ensures old(clock) < versions[1].timestamp < versions[2].timestamp < clock
      ensures accounts == SetBalance(SetBalance(old(accounts), "Alice", alice.balance - 200), "Bob", newBob + 200)
      ensures events == [SnapshotReadsBob(t1, bob.balance, newBob),
                         VersionOfAlice(t1, alice.balance - 200, versions[1].timestamp),
                         VersionOfBob(t1, bob.balance + 200, versions[2].timestamp),
                         CommitsResolved(t1, alice.balance - 200, newBob + 200, clock)]
    {
      SnapshotIgnoresLater(versions, log, bob.id, t1Start, bob.balance);
      bobSeen := SnapshotBalance(versions, log, bob.id, t1Start, bob.balance);
      var newAlice := alice.balance - 200;
      var aliceTs := NewVersion(alice.id, newAlice, t1);
      var newBobT1 := bobSeen + 200;
      var bobTs := NewVersion(bob.id, newBobT1, t1);
      var c := Commit(t1);
      accounts := SetBalance(accounts, "Alice", newAlice);
      accounts := SetBalance(accounts, "Bob", newBob + 200);
      events := [SnapshotReadsBob(t1, bobSeen, newBob), VersionOfAlice(t1, newAlice, aliceTs),
                 VersionOfBob(t1, newBobT1, bobTs), CommitsResolved(t1, newAlice, newBob + 200, c)];
    }

    /** `run_simulation`. Alice and Bob must be rows of `accounts` (the
        fetches raise otherwise). */
    method RunSimulation() returns (r: SimResults)
      requires "Alice" in accounts && "Bob" in accounts
      modifies this
      ensures accounts.Keys == old(accounts).Keys
      ensures forall n | n in accounts && n != "Alice" && n != "Bob" :: accounts[n] == old(accounts)[n]
      // both transfers survive: Alice loses 200 and Bob gains T2's 500 and T1's 200
      ensures accounts["Alice"] == Account(old(accounts)["Alice"].id, 1000 - 200)
      ensures accounts["Bob"] == Account(old(accounts)["Bob"].id, 2000 + 500 + 200)
      // two transactions, T1 = 1 started before T2 = 2, both committed
      ensures |log| == 2 && log == r.transactions
      ensures log[0].txnId == 1 && log[1].txnId == 2 && log[0].start < log[1].start
      ensures forall i | 0 <= i < 2 :: log[i].status == COMMITTED && log[i].commit.Some?
      // three versions: T2's Bob, then T1's Alice and Bob
      ensures |versions| == 3 && versions == r.versions
      ensures versions[0].account == old(accounts)["Bob"].id && versions[0].txnId == 2 && versions[0].balance == 2000 + 500
      ensures versions[1].account == old(accounts)["Alice"].id && versions[1].txnId == 1 && versions[1].balance == 1000 - 200
      ensures versions[2].account == old(accounts)["Bob"].id && versions[2].txnId == 1 && versions[2].balance == 2000 + 200
      ensures versions[0].timestamp < versions[1].timestamp < versions[2].timestamp
      ensures clock > old(clock)
      // T1's snapshot of Bob is the balance Bob had when T1 started, not T2's
      ensures SnapshotReadsBob(1, 2000, 2000 + 500) in r.timeline
    {
      Reset();
      var initial := [InitialState(accounts["Alice"], accounts["Bob"])];
      var t1, t1Start := Begin();
      var alice := accounts["Alice"];
      var bob := accounts["Bob"];
      var t2Start, newBob, bobTs, t2Events := RunT2(t1Start);
      var bobSeen, t1Events := FinishT1(t1, t1Start, alice, bob, newBob);
      var timeline := initial + [TxnStarted(t1, t1Start), ReadsAlice(t1, alice.balance)] + t2Events + t1Events
                      + [FinalState(accounts["Alice"], accounts["Bob"])];
      assert t1Events[0] == SnapshotReadsBob(1, 2000, 2000 + 500);
      assert timeline[7] == t1Events[0];
      r := SimResults(timeline, log, versions);
    }
  }
}
