/** `RateLimiter` of the web application: per client, the times of its
    admitted calls. Each call first drops every client whose last admitted
    call is `period` or more old, then rejects the call when the client
    still has `maxCalls` or more recorded calls (telling it how many whole
    seconds to wait), and otherwise records the call. */
module RateLimiting {

  type Client = string

  /** Client -> times of its admitted calls, oldest first. */
  type Calls = map<Client, seq<real>>

  datatype Decision = Admitted | Rejected(waitSeconds: int)

  /** Every recorded client has at least one call (a list is created only
      to receive one). */
  predicate Recorded(calls: Calls) {
    forall k | k in calls :: calls[k] != []
  }

  function Last(ts: seq<real>): real
    requires ts != []
  {
    ts[|ts| - 1]
  }

  /** The clean-up comprehension: keep a client while its last call is
      less than `period` old. */
  function Purge(calls: Calls, now: real, period: real): Calls
    requires Recorded(calls)
  {
    map k | k in calls && now - Last(calls[k]) < period :: calls[k]
  }

  /** Python's `int()` on a float: truncation toward zero. */
  function Truncate(x: real): (n: int)
    ensures x >= 0.0 ==> n as real <= x < n as real + 1.0
    ensures x < 0.0 ==> n as real - 1.0 < x <= n as real
  {
    if x >= 0.0 then x.Floor else -((-x).Floor)
  }

  /** `int(period - (now - last)) + 1`. */
  function WaitSeconds(period: real, now: real, last: real): int {
    Truncate(period - (now - last)) + 1
  }

  /** One call of the wrapper: the decision and the new table. */
  function Step(calls: Calls, maxCalls: int, period: real, client: Client, now: real): (Decision, Calls)
    requires Recorded(calls)
  {
    var kept := Purge(calls, now, period);
    if client in kept && |kept[client]| >= maxCalls then
      (Rejected(WaitSeconds(period, now, Last(kept[client]))), kept)
    else
      (Admitted, kept[client := (if client in kept then kept[client] else []) + [now]])
  }

  // ---------------------------------------------------------------------
  // What one call does
  // ---------------------------------------------------------------------

  /** After the clean-up exactly the clients whose last call is less than
      `period` old remain, with their lists untouched; only the last
      recorded time of a client decides. */
  lemma PurgeKeeps(calls: Calls, now: real, period: real, k: Client)
    requires Recorded(calls)
    ensures k in Purge(calls, now, period) <==> k in calls && now - Last(calls[k]) < period
    ensures k in Purge(calls, now, period) ==> Purge(calls, now, period)[k] == calls[k]
  {
  }

  /** A call is rejected exactly when the client made a call less than
      `period` ago and has `maxCalls` or more recorded; the table then only
      loses the stale clients. */
  lemma RejectExactly(calls: Calls, maxCalls: int, period: real, client: Client, now: real)
    requires Recorded(calls)
    ensures var (d, c) := Step(calls, maxCalls, period, client, now);
            && (d.Rejected? <==> client in calls && now - Last(calls[client]) < period && |calls[client]| >= maxCalls)
            && (d.Rejected? ==> c == Purge(calls, now, period))
  {
  }

  /** The wait a rejection reports is at least one second: the whole
      seconds left until the client's last call is `period` old, plus one. */
  lemma RejectWait(calls: Calls, maxCalls: int, period: real, client: Client, now: real)
    requires Recorded(calls)
    requires Step(calls, maxCalls, period, client, now).0.Rejected?
    ensures var w := Step(calls, maxCalls, period, client, now).0.waitSeconds;
            var left := period - (now - Last(calls[client]));
            && w >= 1
            && (w - 1) as real <= left < w as real
  {
    PurgeKeeps(calls, now, period, client);
  }

  /** An admitted call is appended to the client's list (a new one if the
      client was dropped or unknown); every other remaining client keeps
      its list. */
  lemma AdmitAppends(calls: Calls, maxCalls: int, period: real, client: Client, now: real)
    requires Recorded(calls)
    requires Step(calls, maxCalls, period, client, now).0.Admitted?
    ensures var c := Step(calls, maxCalls, period, client, now).1;
            var kept := Purge(calls, now, period);
            && c.Keys == kept.Keys + {client}
            && c[client] == (if client in kept then kept[client] else []) + [now]
            && Last(c[client]) == now
            && forall k | k in kept && k != client :: c[k] == kept[k]
  {
  }

  /** The largest number of times a client is ever recorded: `maxCalls`,
      but at least one, since a client absent from the table is always
      admitted. */
  function Cap(maxCalls: int): nat {
    if maxCalls < 1 then 1 else maxCalls
  }

  predicate Bounded(calls: Calls, cap: nat) {
    forall k | k in calls :: |calls[k]| <= cap
  }

  /** Every call keeps each list non-empty and at most `Cap(maxCalls)`
      long. */
  lemma StepKeepsBound(calls: Calls, maxCalls: int, period: real, client: Client, now: real)
    requires Recorded(calls) && Bounded(calls, Cap(maxCalls))
    ensures var c := Step(calls, maxCalls, period, client, now).1;
            Recorded(c) && Bounded(c, Cap(maxCalls))
  {
    var kept := Purge(calls, now, period);
    if client in kept && |kept[client]| < maxCalls {
      assert |kept[client] + [now]| == |kept[client]| + 1;
    }
  }

  // ---------------------------------------------------------------------
  // The limiter, updating its table in place
  // ---------------------------------------------------------------------

  class RateLimiter {
    var calls: Calls
    const maxCalls: int
    const period: real

    ghost predicate Valid()
      reads this
    {
      Recorded(calls) && Bounded(calls, Cap(maxCalls))
    }

    /** `RateLimiter(max_calls=1, period=3)` by default. */
    constructor (maxCalls: int, period: real)
      ensures calls == map[] && this.maxCalls == maxCalls && this.period == period
      ensures Valid()
    {
      calls := map[];
      this.maxCalls := maxCalls;
      this.period := period;
    }

    /** The wrapper's locked section for `client` at time `now`. */
    method Call(client: Client, now: real) returns (d: Decision)
      requires Valid()
      modifies this`calls
      ensures Valid()
      ensures (d, calls) == Step(old(calls), maxCalls, period, client, now)
    {
      StepKeepsBound(calls, maxCalls, period, client, now);
      ghost var kept := Purge(calls, now, period);
      calls := map k | k in calls && now - calls[k][|calls[k]| - 1] < period :: calls[k];
      assert calls == kept;
      if client in calls && |calls[client]| >= maxCalls {
        var last := calls[client][|calls[client]| - 1];
        d := Rejected(Truncate(period - (now - last)) + 1);
        return;
      }
      if client !in calls {
        calls := calls[client := []];
      }
      calls := calls[client := calls[client] + [now]];
      d := Admitted;
      assert calls == kept[client := (if client in kept then kept[client] else []) + [now]];
    }
  }

  // ---------------------------------------------------------------------
  // The limiter the simulation endpoints use
  // ---------------------------------------------------------------------

  /** With one call per 3 seconds: a first call at `t` is admitted; a
      second call `delta` seconds later is told to wait the whole seconds
      left of the 3, plus one, while `delta` is under 3, and is admitted on
      a fresh list from then on. */
  lemma OnePerThreeSeconds(client: Client, t: real, delta: real)
    ensures var (d1, c1) := Step(map[], 1, 3.0, client, t);
            var (d2, c2) := Step(c1, 1, 3.0, client, t + delta);
            && d1 == Admitted && c1 == map[client := [t]]
            && (delta < 3.0 ==> d2 == Rejected(Truncate(3.0 - delta) + 1) && c2 == c1)
            && (delta >= 3.0 ==> d2 == Admitted && c2 == map[client := [t + delta]])
  {
    var empty: Calls := map[];
    var c1 := map[client := [t]];
    assert Purge(empty, t, 3.0) == empty;
    assert [] + [t] == [t];
    assert Step(empty, 1, 3.0, client, t) == (Admitted, c1);
    if delta < 3.0 {
      assert Purge(c1, t + delta, 3.0) == c1;
      assert WaitSeconds(3.0, t + delta, t) == Truncate(3.0 - delta) + 1;
    } else {
      assert Purge(c1, t + delta, 3.0) == empty;
      assert [] + [t + delta] == [t + delta];
    }
  }
}
