/** The timing loops: polling until a deadline, and checks on fixed deadlines.  Times are whole
    microseconds. */
module Scheduling {

  /** Half a second */
  const POLL := 500_000

  /** What polling meets: whether poll `k` succeeds, how long it takes, and by how much the sleep
      after it overruns what was asked for. */
  datatype World = World(up: nat -> bool, cost: nat -> nat, late: nat -> nat)

  function Min(a: int, b: int): int {
    if a < b then a else b
  }

  function Max(a: int, b: int): int {
    if a < b then b else a
  }

  /** Poll number `k` at time `clock`, and on until success or the deadline: the answer and the
      number of polls. */
  function Polled(w: World, interval: int, deadline: int, clock: int, k: nat): (bool, nat)
    requires interval > 0
    decreases if clock < deadline then deadline - clock else 0
  {
    var now := clock + w.cost(k);
    if w.up(k) then (true, k + 1)
    else if deadline - now <= 0 then (false, k + 1)
    else Polled(w, interval, deadline, now + Min(interval, deadline - now) + w.late(k), k + 1)
  }

  function CeilDiv(a: nat, b: int): nat
    requires b > 0
  {
    (a + b - 1) / b
  }

  /** The time of poll `k`, if polling gets that far. */
  function PollTime(w: World, interval: int, deadline: int, clock: int, k: nat): int {
    if k == 0 then clock
    else
      var now := PollTime(w, interval, deadline, clock, k - 1) + w.cost(k - 1);
      now + Min(interval, deadline - now) + w.late(k - 1)
  }

  /** Poll `i` is negative and before the deadline, so that there is another. */
  predicate Continues(w: World, interval: int, deadline: int, clock: int, i: nat) {
    !w.up(i) && PollTime(w, interval, deadline, clock, i) + w.cost(i) < deadline
  }

  /** The polls up to the last continue, and the last one settles the answer. */
  predicate Settles(w: World, interval: int, deadline: int, clock: int, answer: bool, polls: nat) {
    && polls >= 1
    && (forall i: nat | i < polls - 1 :: Continues(w, interval, deadline, clock, i))
    && answer == w.up(polls - 1)
    && (!answer ==> PollTime(w, interval, deadline, clock, polls - 1) + w.cost(polls - 1) >= deadline)
  }

  lemma {:induction false} PolledFrom(w: World, interval: int, deadline: int, clock: int, k: nat)
    requires interval > 0
    requires forall i: nat | i < k :: Continues(w, interval, deadline, clock, i)
    ensures var (answer, polls) := Polled(w, interval, deadline, PollTime(w, interval, deadline, clock, k), k);
            polls > k && Settles(w, interval, deadline, clock, answer, polls)
    decreases if PollTime(w, interval, deadline, clock, k) < deadline
              then deadline - PollTime(w, interval, deadline, clock, k) else 0
  {
    if Continues(w, interval, deadline, clock, k) {
      PolledFrom(w, interval, deadline, clock, k + 1);
    }
  }

  /** Polling settles in one way only. */
  lemma SettlesOnce(w: World, interval: int, deadline: int, clock: int, a: bool, n: nat, b: bool, m: nat)
    requires Settles(w, interval, deadline, clock, a, n) && Settles(w, interval, deadline, clock, b, m)
    ensures a == b && n == m
  {
    hide PollTime;
    assert n < m ==> Continues(w, interval, deadline, clock, n - 1);
    assert m < n ==> Continues(w, interval, deadline, clock, m - 1);
  }

  /** Polling until this deadline comes to this answer. */
  ghost predicate Comes(w: World, interval: int, deadline: int, clock: int, answer: bool) {
    exists polls :: Settles(w, interval, deadline, clock, answer, polls)
  }

  /** Polling gives exactly the answer it comes to. */
  lemma {:induction false} AnswerIff(w: World, interval: int, clock: int, timeout: nat, answer: bool)
    requires interval > 0
    ensures Polled(w, interval, clock + timeout, clock, 0).0 == answer <==> Comes(w, interval, clock + timeout, clock, answer)
  {
    hide Settles, Polled;
    PollingIsBounded(w, interval, clock, timeout);
    var (given, polls) := Polled(w, interval, clock + timeout, clock, 0);
    if Comes(w, interval, clock + timeout, clock, answer) {
      var n :| Settles(w, interval, clock + timeout, clock, answer, n);
      SettlesOnce(w, interval, clock + timeout, clock, given, polls, answer, n);
    }
  }

  lemma {:induction false} PollsAreApart(w: World, interval: int, deadline: int, clock: int, k: nat)
    requires interval > 0
    ensures PollTime(w, interval, deadline, clock, k) >= Min(clock + k * interval, deadline)
  {
    if k > 0 {
      PollsAreApart(w, interval, deadline, clock, k - 1);
      assert k * interval == (k - 1) * interval + interval;
    }
  }

  /** Bounded polling: at most one poll more than the intervals that fit before the deadline; a
      negative answer means that every poll was negative and the deadline had passed. */
  lemma {:induction false} PollingIsBounded(w: World, interval: int, clock: int, timeout: nat)
    requires interval > 0
    ensures var (answer, polls) := Polled(w, interval, clock + timeout, clock, 0);
            && 1 <= polls <= CeilDiv(timeout, interval) + 1
            && Settles(w, interval, clock + timeout, clock, answer, polls)
  {
    hide CeilDiv, Polled;
    var deadline := clock + timeout;
    PolledFrom(w, interval, deadline, clock, 0);
    var (answer, polls) := Polled(w, interval, deadline, clock, 0);
    if polls >= 2 {
      assert Continues(w, interval, deadline, clock, polls - 2);
      PollsAreApart(w, interval, deadline, clock, polls - 2);
      FitsBefore(polls - 2, interval, timeout);
    }
  }

  lemma FitsBefore(n: nat, interval: int, timeout: nat)
    requires interval > 0 && n * interval < timeout
    ensures n + 1 <= CeilDiv(timeout, interval)
  {
    var c, r := CeilDiv(timeout, interval), (timeout + interval - 1) % interval;
    assert timeout + interval - 1 == interval * c + r;
    assert interval * c > interval * n by { assert n * interval == interval * n; }
  }

  /** The time the first `k` polls take and the sleeps after them overrun. */
  function Spent(w: World, k: nat): nat {
    if k == 0 then 0 else Spent(w, k - 1) + w.cost(k - 1) + w.late(k - 1)
  }

  /** While polling continues nothing but sleeping is added to that: at most an interval each time,
      and exactly that while the deadline is further off. */
  lemma {:induction false} PollsFollowTheClock(w: World, interval: int, deadline: int, clock: int, k: nat)
    requires interval > 0
    requires forall i: nat | i < k :: Continues(w, interval, deadline, clock, i)
    ensures var time := PollTime(w, interval, deadline, clock, k);
            && clock + Spent(w, k) <= time <= clock + Spent(w, k) + k * interval
            && (k > 0 ==> time == Min(PollTime(w, interval, deadline, clock, k - 1) + w.cost(k - 1) + interval, deadline)
                                  + w.late(k - 1))
  {
    if k > 0 {
      PollsFollowTheClock(w, interval, deadline, clock, k - 1);
      assert Continues(w, interval, deadline, clock, k - 1);
      assert k * interval == (k - 1) * interval + interval;
    }
  }

  /** Polls that take no time, after sleeps that do not overrun, come an interval apart. */
  lemma {:induction false} IdealPollTimes(w: World, interval: int, deadline: int, clock: int, k: nat)
    requires interval > 0 && clock <= deadline && forall i: nat :: w.cost(i) == 0 && w.late(i) == 0
    ensures PollTime(w, interval, deadline, clock, k) == Min(clock + k * interval, deadline)
  {
    if k > 0 {
      IdealPollTimes(w, interval, deadline, clock, k - 1);
      assert k * interval == (k - 1) * interval + interval;
    }
  }

  lemma LastIntervalReaches(interval: int, timeout: nat)
    requires interval > 0
    ensures CeilDiv(timeout, interval) * interval >= timeout
    ensures forall i: nat | i < CeilDiv(timeout, interval) :: i * interval < timeout
  {
    var c, r := CeilDiv(timeout, interval), (timeout + interval - 1) % interval;
    assert timeout + interval - 1 == interval * c + r;
    assert interval * c == c * interval;
    forall i: nat | i < c ensures i * interval < timeout {
      assert (i + 1) * interval <= c * interval;
      assert (i + 1) * interval == i * interval + interval;
    }
  }

  /** The bound on the polls is reached: with ideal polls and sleeps and nothing ever up there are
      exactly that many. */
  lemma {:induction false} PollingBoundIsReached(w: World, interval: int, clock: int, timeout: nat)
    requires interval > 0 && forall i: nat :: !w.up(i) && w.cost(i) == 0 && w.late(i) == 0
    ensures Polled(w, interval, clock + timeout, clock, 0) == (false, CeilDiv(timeout, interval) + 1)
  {
    hide Polled, PollTime, CeilDiv;
    var deadline, n := clock + timeout, CeilDiv(timeout, interval);
    LastIntervalReaches(interval, timeout);
    forall i: nat | i < n ensures Continues(w, interval, deadline, clock, i) {
      IdealPollTimes(w, interval, deadline, clock, i);
    }
    IdealPollTimes(w, interval, deadline, clock, n);
    PollingIsBounded(w, interval, clock, timeout);
    var (answer, polls) := Polled(w, interval, deadline, clock, 0);
    SettlesOnce(w, interval, deadline, clock, answer, polls, false, n + 1);
  }

  datatype Waiting = Invalid | Running | NotRunning

  /** `wait_for_running` */
  method WaitForRunning(timeout: int, interval: int, clock: int, w: World) returns (answer: Waiting, polls: nat)
    ensures answer == Invalid <==> timeout < 0 || interval <= 0
    ensures answer != Invalid ==> (answer == Running, polls) == Polled(w, interval, clock + timeout, clock, 0)
    ensures answer != Invalid ==> 1 <= polls <= CeilDiv(timeout, interval) + 1
    ensures answer != Invalid ==> Settles(w, interval, clock + timeout, clock, answer == Running, polls)
  {
    polls := 0;
    if timeout < 0 || interval <= 0 {
      return Invalid, 0;
    }
    PollingIsBounded(w, interval, clock, timeout);
    var time, deadline := clock, clock + timeout;
    while true
      invariant Polled(w, interval, deadline, time, polls) == Polled(w, interval, clock + timeout, clock, 0)
      decreases if time < deadline then deadline - time else 0
    {
      time := time + w.cost(polls);
      polls := polls + 1;
      if w.up(polls - 1) {
        return Running, polls;
      }
      var remaining := deadline - time;
      if remaining <= 0 {
        return NotRunning, polls;
      }
      time := time + Min(interval, remaining) + w.late(polls - 1);
    }
  }

  /** The loop after a restart that repeats the health check until it succeeds or time is up. */
  method AwaitReadiness(wait: nat, clock: int, w: World) returns (ok: bool, checks: nat)
    ensures (ok, checks) == Polled(w, POLL, clock + wait, clock, 0)
    ensures 1 <= checks <= CeilDiv(wait, POLL) + 1
    ensures Settles(w, POLL, clock + wait, clock, ok, checks)
  {
    PollingIsBounded(w, POLL, clock, wait);
    var deadline := clock + wait;
    var time := clock + w.cost(0);
    ok, checks := w.up(0), 1;
    while !ok
      invariant checks >= 1 && ok == w.up(checks - 1)
      invariant ok ==> Polled(w, POLL, clock + wait, clock, 0) == (true, checks)
      invariant !ok && deadline - time <= 0 ==> Polled(w, POLL, clock + wait, clock, 0) == (false, checks)
      invariant !ok && deadline - time > 0 ==>
                  Polled(w, POLL, clock + wait, clock, 0) ==
                  Polled(w, POLL, deadline, time + Min(POLL, deadline - time) + w.late(checks - 1), checks)
      decreases !ok, if time < deadline then deadline - time else 0
    {
      var remaining := deadline - time;
      if remaining <= 0 {
        break;
      }
      time := time + Min(POLL, remaining) + w.late(checks - 1);
      time := time + w.cost(checks);
      ok, checks := w.up(checks), checks + 1;
    }
  }

  // ---- checks on fixed deadlines ----

  /** The deadline of check `k` */
  function Due(interval: int, t0: int, k: nat): int {
    t0 + k * interval
  }

  lemma DueNext(interval: int, t0: int, k: nat)
    ensures Due(interval, t0, 0) == t0
    ensures Due(interval, t0, k + 1) == Due(interval, t0, k) + interval
  {
    assert (k + 1) * interval == k * interval + interval;
  }

  /** When check `k` starts, with an exact sleeper: no earlier than its deadline, and not before the
      check and callback before it, of duration `d(k - 1)`, are over. */
  function CheckStart(d: nat -> nat, interval: int, t0: int, k: nat): int {
    if k == 0 then t0
    else Max(CheckStart(d, interval, t0, k - 1) + d(k - 1), Due(interval, t0, k))
  }

  lemma CheckStartNext(d: nat -> nat, interval: int, t0: int, k: nat)
    ensures CheckStart(d, interval, t0, 0) == t0
    ensures CheckStart(d, interval, t0, k + 1) ==
            Max(CheckStart(d, interval, t0, k) + d(k), Due(interval, t0, k + 1))
  {
  }

  /** `run`: the start times of `iterations` checks */
  method RunChecks(d: nat -> nat, interval: int, t0: int, iterations: nat) returns (starts: seq<int>)
    ensures |starts| == iterations
    ensures forall k: nat | k < iterations :: starts[k] == CheckStart(d, interval, t0, k)
  {
    hide Due, CheckStart;
    starts := [];
    var clock, completed, nextDeadline := t0, 0, t0;
    DueNext(interval, t0, 0);
    CheckStartNext(d, interval, t0, 0);
    while completed < iterations
      invariant completed == |starts| <= iterations
      invariant nextDeadline == Due(interval, t0, completed)
      invariant completed < iterations ==> clock == CheckStart(d, interval, t0, completed)
      invariant forall k: nat | k < completed :: starts[k] == CheckStart(d, interval, t0, k)
    {
      starts := starts + [clock];
      clock := clock + d(completed);
      completed := completed + 1;
      if completed >= iterations {
        return;
      }
      DueNext(interval, t0, completed - 1);
      CheckStartNext(d, interval, t0, completed - 1);
      nextDeadline := nextDeadline + interval;
      clock := clock + Max(0, nextDeadline - clock);
    }
  }

  function Lateness(d: nat -> nat, interval: int, t0: int, k: nat): int {
    CheckStart(d, interval, t0, k) - Due(interval, t0, k)
  }

  /** Lateness does not accumulate: what is left over from one check is reduced by every interval. */
  lemma LatenessNext(d: nat -> nat, interval: int, t0: int, k: nat)
    ensures Lateness(d, interval, t0, 0) == 0
    ensures Lateness(d, interval, t0, k + 1) == Max(0, Lateness(d, interval, t0, k) + d(k) - interval)
  {
    DueNext(interval, t0, k);
  }

  /** The durations of the checks from `j` up to `k`. */
  function Busy(d: nat -> nat, j: nat, k: nat): nat
    requires j <= k
  {
    if j == k then 0 else Busy(d, j, k - 1) + d(k - 1)
  }

  /** Check `k`, had it and those after `j` run without a pause from the deadline of `j`. */
  function BackToBack(d: nat -> nat, interval: int, t0: int, j: nat, k: nat): int
    requires j <= k
  {
    Due(interval, t0, j) + Busy(d, j, k)
  }

  /** The start of check `k` is the latest of the deadlines up to it, each followed without a pause
      by the checks from there. */
  lemma {:induction false} CheckStartIsMaximum(d: nat -> nat, interval: int, t0: int, k: nat)
    ensures forall j: nat | j <= k :: CheckStart(d, interval, t0, k) >= BackToBack(d, interval, t0, j, k)
    ensures exists j: nat | j <= k :: CheckStart(d, interval, t0, k) == BackToBack(d, interval, t0, j, k)
  {
    hide Due;
    DueNext(interval, t0, 0);
    if k == 0 {
      assert CheckStart(d, interval, t0, 0) == BackToBack(d, interval, t0, 0, 0);
    } else {
      CheckStartIsMaximum(d, interval, t0, k - 1);
      forall j: nat | j <= k ensures CheckStart(d, interval, t0, k) >= BackToBack(d, interval, t0, j, k) {
        if j < k {
          assert CheckStart(d, interval, t0, k - 1) >= BackToBack(d, interval, t0, j, k - 1);
        }
      }
      var j: nat :| j <= k - 1 && CheckStart(d, interval, t0, k - 1) == BackToBack(d, interval, t0, j, k - 1);
      if CheckStart(d, interval, t0, k) == CheckStart(d, interval, t0, k - 1) + d(k - 1) {
        assert CheckStart(d, interval, t0, k) == BackToBack(d, interval, t0, j, k);
      } else {
        assert CheckStart(d, interval, t0, k) == BackToBack(d, interval, t0, k, k);
      }
    }
  }

  predicate OnTime(d: nat -> nat, interval: int, t0: int, k: nat) {
    CheckStart(d, interval, t0, k) == Due(interval, t0, k)
  }

  /** All checks up to `n` are on time exactly if none before was longer than the interval. */
  lemma {:induction false} OnTimeIff(d: nat -> nat, interval: int, t0: int, n: nat)
    ensures (forall k: nat | k <= n :: OnTime(d, interval, t0, k)) <==> (forall k: nat | k < n :: d(k) <= interval)
  {
    hide Due;
    DueNext(interval, t0, 0);
    if n > 0 {
      OnTimeIff(d, interval, t0, n - 1);
      DueNext(interval, t0, n - 1);
      assert OnTime(d, interval, t0, n - 1) ==> (OnTime(d, interval, t0, n) <==> d(n - 1) <= interval);
      if forall k: nat | k <= n :: OnTime(d, interval, t0, k) {
        assert OnTime(d, interval, t0, n - 1) && OnTime(d, interval, t0, n);
        forall k: nat | k < n ensures d(k) <= interval {}
      }
      if forall k: nat | k < n :: d(k) <= interval {
        assert d(n - 1) <= interval;
        assert OnTime(d, interval, t0, n - 1);
        forall k: nat | k <= n ensures OnTime(d, interval, t0, k) {}
      }
    }
  }
}
