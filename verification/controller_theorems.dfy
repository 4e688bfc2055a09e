/** Accounting over whole runs of the controller. */
module ControllerTheorems {
  import opened PyText
  import opened Throttle
  import opened Backups
  import opened BackupNames
  import opened BackupRuns
  import opened Incidents
  import opened Recovery
  import opened Controller

  // ---- stretches of failures ----

  /** A good result, or a failure after which recovery succeeded or not. */
  datatype Health = Fine | Failure(recovered: bool)

  function Ends(h: Health): bool {
    h.Fine? || h.recovered
  }

  /** The recovery attempt at this tick, if there is one, succeeds. */
  predicate Recovers(g: Settings, s: Runtime, t: Tick) {
    && !t.ok
    && Failed(s.board, g.threshold, t.reason, t.id, t.now).current.Some?
    && !s.throttle.manual
    && AttemptOf(g, s, Edited(s.disk, t), t).result.success
  }

  function Seen(g: Settings, s: Runtime, t: Tick): Health {
    if t.ok then Fine else Failure(Recovers(g, s, t))
  }

  function Trace(g: Settings, ticks: seq<Tick>): seq<Health> {
    if ticks == [] then []
    else Trace(g, ticks[..|ticks| - 1]) + [Seen(g, HandledAll(g, ticks[..|ticks| - 1]), ticks[|ticks| - 1])]
  }

  predicate StretchBegins(trace: seq<Health>, a: nat)
    requires a <= |trace|
  {
    a == 0 || Ends(trace[a - 1])
  }

  /** The stretch that begins at `a` has at least `n` failures. */
  predicate HasFailures(trace: seq<Health>, a: nat, n: nat) {
    && a + n <= |trace| && StretchBegins(trace, a)
    && (forall i | a <= i < a + n :: trace[i].Failure?)
    && (forall i | a <= i < a + n - 1 :: !trace[i].recovered)
  }

  /** Where the maximal stretches of failures that reach the threshold begin. */
  function Reaching(trace: seq<Health>, threshold: nat): set<nat> {
    set a: nat | a < |trace| && HasFailures(trace, a, threshold)
  }

  /** The counter is the length of the stretch under way. */
  predicate UnderWay(trace: seq<Health>, failures: nat) {
    && failures <= |trace|
    && StretchBegins(trace, |trace| - failures)
    && (forall i | |trace| - failures <= i < |trace| :: trace[i] == Failure(false))
  }

  /** Incidents in relation to the counters and to the trace. */
  ghost predicate Booked(g: Settings, s: Runtime, trace: seq<Health>) {
    && UnderWay(trace, s.board.failures)
    && (s.board.current.Some? <==> s.board.failures >= g.threshold)
    && s.board.openings == s.recovered + s.closedByGood + (if s.board.current.Some? then 1 else 0)
    && s.board.openings == |Reaching(trace, g.threshold)|
  }

  lemma {:induction false} UnderWayNext(trace: seq<Health>, failures: nat, h: Health)
    requires UnderWay(trace, failures)
    ensures UnderWay(trace + [h], if Ends(h) then 0 else failures + 1)
  {
    var trace' := trace + [h];
    if !Ends(h) {
      assert |trace'| - (failures + 1) == |trace| - failures;
    }
  }

  lemma {:induction false} EarlierStretches(trace: seq<Health>, h: Health, a: nat, n: nat)
    requires a + n <= |trace|
    ensures HasFailures(trace + [h], a, n) == HasFailures(trace, a, n)
  {
    var trace' := trace + [h];
    assert forall i | 0 <= i < |trace| :: trace'[i] == trace[i];
  }

  /** One more result completes a stretch of `threshold` failures exactly when it is a failure and
      the counter stands one below the threshold. */
  lemma {:induction false} CompletesIff(trace: seq<Health>, failures: nat, h: Health, threshold: nat)
    requires UnderWay(trace, failures) && 1 <= threshold <= |trace| + 1
    ensures HasFailures(trace + [h], |trace| + 1 - threshold, threshold) <==> h.Failure? && failures + 1 == threshold
  {
    var trace', n := trace + [h], |trace|;
    var a := n + 1 - threshold;
    assert forall i | 0 <= i < n :: trace'[i] == trace[i];
    assert trace'[n] == h;
    assert failures > n - a ==> !StretchBegins(trace', a);
    assert failures < n - a ==> Ends(trace'[n - failures - 1]);
  }

  lemma {:induction false} ReachingNext(trace: seq<Health>, failures: nat, h: Health, threshold: nat)
    requires UnderWay(trace, failures) && threshold >= 1
    ensures |Reaching(trace + [h], threshold)| ==
            |Reaching(trace, threshold)| + if h.Failure? && failures + 1 == threshold then 1 else 0
  {
    hide HasFailures, UnderWay;
    var trace', n := trace + [h], |trace|;
    var before, after := Reaching(trace, threshold), Reaching(trace', threshold);
    forall a: nat ensures a in after <==> a in before || (a + threshold == n + 1 && HasFailures(trace', a, threshold)) {
      if a + threshold <= n {
        EarlierStretches(trace, h, a, threshold);
      } else {
        NoRoom(trace, a, threshold);
        if a + threshold > n + 1 { NoRoom(trace', a, threshold); }
      }
    }
    if threshold <= n + 1 {
      CompletesIff(trace, failures, h, threshold);
      var a := n + 1 - threshold;
      NoRoom(trace, a, threshold);
      assert a !in before;
      assert after == if HasFailures(trace', a, threshold) then before + {a} else before;
    } else {
      CounterFits(trace, failures);
      assert after == before;
    }
  }

  lemma CounterFits(trace: seq<Health>, failures: nat)
    requires UnderWay(trace, failures)
    ensures failures <= |trace|
  {
  }

  lemma NoRoom(trace: seq<Health>, a: nat, n: nat)
    requires a + n > |trace|
    ensures !HasFailures(trace, a, n)
  {
  }

  lemma {:induction false} TickKeepsBooked(g: Settings, s: Runtime, trace: seq<Health>, t: Tick)
    requires ValidSettings(g) && Booked(g, s, trace)
    ensures Booked(g, Handled(g, s, t), trace + [Seen(g, s, t)])
  {
    hide Attempted, DoneDeed, Listing, Reaching, UnderWay;
    var h := Seen(g, s, t);
    UnderWayNext(trace, s.board.failures, h);
    ReachingNext(trace, s.board.failures, h, g.threshold);
  }

  lemma {:induction false} RunIsBooked(g: Settings, ticks: seq<Tick>)
    requires ValidSettings(g)
    ensures Booked(g, HandledAll(g, ticks), Trace(g, ticks))
  {
    hide Handled, Seen;
    if ticks == [] {
      assert Reaching([], g.threshold) == {};
    } else {
      RunIsBooked(g, ticks[..|ticks| - 1]);
      TickKeepsBooked(g, HandledAll(g, ticks[..|ticks| - 1]), Trace(g, ticks[..|ticks| - 1]), ticks[|ticks| - 1]);
    }
  }

  /** An incident is open exactly when the counter has reached the threshold; as many incidents were
      opened as there are maximal stretches of failures that reach it, and each was ended by a
      recovery or by a good result or is still open. */
  lemma {:induction false} IncidentAccounting(g: Settings, ticks: seq<Tick>)
    requires ValidSettings(g)
    ensures var s := HandledAll(g, ticks);
            && (s.board.current.Some? <==> s.board.failures >= g.threshold)
            && s.board.openings == |Reaching(Trace(g, ticks), g.threshold)|
            && s.board.openings == s.recovered + s.closedByGood + (if s.board.current.Some? then 1 else 0)
  {
    hide HandledAll, Trace, Reaching, UnderWay;
    RunIsBooked(g, ticks);
  }

  /** One tick restarts the container only at a failure while an incident is open. */
  lemma {:induction false} RestartingTick(g: Settings, s: Runtime, t: Tick)
    requires Handled(g, s, t).restarts != s.restarts
    ensures !t.ok && Failed(s.board, g.threshold, t.reason, t.id, t.now).current.Some? && Seen(g, s, t).Failure?
  {
    hide Attempted, DoneDeed, Listing, BackupDue;
  }

  /** The container is restarted only at a failure that belongs to a stretch that has reached the
      threshold. */
  lemma {:induction false} RestartsOnlyInIncidents(g: Settings, ticks: seq<Tick>, t: Tick)
    requires ValidSettings(g)
    requires HandledAll(g, ticks + [t]).restarts != HandledAll(g, ticks).restarts
    ensures !t.ok
    ensures exists a: nat, n: nat :: n >= g.threshold && a + n == |ticks| + 1 && HasFailures(Trace(g, ticks + [t]), a, n)
  {
    hide Handled, Reaching, Seen;
    assert (ticks + [t])[..|ticks|] == ticks;
    RunIsBooked(g, ticks);
    TraceSize(g, ticks);
    var s, trace := HandledAll(g, ticks), Trace(g, ticks);
    RestartingTick(g, s, t);
    var n := s.board.failures + 1;
    var trace' := trace + [Seen(g, s, t)];
    assert Trace(g, ticks + [t]) == trace';
    var a := |trace| - s.board.failures;
    assert forall i | 0 <= i < |trace| :: trace'[i] == trace[i];
    assert HasFailures(trace', a, n);
  }

  lemma {:induction false} TraceSize(g: Settings, ticks: seq<Tick>)
    ensures |Trace(g, ticks)| == |ticks|
  {
    hide Seen, HandledAll;
    if ticks != [] { TraceSize(g, ticks[..|ticks| - 1]); }
  }

  lemma {:induction false} TickAfterManual(g: Settings, s: Runtime, t: Tick)
    requires s.throttle.manual
    ensures var later := Handled(g, s, t);
            && later.throttle.manual && later.restarts == s.restarts
            && later.recovered == s.recovered && later.calls == s.calls
  {
    hide Attempted, DoneDeed, Listing, BackupDue;
  }

  /** Once manual intervention is required, no later result restarts the container or recovers. */
  lemma {:induction false} NothingAfterManual(g: Settings, ticks: seq<Tick>, more: seq<Tick>)
    requires HandledAll(g, ticks).throttle.manual
    ensures var s, later := HandledAll(g, ticks), HandledAll(g, ticks + more);
            && later.throttle.manual && later.restarts == s.restarts
            && later.recovered == s.recovered && later.calls == s.calls
  {
    hide Handled;
    if more == [] {
      assert ticks + more == ticks;
    } else {
      var all := ticks + more;
      assert all[..|all| - 1] == ticks + more[..|more| - 1];
      NothingAfterManual(g, ticks, more[..|more| - 1]);
      TickAfterManual(g, HandledAll(g, all[..|all| - 1]), all[|all| - 1]);
    }
  }

  // ---- the throttles within the controller ----

  function Clocks(ticks: seq<Tick>): seq<int> {
    seq(|ticks|, i requires 0 <= i < |ticks| => ticks[i].now)
  }

  /** The throttle state is that of the recovery calls, which follow the clock; every restart belongs
      to an attempt that was started. */
  ghost predicate Throttling(g: Settings, s: Runtime, clock: int) {
    && s.throttle == After(g.limits, s.calls)
    && Ordered(s.calls)
    && (s.calls != [] ==> s.calls[|s.calls| - 1] <= clock)
    && s.restarts <= |Starts(g.limits, s.calls)|
  }

  lemma {:induction false} TickKeepsThrottling(g: Settings, s: Runtime, clock: int, t: Tick)
    requires Throttling(g, s, clock) && clock <= t.now
    ensures Throttling(g, Handled(g, s, t), t.now)
  {
    hide DoneDeed, Listing, BackupDue, Popped, After, Starts, Restoration, Restarting;
    OneMore(g.limits, s.calls, t.now);
  }

  lemma {:induction false} RunIsThrottling(g: Settings, ticks: seq<Tick>, clock: int)
    requires Ordered(Clocks(ticks)) && (ticks != [] ==> ticks[|ticks| - 1].now <= clock)
    ensures Throttling(g, HandledAll(g, ticks), clock)
  {
    hide Handled;
    if ticks != [] {
      var most, t := ticks[..|ticks| - 1], ticks[|ticks| - 1];
      assert Clocks(most) == Clocks(ticks)[..|most|];
      assert most != [] ==> Clocks(ticks)[|most| - 1] <= Clocks(ticks)[|most|];
      RunIsThrottling(g, most, t.now);
      TickKeepsThrottling(g, HandledAll(g, most), t.now, t);
    }
  }

  /** Whatever the health results, every interval as long as the window holds at most the permitted
      number of attempt starts, and restarts never outnumber attempt starts. */
  lemma ControllerKeepsWindow(g: Settings, ticks: seq<Tick>, from: int)
    requires ValidSettings(g) && Ordered(Clocks(ticks))
    ensures var s := HandledAll(g, ticks);
            && |Within(Starts(g.limits, s.calls), from, from + g.limits.window)| <= g.limits.most
            && s.restarts <= |Starts(g.limits, s.calls)|
  {
    hide HandledAll, Starts, After, Within;
    RunIsThrottling(g, ticks, if ticks == [] then 0 else ticks[|ticks| - 1].now);
    SlidingWindowSafety(g.limits, HandledAll(g, ticks).calls, from);
  }

  // ---- restored configurations ----

  ghost predicate WallClockAdvances(ticks: seq<Tick>) {
    && (forall t | t in ticks :: FourDigitYear(t.at))
    && (forall i, j | 0 <= i < j < |ticks| :: Earlier(ticks[i].at, ticks[j].at))
  }

  ghost predicate SnapshotsOf(ticks: seq<Tick>, disk: Disk) {
    forall s | s in disk.snapshots :: exists i | 0 <= i < |ticks| :: ticks[i].at == s.at
  }

  lemma {:induction false} TickKeepsDisk(g: Settings, s: Runtime, t: Tick)
    requires DiskSound(g.sha, g.check, s.disk) && FourDigitYear(t.at)
    requires forall x | x in s.disk.snapshots :: Earlier(x.at, t.at)
    ensures DiskSound(g.sha, g.check, Handled(g, s, t).disk)
    ensures forall x | x in Handled(g, s, t).disk.snapshots :: x in s.disk.snapshots || x.at == t.at
  {
    hide Mirrors, Decide, Restoration, Restarting, Earlier, FourDigitYear, BackupDue, PlanUnder, DidAll, Plan;
    DeedKeepsSound(g.sha, g.check, Edited(s.disk, t), SaveOf(g, t));
  }

  lemma {:induction false} RunKeepsDisk(g: Settings, ticks: seq<Tick>)
    requires WallClockAdvances(ticks)
    ensures DiskSound(g.sha, g.check, HandledAll(g, ticks).disk) && SnapshotsOf(ticks, HandledAll(g, ticks).disk)
  {
    hide Handled, Earlier, FourDigitYear, DiskSound;
    if ticks == [] {
      BlankIsSound(g.sha, g.check);
    } else {
      var most, t := ticks[..|ticks| - 1], ticks[|ticks| - 1];
      assert t in ticks;
      forall x | x in most ensures x in ticks {}
      RunKeepsDisk(g, most);
      var s := HandledAll(g, most);
      forall x | x in s.disk.snapshots ensures Earlier(x.at, t.at) {
        var i :| 0 <= i < |most| && most[i].at == x.at;
        assert ticks[i] == most[i];
      }
      TickKeepsDisk(g, s, t);
      forall x | x in Handled(g, s, t).disk.snapshots ensures exists i | 0 <= i < |ticks| :: ticks[i].at == x.at {
        if x in s.disk.snapshots {
          var i :| 0 <= i < |most| && most[i].at == x.at;
          assert ticks[i].at == x.at;
        } else {
          assert ticks[|ticks| - 1].at == x.at;
        }
      }
    }
  }

  /** In any run of the controller, whenever an attempt reports a restored configuration, the live
      configuration is the most recent completed snapshot and passes the check; any other tick leaves
      it as it was. */
  lemma {:induction false} ControllerRestoresNewest(g: Settings, ticks: seq<Tick>, t: Tick)
    requires WallClockAdvances(ticks)
    ensures var s := HandledAll(g, ticks); var d := Edited(s.disk, t); var after := Handled(g, s, t).disk;
            if !t.ok && Failed(s.board, g.threshold, t.reason, t.id, t.now).current.Some? && !s.throttle.manual
               && AttemptOf(g, s, d, t).result.restored
            then
              && s.disk.snapshots != []
              && after.config == Some(s.disk.snapshots[|s.disk.snapshots| - 1].contents)
              && g.check(after.config.value)
            else
              after.config == d.config
  {
    hide HandledAll, Mirrors, Attempted, BackupDue, PlanUnder, DidAll, Plan;
    RunKeepsDisk(g, ticks);
    var s := HandledAll(g, ticks);
    var d := Edited(s.disk, t);
    RestoredMeansNewestSnapshot(g.sha, g.check, d, g.limits, g.wait, s.throttle, t.now, ConfigValid(g, d), t.outside);
  }
}
