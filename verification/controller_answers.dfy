/** When the controller acts: which good results take a backup, which bad ones try a recovery, and
    which incident is open, told by the results and the completed backups of the run so far. */
module ControllerAnswers {
  import opened PyText
  import opened Throttle
  import opened Backups
  import opened BackupNames
  import opened BackupRuns
  import opened Incidents
  import opened Recovery
  import opened RecoveryAnswers
  import opened Controller
  import opened ControllerTheorems

  // ---- backups ----

  /** The backup of this tick, if one is taken, is not disturbed. */
  predicate SaveIsUndisturbed(g: Settings, d: Disk, t: Tick) {
    d.config.Some? && SaveCompletes(g, d, t)
  }

  /** A backup was taken and completed. */
  predicate BackedUp(g: Settings, before: Runtime, t: Tick, after: Runtime) {
    |after.disk.snapshots| > |before.disk.snapshots| && SaveIsUndisturbed(g, Edited(before.disk, t), t)
  }

  /** When the last backup of the run completed. */
  function LastBackupAt(g: Settings, ticks: seq<Tick>): Option<int> {
    if ticks == [] then None
    else
      var most, t := ticks[..|ticks| - 1], ticks[|ticks| - 1];
      if BackedUp(g, HandledAll(g, most), t, HandledAll(g, ticks)) then Some(t.now) else LastBackupAt(g, most)
  }

  /** Nothing is listed, or no backup has completed, or the last one not within the interval. */
  predicate Stale(g: Settings, ticks: seq<Tick>, files: map<string, string>, now: int) {
    var last := LastBackupAt(g, ticks);
    Listing(files) == [] || last == None || now - last.value >= g.backupInterval
  }

  predicate Sane(g: Settings, d: Disk) {
    d.config.Some? && g.check(d.config.value)
  }

  lemma {:induction false} TickBacksUp(g: Settings, s: Runtime, t: Tick)
    requires ValidSettings(g)
    ensures var after := Handled(g, s, t);
            after.lastBackup == if BackedUp(g, s, t, after) then Some(t.now) else s.lastBackup
  {
    hide Attempted, Listing, DidAll, BackupName, Plan, Edited;
    var d := Edited(s.disk, t);
    EditKeepsDirectory(s.disk, t);
    if d.config.Some? {
      PlanIsLong(g.sha, d.dir, Snapshot(t.at, d.config.value), g.retention);
    }
  }

  lemma EditKeepsDirectory(d: Disk, t: Tick)
    ensures Edited(d, t).dir == d.dir && Edited(d, t).snapshots == d.snapshots
  {
  }

  lemma AllButLast(g: Settings, ticks: seq<Tick>, t: Tick)
    ensures HandledAll(g, ticks + [t]) == Handled(g, HandledAll(g, ticks), t)
    ensures LastBackupAt(g, ticks + [t]) ==
            if BackedUp(g, HandledAll(g, ticks), t, HandledAll(g, ticks + [t])) then Some(t.now)
            else LastBackupAt(g, ticks)
  {
    hide Handled, BackedUp;
    assert (ticks + [t])[..|ticks|] == ticks;
  }

  /** The remembered time is that of the last completed backup. */
  lemma {:induction false} LastBackupIsRemembered(g: Settings, ticks: seq<Tick>)
    requires ValidSettings(g)
    ensures HandledAll(g, ticks).lastBackup == LastBackupAt(g, ticks)
  {
    hide Handled, BackedUp;
    if ticks != [] {
      var most, t := ticks[..|ticks| - 1], ticks[|ticks| - 1];
      LastBackupIsRemembered(g, most);
      TickBacksUp(g, HandledAll(g, most), t);
    }
  }

  /** A snapshot is taken at a good result exactly if the configuration is sane and backups are
      stale; every other result leaves directory and snapshots alone. */
  lemma {:induction false} SnapshotTakenIff(g: Settings, ticks: seq<Tick>, t: Tick)
    requires ValidSettings(g)
    ensures var before, after := HandledAll(g, ticks).disk, HandledAll(g, ticks + [t]).disk;
            var d := Edited(before, t);
            if t.ok && Sane(g, d) && Stale(g, ticks, before.dir.files, t.now) then
              && after.config == d.config
              && after.snapshots == if t.fault == NoFault && t.steps >= 2
                                    then before.snapshots + [Snapshot(t.at, d.config.value)] else before.snapshots
            else
              after.dir == before.dir && after.snapshots == before.snapshots
  {
    hide Attempted, Listing, DidAll, BackupName, PlanUnder, Plan, HandledAll, LastBackupAt, Edited;
    LastBackupIsRemembered(g, ticks);
    AllButLast(g, ticks, t);
    EditKeepsDirectory(HandledAll(g, ticks).disk, t);
  }

  /** After a good result with a sane configuration and an undisturbed save a backup is listed, and
      the last completed one is within the interval. */
  lemma {:induction false} GoodResultLeavesAFreshBackup(g: Settings, ticks: seq<Tick>, t: Tick)
    requires ValidSettings(g) && g.backupInterval > 0 && WallClockAdvances(ticks + [t])
    requires var d := Edited(HandledAll(g, ticks).disk, t);
             t.ok && Sane(g, d) && SaveIsUndisturbed(g, d, t)
    ensures var last := LastBackupAt(g, ticks + [t]);
            && Listing(HandledAll(g, ticks + [t]).disk.dir.files) != []
            && last.Some? && t.now - last.value < g.backupInterval
  {
    hide Handled, Listing, BackupName, SaveIsUndisturbed, HandledAll, LastBackupAt, Edited, WallClockAdvances, DiskSound;
    var before, after := HandledAll(g, ticks).disk, HandledAll(g, ticks + [t]).disk;
    var d := Edited(before, t);
    EditKeepsDirectory(before, t);
    UndisturbedTakesBoth(g, d, t);
    SnapshotTakenIff(g, ticks, t);
    AllButLast(g, ticks, t);
    if Stale(g, ticks, before.dir.files, t.now) {
      RunKeepsDisk(g, ticks + [t]);
      SomethingIsListed(g.sha, g.check, after);
    }
  }

  /** An undisturbed save gets past both renames. */
  lemma UndisturbedTakesBoth(g: Settings, d: Disk, t: Tick)
    requires SaveIsUndisturbed(g, d, t)
    ensures t.fault == NoFault && t.steps >= 2
  {
    hide BackupName, Listing, DidAll, DigestFile;
  }

  lemma SomethingIsListed(sha: Hash, check: string -> bool, disk: Disk)
    requires DiskSound(sha, check, disk) && disk.snapshots != []
    ensures Listing(disk.dir.files) != []
  {
    hide Listing;
  }

  // ---- recoveries ----

  /** The last `n` results are the failures of one stretch. */
  predicate StretchOf(trace: seq<Health>, n: nat) {
    n <= |trace| && HasFailures(trace, |trace| - n, n)
  }

  lemma {:induction false} StretchIff(trace: seq<Health>, failures: nat, h: Health, n: nat)
    requires UnderWay(trace, failures) && h.Failure? && n >= 1
    ensures StretchOf(trace + [h], n) ==> n <= failures + 1
    ensures StretchOf(trace + [h], failures + 1)
  {
    var trace' := trace + [h];
    assert forall i | 0 <= i < |trace| :: trace'[i] == trace[i];
    assert n > failures + 1 && n <= |trace'| ==> Ends(trace'[|trace| - failures - 1]);
  }

  /** A recovery is tried at a result if and only if it is the latest of a stretch of at least
      `threshold` failures and manual intervention is not required. */
  lemma {:induction false} RecoveryTriedIff(g: Settings, ticks: seq<Tick>, t: Tick)
    requires ValidSettings(g)
    ensures var s, after := HandledAll(g, ticks), HandledAll(g, ticks + [t]);
            after.calls ==
            if !s.throttle.manual && (exists n :: n >= g.threshold && StretchOf(Trace(g, ticks + [t]), n))
            then s.calls + [t.now] else s.calls
  {
    hide Handled, HandledAll, Reaching, StretchOf, UnderWay, Seen, Trace;
    var s := HandledAll(g, ticks);
    AllButLast(g, ticks, t);
    RunIsBooked(g, ticks);
    CallsNext(g, s, t);
    TraceNext(g, ticks, t);
    var trace, h := Trace(g, ticks), Seen(g, s, t);
    if t.ok {
      NoStretch(trace + [h]);
    } else {
      forall n: nat | n >= 1 ensures StretchOf(trace + [h], n) ==> n <= s.board.failures + 1 {
        StretchIff(trace, s.board.failures, h, n);
      }
      StretchIff(trace, s.board.failures, h, 1);
    }
  }

  lemma CallsNext(g: Settings, s: Runtime, t: Tick)
    ensures Seen(g, s, t).Fine? <==> t.ok
    ensures Handled(g, s, t).calls ==
            if !t.ok && !s.throttle.manual
               && (s.board.current.Some? || s.board.failures + 1 == g.threshold)
            then s.calls + [t.now] else s.calls
  {
    hide Attempted, DoneDeed, Listing, BackupDue, Recovers;
  }

  lemma NoStretch(trace: seq<Health>)
    requires trace != [] && trace[|trace| - 1].Fine?
    ensures forall n: nat | n >= 1 :: !StretchOf(trace, n)
  {
  }

  lemma TraceNext(g: Settings, ticks: seq<Tick>, t: Tick)
    ensures Trace(g, ticks + [t]) == Trace(g, ticks) + [Seen(g, HandledAll(g, ticks), t)]
  {
    hide Seen, HandledAll;
    assert (ticks + [t])[..|ticks|] == ticks;
  }

  /** Container and health come up after the restart. */
  ghost predicate ComesUp(g: Settings, o: Outside) {
    !o.restartRaises && !o.waitRaises && ContainerComes(g.wait, o, true) && HealthComes(g.wait, o, true)
  }

  lemma {:induction false} TriedTick(g: Settings, s: Runtime, t: Tick)
    ensures var d, after := Edited(s.disk, t), Handled(g, s, t);
            var started := after.calls != s.calls && Decide(g.limits, s.throttle, t.now).1 == Started;
            var usable := Usable(g.sha, d.dir.files, Sane(g, d), t.outside);
            && after.restarts == s.restarts + (if started && usable then 1 else 0)
            && after.recovered == s.recovered + (if started && usable && ComesUp(g, t.outside) then 1 else 0)
            && (started && usable && ComesUp(g, t.outside) ==> after.board.failures == 0 && after.board.current == None)
            && (after.calls == s.calls ==> after.throttle == s.throttle)
            && (after.calls != s.calls ==> after.calls == s.calls + [t.now])
  {
    hide Attempted, DoneDeed, Listing, BackupDue, Decide, Usable, ContainerComes, HealthComes, Edited;
    var d := Edited(s.disk, t);
    AttemptIsAnswered(g.sha, g.limits, g.wait, s.throttle, d.dir.files, d.config, t.now, Sane(g, d), t.outside);
    RecoverySucceedsIff(g.sha, g.limits, g.wait, s.throttle, d.dir.files, d.config, t.now, Sane(g, d), t.outside);
  }

  /** A result restarts the container if and only if it starts an attempt with a usable configuration;
      it counts as a recovery if and only if container and health then come up, and that ends the
      incident. */
  lemma {:induction false} ResultOfAttempt(g: Settings, ticks: seq<Tick>, t: Tick)
    requires ValidSettings(g) && Ordered(Clocks(ticks))
    ensures var s, after := HandledAll(g, ticks), HandledAll(g, ticks + [t]);
            var d := Edited(s.disk, t);
            var started := Starts(g.limits, after.calls) == Starts(g.limits, s.calls) + [t.now];
            var usable := Usable(g.sha, d.dir.files, Sane(g, d), t.outside);
            && after.restarts == s.restarts + (if started && usable then 1 else 0)
            && after.recovered == s.recovered + (if started && usable && ComesUp(g, t.outside) then 1 else 0)
            && (started && usable && ComesUp(g, t.outside) ==> after.board.failures == 0 && after.board.current == None)
  {
    hide Handled, HandledAll, Decide, Usable, ComesUp, Edited, Starts, After, Sane;
    var s := HandledAll(g, ticks);
    AllButLast(g, ticks, t);
    RunIsThrottling(g, ticks, if ticks == [] then 0 else ticks[|ticks| - 1].now);
    TriedTick(g, s, t);
    OneMore(g.limits, s.calls, t.now);
  }

  // ---- the open incident ----

  /** The incident was opened by the failure that reached the threshold in the stretch under way. */
  predicate OpenedBy(b: Board, ticks: seq<Tick>, threshold: nat) {
    b.current.Some? ==>
      && 1 <= threshold <= b.failures <= |ticks|
      && var t := ticks[|ticks| - b.failures + threshold - 1];
         b.current.value == Incident(t.id, t.reason, t.now, threshold, None)
  }

  /** An open incident carries name, reason and time of the result that reached the threshold. */
  lemma {:induction false} OpenIncidentNamesItsResult(g: Settings, ticks: seq<Tick>)
    requires ValidSettings(g)
    ensures OpenedBy(HandledAll(g, ticks).board, ticks, g.threshold)
  {
    hide Handled;
    if ticks != [] {
      var most, t := ticks[..|ticks| - 1], ticks[|ticks| - 1];
      OpenIncidentNamesItsResult(g, most);
      FailuresFit(g, most);
      assert most + [t] == ticks;
      TickKeepsName(g, HandledAll(g, most), most, t);
    }
  }

  lemma FailuresFit(g: Settings, ticks: seq<Tick>)
    requires ValidSettings(g)
    ensures HandledAll(g, ticks).board.failures <= |ticks|
  {
    hide HandledAll, Trace, Reaching;
    RunIsBooked(g, ticks);
    TraceSize(g, ticks);
  }

  lemma {:induction false} TickKeepsName(g: Settings, s: Runtime, ticks: seq<Tick>, t: Tick)
    requires ValidSettings(g) && OpenedBy(s.board, ticks, g.threshold) && s.board.failures <= |ticks|
    ensures OpenedBy(Handled(g, s, t).board, ticks + [t], g.threshold)
  {
    hide AttemptOf, DoneDeed, Listing, BackupDue;
  }
}
