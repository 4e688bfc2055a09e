/** One recovery attempt: the throttles, the optional restore of the configuration, the restart of
    the container and the wait for it to become healthy. */
module Recovery {
  import opened PyText
  import opened Throttle
  import opened Scheduling
  import opened Backups
  import opened BackupRuns
  import opened BackupStore

  /** What an attempt meets outside: failing calls, and the course of the two polling loops. */
  datatype Outside = Outside(
    listingFails: bool, restoreFails: bool, restartRaises: bool, waitRaises: bool,
    container: World, containerClock: int, health: World, healthClock: int)

  datatype RecoveryResult = RecoveryResult(success: bool, reason: string, restored: bool)

  datatype Restoring = NotNeeded | ListingFailed | NoBackup | RestoreFailed | Restored(contents: string)

  function Restoration(sha: Hash, files: map<string, string>, configValid: bool, o: Outside): Restoring {
    if configValid then NotNeeded
    else if o.listingFails then ListingFailed
    else if Listing(files) == [] then NoBackup
    else if o.restoreFails || Restorable(sha, files).None? then RestoreFailed
    else Restored(Restorable(sha, files).value)
  }

  function Reaches(w: World, clock: int, wait: nat): bool {
    Polled(w, POLL, clock + wait, clock, 0).0
  }

  function Restarting(wait: nat, o: Outside, restored: bool): RecoveryResult {
    if o.restartRaises || o.waitRaises then RecoveryResult(false, "docker_operation_failed", restored)
    else if !Reaches(o.container, o.containerClock, wait) then
      RecoveryResult(false, "container_not_running", restored)
    else if !Reaches(o.health, o.healthClock, wait) then
      RecoveryResult(false, "post_recovery_health_failed", restored)
    else RecoveryResult(true, "ok", restored)
  }

  /** The outcome of a call: the throttle state, the result, the configuration, and whether the
      container was told to restart. */
  datatype Attempt = Attempt(state: State, result: RecoveryResult, config: Option<string>, restart: bool)

  function Attempted(sha: Hash, l: Limits, wait: nat, s: State, files: map<string, string>, config: Option<string>,
                     now: int, configValid: bool, o: Outside): Attempt {
    var (s', v) := Decide(l, s, now);
    match v
    case Refused => Attempt(s', RecoveryResult(false, "manual_intervention_required", false), config, false)
    case Latched => Attempt(s', RecoveryResult(false, "manual_intervention_required", false), config, false)
    case Deferred => Attempt(s', RecoveryResult(false, "cooldown_active", false), config, false)
    case Started =>
      match Restoration(sha, files, configValid, o)
      case NotNeeded => Attempt(s', Restarting(wait, o, false), config, true)
      case ListingFailed => Attempt(s', RecoveryResult(false, "restore_failed", false), config, false)
      case NoBackup => Attempt(s', RecoveryResult(false, "backup_not_found", false), config, false)
      case RestoreFailed => Attempt(s', RecoveryResult(false, "restore_failed", false), config, false)
      case Restored(contents) => Attempt(s', Restarting(wait, o, true), Some(contents), true)
  }

  class RecoveryManager {
    const limits: Limits
    const wait: nat
    const disk: FileSystem
    var manual: bool
    var attempts: seq<int>
    var lastAttempt: Option<int>
    /** The calls of the container's restart so far. */
    var restarts: nat
    /** The times of all attempts ever started, and of the last call. */
    ghost var history: seq<int>
    ghost var clock: int

    function Throttled(): State
      reads this
    {
      State(manual, attempts, lastAttempt)
    }

    /** The deque is the live end of the history, and the history keeps both throttles. */
    ghost predicate Valid()
      reads this
    {
      && ValidLimits(limits)
      && Tracks(limits, Throttled(), history, clock)
      && Spaced(history, limits.most, limits.window)
      && Spaced(history, 1, limits.cooldown)
    }

    constructor (limits: Limits, wait: nat, disk: FileSystem, ghost clock: int)
      requires ValidLimits(limits)
      ensures Valid() && Throttled() == READY && history == [] && restarts == 0 && this.clock == clock
      ensures this.limits == limits && this.wait == wait && this.disk == disk
    {
      this.limits, this.wait, this.disk := limits, wait, disk;
      manual, attempts, lastAttempt, restarts := false, [], None, 0;
      history, this.clock := [], clock;
    }

    /** The loop that drops the attempts older than the window. */
    method DropOld(now: int)
      modifies this`attempts
      ensures attempts == Popped(old(attempts), now, limits.window)
    {
      while attempts != [] && now - attempts[0] >= limits.window
        invariant Popped(attempts, now, limits.window) == Popped(old(attempts), now, limits.window)
      {
        attempts := attempts[1..];
      }
    }

    /** The top of `attempt_recovery`: drop old attempts, then latch, defer or start. */
    method Admit(now: int) returns (v: Verdict)
      requires Valid() && clock <= now
      modifies this`manual, this`attempts, this`lastAttempt, this`history, this`clock
      ensures Valid() && clock == now
      ensures (Throttled(), v) == Decide(limits, old(Throttled()), now)
      ensures history == if v == Started then old(history) + [now] else old(history)
      // the verdict, read off the history
      ensures var full := |Younger(old(history), now, limits.window)| >= limits.most;
              && v == (if old(manual) then Refused else if full then Latched
                       else if Cooling(limits, old(history), now) then Deferred else Started)
              && manual == (old(manual) || full)
    {
      hide Tracks, Spaced, Popped, Younger, Cooling;
      DecideByHistory(limits, Throttled(), history, clock, now);
      DecideTracks(limits, Throttled(), history, clock, now);
      DropOld(now);
      clock := now;
      if manual {
        return Refused;
      }
      if |attempts| >= limits.most {
        manual := true;
        return Latched;
      }
      if lastAttempt.Some? && now - lastAttempt.value < limits.cooldown {
        return Deferred;
      }
      attempts := attempts + [now];
      lastAttempt := Some(now);
      history := history + [now];
      return Started;
    }

    /** Put back the newest backup when the configuration is bad. */
    method RestoreIfNeeded(configValid: bool, o: Outside) returns (r: Restoring)
      modifies disk`config
      ensures r == Restoration(disk.sha, disk.dir.files, configValid, o)
      ensures disk.config == if r.Restored? then Some(r.contents) else old(disk.config)
    {
      hide Listing, Strip, ParsesAsHex, Lower, Ascii;
      if configValid {
        return NotNeeded;
      }
      if o.listingFails {
        return ListingFailed;
      }
      var latest := disk.GetLatestBackup();
      if latest.None? {
        return NoBackup;
      }
      var done := disk.RestoreBackup(latest.value, o.restoreFails);
      if done.Raised? {
        return RestoreFailed;
      }
      return Restored(disk.config.value);
    }

    /** Restart the container, wait for it to run, then for its health. */
    method RestartAndWait(restored: bool, o: Outside) returns (result: RecoveryResult)
      modifies this`restarts
      ensures result == Restarting(wait, o, restored) && restarts == old(restarts) + 1
    {
      hide Polled, Settles;
      restarts := restarts + 1;
      if o.restartRaises {
        return RecoveryResult(false, "docker_operation_failed", restored);
      }
      if o.waitRaises {
        return RecoveryResult(false, "docker_operation_failed", restored);
      }
      var running, _ := WaitForRunning(wait, POLL, o.containerClock, o.container);
      if running != Running {
        return RecoveryResult(false, "container_not_running", restored);
      }
      var healthy, _ := AwaitReadiness(wait, o.healthClock, o.health);
      if !healthy {
        return RecoveryResult(false, "post_recovery_health_failed", restored);
      }
      return RecoveryResult(true, "ok", restored);
    }

    method AttemptRecovery(now: int, configValid: bool, o: Outside) returns (result: RecoveryResult)
      requires Valid() && clock <= now
      modifies this, disk`config
      ensures Valid() && clock == now
      ensures var a := Attempted(disk.sha, limits, wait, old(Throttled()), disk.dir.files, old(disk.config), now, configValid, o);
              && Throttled() == a.state && result == a.result && disk.config == a.config
              && restarts == old(restarts) + (if a.restart then 1 else 0)
      ensures history == if Decide(limits, old(Throttled()), now).1 == Started then old(history) + [now] else old(history)
    {
      hide Tracks, Spaced, Decide, Restoration, Restarting;
      var v := Admit(now);
      if v == Refused || v == Latched {
        return RecoveryResult(false, "manual_intervention_required", false);
      }
      if v == Deferred {
        return RecoveryResult(false, "cooldown_active", false);
      }
      var r := RestoreIfNeeded(configValid, o);
      if r.ListingFailed? || r.RestoreFailed? {
        return RecoveryResult(false, "restore_failed", false);
      }
      if r.NoBackup? {
        return RecoveryResult(false, "backup_not_found", false);
      }
      result := RestartAndWait(r.Restored?, o);
    }
  }

  /** A reported restore is a real one: in any sound directory state the configuration then equals
      the most recent completed snapshot and passes the check; otherwise it is untouched. */
  lemma {:induction false} RestoredMeansNewestSnapshot(
    sha: Hash, check: string -> bool, disk: Disk, l: Limits, wait: nat, s: State, now: int, configValid: bool, o: Outside)
    requires DiskSound(sha, check, disk)
    ensures var a := Attempted(sha, l, wait, s, disk.dir.files, disk.config, now, configValid, o);
            if a.result.restored then
              && disk.snapshots != []
              && a.config == Some(disk.snapshots[|disk.snapshots| - 1].contents)
              && check(a.config.value) && a.restart && !configValid
            else
              a.config == disk.config
  {
    hide Reaches, Restorable, Listing, Mirrors, Decide;
    NewestIsRestorable(sha, check, disk);
  }
}
