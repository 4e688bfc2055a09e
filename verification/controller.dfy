/** The controller: what one health result does to incidents, backups and recovery, and what holds
    over whole runs. */
module Controller {
  import opened PyText
  import opened Throttle
  import opened Backups
  import opened BackupNames
  import opened BackupRuns
  import opened BackupStore
  import opened Incidents
  import opened Recovery

  datatype Settings = Settings(sha: Hash, check: string -> bool, threshold: nat, limits: Limits, wait: nat,
                               retention: nat, backupInterval: int)

  predicate ValidSettings(g: Settings) {
    g.threshold >= 1 && ValidLimits(g.limits) && g.retention >= 1
  }

  /** One health result and what goes with it: the clock, the wall-clock time for a backup, which of
      its renames raises, after how many file operations an error stops it, and the outside course
      of a recovery; `edit` is what somebody else did to the configuration before. */
  datatype Tick = Tick(ok: bool, now: int, at: Timestamp, fault: Fault, steps: nat, reason: string, id: string,
                       outside: Outside, edit: Option<Option<string>>)

  /** The state of the controller with its counters: recoveries counted, incidents closed by good
      results, container restarts, and the times at which recovery was called. */
  datatype Runtime = Runtime(board: Board, throttle: State, disk: Disk, lastBackup: Option<int>,
                         recovered: nat, closedByGood: nat, restarts: nat, calls: seq<int>)

  const IDLE := Runtime(QUIET, READY, BLANK, None, 0, 0, 0, [])

  function Edited(d: Disk, t: Tick): Disk {
    if t.edit.Some? then d.(config := t.edit.value) else d
  }

  predicate ConfigValid(g: Settings, d: Disk) {
    d.config.Some? && g.check(d.config.value)
  }

  predicate BackupDue(g: Settings, s: Runtime, d: Disk, now: int) {
    Listing(d.dir.files) == [] || s.lastBackup.None? || now - s.lastBackup.value >= g.backupInterval
  }

  function SaveOf(g: Settings, t: Tick): Deed {
    Save(t.at, g.retention, t.fault, t.steps)
  }

  /** A backup succeeds when no rename raises and all its operations are carried out. */
  predicate SaveCompletes(g: Settings, d: Disk, t: Tick)
    requires d.config.Some?
  {
    t.fault == NoFault && |Plan(g.sha, d.dir, BackupName(t.at), d.config.value, g.retention)| <= t.steps
  }

  function Good(g: Settings, s: Runtime, t: Tick): Runtime {
    var d := Edited(s.disk, t);
    var s1 := s.(board := Succeeded(s.board), disk := d,
                 closedByGood := s.closedByGood + if s.board.current.Some? then 1 else 0);
    if ConfigValid(g, d) && BackupDue(g, s, d, t.now) then
      s1.(disk := DoneDeed(g.sha, g.check, d, SaveOf(g, t)),
          lastBackup := if SaveCompletes(g, d, t) then Some(t.now) else s.lastBackup)
    else s1
  }

  function AttemptOf(g: Settings, s: Runtime, d: Disk, t: Tick): Attempt {
    Attempted(g.sha, g.limits, g.wait, s.throttle, d.dir.files, d.config, t.now, ConfigValid(g, d), t.outside)
  }

  function Bad(g: Settings, s: Runtime, t: Tick): Runtime {
    var d := Edited(s.disk, t);
    var board := Failed(s.board, g.threshold, t.reason, t.id, t.now);
    var s1 := s.(board := board, disk := d);
    if board.current.None? || s.throttle.manual then s1
    else
      var a := AttemptOf(g, s, d, t);
      s1.(board := if a.result.success then Succeeded(board) else board,
          throttle := a.state,
          disk := d.(config := a.config),
          recovered := s.recovered + if a.result.success then 1 else 0,
          restarts := s.restarts + if a.restart then 1 else 0,
          calls := s.calls + [t.now])
  }

  /** `handle_health_result` */
  function Handled(g: Settings, s: Runtime, t: Tick): Runtime {
    if t.ok then Good(g, s, t) else Bad(g, s, t)
  }

  /** A tick that comes after somebody else's edit is the edit, then the tick. */
  lemma EditsComeFirst(g: Settings, s: Runtime, t: Tick)
    ensures Handled(g, s, t) == Handled(g, s.(disk := Edited(s.disk, t)), t.(edit := None))
  {
    hide Attempted, DoneDeed, Listing, Plan;
    assert Edited(Edited(s.disk, t), t.(edit := None)) == Edited(s.disk, t);
  }

  function HandledAll(g: Settings, ticks: seq<Tick>): Runtime {
    if ticks == [] then IDLE else Handled(g, HandledAll(g, ticks[..|ticks| - 1]), ticks[|ticks| - 1])
  }

  /** The objects the controller wires together. */
  class ControllerRuntime {
    const settings: Settings
    const incidents: IncidentManager
    const recovery: RecoveryManager
    const disk: FileSystem
    var lastBackup: Option<int>
    var recovered: nat

    ghost predicate Wired()
      reads this, recovery
    {
      && ValidSettings(settings)
      && recovery.disk == disk && disk.sha == settings.sha && disk.check == settings.check
      && incidents.threshold == settings.threshold
      && recovery.limits == settings.limits && recovery.wait == settings.wait
      && recovery.Valid()
    }

    /** The objects stand as the state says. */
    ghost predicate Shows(s: Runtime)
      reads this, incidents, recovery, disk
    {
      && incidents.Now() == s.board
      && recovery.Throttled() == s.throttle
      && disk.dir == s.disk.dir && disk.config == s.disk.config
      && lastBackup == s.lastBackup && recovered == s.recovered && recovery.restarts == s.restarts
    }

    constructor (settings: Settings, disk: FileSystem, ghost clock: int)
      requires ValidSettings(settings) && disk.sha == settings.sha && disk.check == settings.check
      ensures Wired() && this.settings == settings && this.disk == disk && recovery.clock == clock
      ensures fresh(incidents) && fresh(recovery)
      ensures Shows(IDLE.(disk := Disk(disk.dir, disk.config, [])))
    {
      this.settings, this.disk, lastBackup, recovered := settings, disk, None, 0;
      incidents := new IncidentManager(settings.threshold);
      recovery := new RecoveryManager(settings.limits, settings.wait, disk, clock);
    }

    /** A good result: close the incident, and back the configuration up when it is due. */
    method HandleGood(t: Tick, ghost s: Runtime)
      requires Wired() && t.ok && t.edit.None? && Shows(s) && disk.budget == t.steps
      modifies this`lastBackup, incidents, disk`dir, disk`budget, disk`trail
      ensures Wired() && Shows(Good(settings, s, t))
    {
      hide Attempted, Listing, DidAll, Tracks, Spaced, BackupName, Plan, BackupFile, Verifies;
      var configValid := disk.config.Some? && disk.check(disk.config.value);
      var _ := incidents.RecordSuccess(t.now);
      var latest := disk.GetLatestBackup();
      var due := latest.None? || lastBackup.None? || t.now - lastBackup.value >= settings.backupInterval;
      if configValid && due {
        var saved := disk.CreateBackup(true, t.at, settings.retention, t.fault);
        if saved.Ok? {
          lastBackup := Some(t.now);
        }
      }
    }

    /** A bad result: count the failure, and while an incident is open try to recover. */
    method HandleBad(t: Tick, ghost s: Runtime)
      requires Wired() && !t.ok && t.edit.None? && Shows(s) && recovery.clock <= t.now
      modifies this`recovered, incidents, recovery, disk`config
      ensures Wired() && Shows(Bad(settings, s, t))
    {
      hide Attempted, Tracks, Spaced;
      var configValid := disk.config.Some? && disk.check(disk.config.value);
      var _ := incidents.RecordFailure(t.reason, t.id, t.now);
      if incidents.current.None? || recovery.manual {
        return;
      }
      var result := recovery.AttemptRecovery(t.now, configValid, t.outside);
      if result.success {
        recovered := recovered + 1;
        var _ := incidents.RecordSuccess(t.now);
      }
    }

    /** Every health result does to the objects what the state function says. */
    method HandleHealthResult(t: Tick, ghost s: Runtime)
      requires Wired() && t.edit.None? && Shows(s) && disk.budget == t.steps && recovery.clock <= t.now
      modifies this, incidents, recovery, disk
      ensures Wired() && Shows(Handled(settings, s, t))
    {
      hide Good, Bad;
      if t.ok {
        HandleGood(t, s);
      } else {
        HandleBad(t, s);
      }
    }
  }
}
