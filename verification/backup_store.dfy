/** The backup directory and the live configuration as an object changed one file operation at a
    time, each of which may be the last. */
module BackupStore {
  import opened PyText
  import opened BackupNames
  import opened Backups
  import opened BackupRuns

  datatype Failure = NotHealthy | BadRetention | BadSource | BadChecksum | OsError | Interrupted

  datatype Result<T> = Ok(value: T) | Raised(failure: Failure)

  class FileSystem {
    const sha: Hash
    const check: string -> bool
    var dir: Dir
    var config: Option<string>
    /** File operations the running process still gets to do. */
    var budget: nat
    /** The file operations done so far. */
    ghost var trail: seq<FileOp>

    constructor (sha: Hash, check: string -> bool, dir: Dir, config: Option<string>, budget: nat)
      ensures this.sha == sha && this.check == check && this.dir == dir && this.config == config
      ensures this.budget == budget && this.trail == []
    {
      this.sha, this.check, this.dir, this.config, this.budget, this.trail := sha, check, dir, config, budget, [];
    }

    /** One rename or removal; nothing happens when the process has been stopped. */
    method Operate(op: FileOp) returns (alive: bool)
      modifies this`dir, this`budget, this`trail
      ensures alive == (old(budget) > 0)
      ensures alive ==> dir == Did(old(dir), op) && trail == old(trail) + [op] && budget == old(budget) - 1
      ensures !alive ==> dir == old(dir) && trail == old(trail) && budget == 0
    {
      if budget == 0 {
        return false;
      }
      match op {
        case Put(n, c) => dir := dir.(files := dir.files[n := c]);
        case Remove(n) => dir := dir.(files := dir.files - {n});
        case WriteManifest => dir := dir.(manifest := Some(ManifestOf(dir.files)));
      }
      trail := trail + [op];
      budget := budget - 1;
      return true;
    }

    /** The state and the record after the first operations of `ops`. */
    ghost predicate Since(d: Dir, past: seq<FileOp>, ops: seq<FileOp>, start: nat, done: nat)
      reads this
    {
      && done <= |ops| && done <= start
      && budget == start - done
      && dir == DidAll(d, ops[..done])
      && trail == past + ops[..done]
    }

    /** Do operation `done` of `ops`. */
    method Next(ghost d: Dir, ghost past: seq<FileOp>, ghost ops: seq<FileOp>, ghost start: nat, ghost done: nat,
                op: FileOp) returns (alive: bool)
      requires Since(d, past, ops, start, done) && done < |ops| && op == ops[done]
      modifies this`dir, this`budget, this`trail
      ensures alive == (done < start)
      ensures Since(d, past, ops, start, if alive then done + 1 else done)
    {
      DidAllInTwoParts(d, ops[..done], [op]);
      assert ops[..done + 1] == ops[..done] + [op];
      One(DidAll(d, ops[..done]), op);
      alive := Operate(op);
    }

    /** The loop that removes the oldest backups, checksum first. */
    method Prune(ghost d: Dir, ghost past: seq<FileOp>, ghost ops: seq<FileOp>, ghost start: nat, ghost done: nat,
                 oldest: seq<string>) returns (alive: bool)
      requires Since(d, past, ops, start, done)
      requires done + 2 * |oldest| <= |ops| && |Prunes(oldest)| == 2 * |oldest|
      requires ops[done..done + 2 * |oldest|] == Prunes(oldest)
      modifies this`dir, this`budget, this`trail
      ensures alive == (done + 2 * |oldest| <= start)
      ensures Since(d, past, ops, start, if alive then done + 2 * |oldest| else start)
    {
      var i := 0;
      while i < |oldest|
        invariant i <= |oldest|
        invariant Since(d, past, ops, start, done + 2 * i)
      {
        PruneOps(oldest, i);
        assert ops[done + 2 * i] == Prunes(oldest)[2 * i] && ops[done + 2 * i + 1] == Prunes(oldest)[2 * i + 1];
        alive := Next(d, past, ops, start, done + 2 * i, Remove(ChecksumName(oldest[i])));
        if !alive { return false; }
        alive := Next(d, past, ops, start, done + 2 * i + 1, Remove(oldest[i]));
        if !alive { return false; }
        i := i + 1;
      }
      return true;
    }

    /** Rename the checksum into place, then the backup; clean up when a rename raises. */
    method WritePair(ghost d: Dir, ghost past: seq<FileOp>, ghost ops: seq<FileOp>, ghost start: nat,
                     ghost retention: nat, name: string, contents: string, fault: Fault) returns (finished: bool)
      requires dir == d && Since(d, past, ops, start, 0)
      requires ops == PlanUnder(sha, d, name, contents, retention, fault)
      modifies this`dir, this`budget, this`trail
      ensures finished == (fault == NoFault && start >= 2)
      ensures Since(d, past, ops, start, if finished then 2 else if start < |ops| then start else |ops|)
      ensures fault == NoFault ==> |ops| >= 3
    {
      hide Listing, Prunes, DigestFile, ManifestOf, DidAll;
      var alive: bool;
      if fault == ChecksumRenameRaises {
        if name !in dir.files {
          alive := Next(d, past, ops, start, 0, Remove(ChecksumName(name)));
        }
        return false;
      }
      alive := Next(d, past, ops, start, 0, Put(ChecksumName(name), DigestFile(sha, contents)));
      if !alive { return false; }
      if fault == BackupRenameRaises {
        assert name in dir.files <==> name in d.files by { ChecksumComesFirst(sha, d, ops, name, contents); }
        if name !in dir.files {
          alive := Next(d, past, ops, start, 1, Remove(ChecksumName(name)));
        }
        return false;
      }
      finished := Next(d, past, ops, start, 1, Put(name, contents));
    }

    /** `create_backup`: on success the whole plan was carried out, otherwise some prefix of it, of
        which the failed rename and its clean-up are one form. */
    method CreateBackup(healthy: bool, at: Timestamp, retention: int, fault: Fault) returns (r: Result<string>)
      modifies this`dir, this`budget, this`trail
      ensures !healthy ==> r == Raised(NotHealthy)
      ensures healthy && retention < 1 ==> r == Raised(BadRetention)
      ensures healthy && retention >= 1 && (config.None? || !check(config.value)) ==> r == Raised(BadSource)
      ensures !(healthy && retention >= 1 && config.Some? && check(config.value)) ==>
                dir == old(dir) && trail == old(trail)
      ensures healthy && retention >= 1 && config.Some? && check(config.value) ==>
                var plan := PlanUnder(sha, old(dir), BackupName(at), config.value, retention, fault);
                && dir == DidAll(old(dir), Took(plan, old(budget)))
                && trail == old(trail) + Took(plan, old(budget))
                && (r == Ok(BackupName(at)) <==> fault == NoFault && |plan| <= old(budget))
                && (r.Ok? ==> r == Ok(BackupName(at)))
    {
      hide Listing, Prunes, PlanUnder, DidAll, BackupName;
      if !healthy { return Raised(NotHealthy); }
      if retention < 1 { return Raised(BadRetention); }
      if config.None? || !check(config.value) { return Raised(BadSource); }
      var name := BackupName(at);
      r := BackUp(name, config.value, retention, fault);
    }

    /** Everything after the new pair is in place: pruning, then the manifest. */
    method PruneAndRecord(ghost d: Dir, ghost past: seq<FileOp>, ghost ops: seq<FileOp>, ghost start: nat,
                          oldest: seq<string>) returns (finished: bool)
      requires Since(d, past, ops, start, 2)
      requires EndsWithPruning(ops, oldest)
      modifies this`dir, this`budget, this`trail
      ensures finished == (|ops| <= start)
      ensures Since(d, past, ops, start, if finished then |ops| else start)
    {
      hide Prunes, DidAll;
      finished := Prune(d, past, ops, start, 2, oldest);
      if finished {
        finished := Next(d, past, ops, start, |ops| - 1, WriteManifest);
      }
    }

    method BackUp(name: string, contents: string, retention: nat, fault: Fault) returns (r: Result<string>)
      modifies this`dir, this`budget, this`trail
      ensures var plan := PlanUnder(sha, old(dir), name, contents, retention, fault);
              && dir == DidAll(old(dir), Took(plan, old(budget)))
              && trail == old(trail) + Took(plan, old(budget))
              && (r == Ok(name) <==> fault == NoFault && |plan| <= old(budget))
              && (r.Ok? ==> r == Ok(name))
    {
      hide Listing, Prunes, DidAll, Plan, Took, Oldest, EndsWithPruning;
      ghost var d, past, start := dir, trail, budget;
      ghost var plan := PlanUnder(sha, dir, name, contents, retention, fault);
      NoOps(d, plan);
      TookIs(plan, start);
      assert Since(d, past, plan, start, 0);
      var alive := WritePair(d, past, plan, start, retention, name, contents, fault);
      if !alive { return Raised(if fault == NoFault then Interrupted else OsError); }
      var oldest := Oldest(Listing(dir.files), retention);
      TailOfPlan(sha, d, name, contents, retention);
      alive := PruneAndRecord(d, past, plan, start, oldest);
      return if alive then Ok(name) else Raised(Interrupted);
    }

    /** `get_latest_backup` */
    method GetLatestBackup() returns (latest: Option<string>)
      ensures latest == if Listing(dir.files) == [] then None
                        else Some(Listing(dir.files)[|Listing(dir.files)| - 1])
    {
      var l := Listing(dir.files);
      return if l == [] then None else Some(l[|l| - 1]);
    }

    /** `restore_backup`: the configuration is replaced in one step, or not at all. */
    method RestoreBackup(name: string, ioError: bool) returns (r: Result<string>)
      modifies this`config
      ensures r.Ok? <==> Verifies(sha, dir.files, name) && !ioError
      ensures r.Ok? ==> config == Some(dir.files[name])
      ensures !r.Ok? ==> config == old(config)
    {
      if !Verifies(sha, dir.files, name) {
        return Raised(BadChecksum);
      }
      var contents := dir.files[name];
      if ioError {
        return Raised(OsError);
      }
      config := Some(contents);
      return Ok(name);
    }
  }

  /** After two operations come the removals of these backups, then the manifest. */
  predicate EndsWithPruning(ops: seq<FileOp>, oldest: seq<string>) {
    && |ops| == 2 + 2 * |oldest| + 1 && |Prunes(oldest)| == 2 * |oldest|
    && ops[2..2 + 2 * |oldest|] == Prunes(oldest) && ops[|ops| - 1] == WriteManifest
  }

  lemma ChecksumComesFirst(sha: Hash, d: Dir, ops: seq<FileOp>, name: string, contents: string)
    requires ops != [] && ops[0] == Put(ChecksumName(name), DigestFile(sha, contents))
    ensures name in DidAll(d, ops[..1]).files <==> name in d.files
  {
    assert |ChecksumName(name)| > |name|;
    assert ops[..1] == [ops[0]];
    One(d, ops[0]);
  }

  lemma TookIs(ops: seq<FileOp>, steps: nat)
    ensures Took(ops, steps) == ops[..if steps < |ops| then steps else |ops|]
  {
  }

  lemma NoOps(d: Dir, ops: seq<FileOp>)
    ensures DidAll(d, ops[..0]) == d
  {
  }

  lemma One(d: Dir, op: FileOp)
    ensures DidAll(d, [op]) == Did(d, op)
  {
    hide Did;
    assert [op][1..] == [];
  }

  lemma {:induction false} PruneOps(names: seq<string>, i: nat)
    requires i < |names|
    ensures |Prunes(names)| == 2 * |names|
    ensures Prunes(names)[2 * i] == Remove(ChecksumName(names[i])) && Prunes(names)[2 * i + 1] == Remove(names[i])
  {
    PrunesSize(names);
    if i > 0 {
      PruneOps(names[1..], i - 1);
    }
  }

  lemma {:induction false} TailOfPlan(sha: Hash, d: Dir, name: string, contents: string, retention: nat)
    ensures var plan := Plan(sha, d, name, contents, retention);
            var oldest := Oldest(Listing(DidAll(d, plan[..2]).files), retention);
            EndsWithPruning(plan, oldest)
  {
    hide Listing, DigestFile, DidAll, Prunes;
    var pair := PairOps(sha, name, contents);
    var plan := Plan(sha, d, name, contents, retention);
    assert plan[..2] == pair;
    PrunesSize(Oldest(Listing(DidAll(d, pair).files), retention));
  }
}
