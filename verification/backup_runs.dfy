/** The backup directory and the live configuration over whole runs of backups, crashes, restores
    and outside changes of the configuration. */
module BackupRuns {
  import opened PyText
  import opened BackupNames
  import opened Backups

  /** A backup whose final rename completed. */
  datatype Snapshot = Snapshot(at: Timestamp, contents: string)

  function Names(snaps: seq<Snapshot>): seq<string> {
    seq(|snaps|, i requires 0 <= i < |snaps| => BackupName(snaps[i].at))
  }

  predicate Chronological(snaps: seq<Snapshot>) {
    && (forall s | s in snaps :: FourDigitYear(s.at))
    && (forall i, j | 0 <= i < j < |snaps| :: Earlier(snaps[i].at, snaps[j].at))
  }

  /** The files of snapshot `s` are as they were written. */
  predicate Kept(sha: Hash, files: map<string, string>, s: Snapshot) {
    var n := BackupName(s.at);
    && n in files && files[n] == s.contents
    && ChecksumName(n) in files && files[ChecksumName(n)] == DigestFile(sha, s.contents)
  }

  /** The listing is a final stretch of the completed snapshots, not empty once there is one, with
      the bytes that were saved; backup files left over from pruning belong to older snapshots. */
  ghost predicate Mirrors(sha: Hash, files: map<string, string>, snaps: seq<Snapshot>) {
    && Chronological(snaps)
    && Suffix(Listing(files), Names(snaps))
    && (snaps != [] ==> Listing(files) != [])
    && (forall i | |snaps| - |Listing(files)| <= i < |snaps| :: Kept(sha, files, snaps[i]))
    && (forall n | n in files && BackupFile(n) :: n in Names(snaps))
  }

  lemma NamesAreBackupFiles(t: Timestamp)
    ensures BackupFile(BackupName(t))
  {
    hide TimeText;
    var n := BackupName(t);
    assert n[..8] == "gateway-";
    assert n[|n| - 5..] == ".yaml";
  }

  lemma {:induction false} MirroredIsComplete(sha: Hash, files: map<string, string>, snaps: seq<Snapshot>, n: string)
    returns (i: nat)
    requires Mirrors(sha, files, snaps) && n in Complete(files)
    ensures |snaps| - |Listing(files)| <= i < |snaps| && n == BackupName(snaps[i].at) && Kept(sha, files, snaps[i])
  {
    hide BackupName, Kept, BackupFile, Listing, Earlier;
    ListingProperties(files);
    var l := Listing(files);
    var j :| 0 <= j < |l| && l[j] == n;
    i := |snaps| - |l| + j;
    assert Names(snaps)[i] == l[j];
  }

  lemma {:induction false} MirrorsAllVerify(sha: Hash, files: map<string, string>, snaps: seq<Snapshot>)
    requires Mirrors(sha, files, snaps)
    ensures AllVerify(sha, files)
  {
    hide Mirrors, BackupName, Verifies, Listing, BackupFile, DigestFile;
    forall n | n in Complete(files) ensures Verifies(sha, files, n) {
      var i := MirroredIsComplete(sha, files, snaps, n);
      PairVerifies(sha, files, n);
    }
  }

  /** A snapshot later than all completed ones has a fresh name. */
  lemma {:induction false} LaterIsFresh(sha: Hash, files: map<string, string>, snaps: seq<Snapshot>, s: Snapshot)
    requires Mirrors(sha, files, snaps) && Chronological(snaps + [s])
    ensures Fresh(files, BackupName(s.at))
  {
    hide Mirrors, BackupName, Listing, BackupFile, Before, Kept;
    var all := snaps + [s];
    var name := BackupName(s.at);
    NamesAreBackupFiles(s.at);
    assert all[|snaps|] == s && s in all;
    forall i | 0 <= i < |snaps| ensures Before(BackupName(snaps[i].at), name) && BackupName(snaps[i].at) != name {
      assert all[i] == snaps[i] && snaps[i] in all;
      NamesAreChronological(snaps[i].at, s.at);
    }
    forall n | n in Complete(files) ensures Before(n, name) {
      var i := MirroredIsComplete(sha, files, snaps, n);
    }
    assert name !in Names(snaps);
    UnnamedIsAbsent(sha, files, snaps, name);
  }

  lemma UnnamedIsAbsent(sha: Hash, files: map<string, string>, snaps: seq<Snapshot>, n: string)
    requires Mirrors(sha, files, snaps) && BackupFile(n) && n !in Names(snaps)
    ensures n !in files
  {
  }

  // ---- one save, completed or not ----

  /** Operations that write no backup file but `allowed`. */
  lemma {:induction false} NoOtherBackupFiles(d: Dir, ops: seq<FileOp>, allowed: string)
    requires forall op | op in ops && op.Put? :: BackupFile(op.name) ==> op.name == allowed
    ensures forall n | n in DidAll(d, ops).files && BackupFile(n) :: n in d.files || n == allowed
    decreases |ops|
  {
    hide BackupFile, ManifestOf;
    if ops != [] {
      assert ops[0] in ops;
      forall op | op in ops[1..] ensures op in ops {}
      NoOtherBackupFiles(Did(d, ops[0]), ops[1..], allowed);
    }
  }

  lemma {:induction false} PrunesPutNothing(names: seq<string>)
    ensures forall op | op in Prunes(names) :: !op.Put?
  {
    if names != [] { PrunesPutNothing(names[1..]); }
  }

  lemma {:induction false} PlanPutsOnlyThePair(sha: Hash, d: Dir, name: string, contents: string, retention: nat,
                                               fault: Fault, k: nat)
    requires k <= |PlanUnder(sha, d, name, contents, retention, fault)|
    ensures var ops := PlanUnder(sha, d, name, contents, retention, fault)[..k];
            forall op | op in ops && op.Put? && BackupFile(op.name) ::
              op.name == name && fault == NoFault && k >= 2
  {
    hide BackupFile, Listing, DigestFile, DidAll;
    ChecksumNamesDiffer(name);
    var pair := PairOps(sha, name, contents);
    var oldest := Oldest(Listing(DidAll(d, pair).files), retention);
    PrunesPutNothing(oldest);
    var ops := PlanUnder(sha, d, name, contents, retention, fault);
    if fault == NoFault {
      forall i | 2 <= i < |ops| ensures !ops[i].Put? {
        assert ops[i] == (Prunes(oldest) + [WriteManifest])[i - 2];
        assert i - 2 < |Prunes(oldest)| ==> ops[i] in Prunes(oldest);
      }
    }
  }

  /** Before the second rename the mirror is the old one. */
  lemma {:induction false} UnseenKeepsMirror(sha: Hash, files: map<string, string>, files': map<string, string>,
                                             snaps: seq<Snapshot>)
    requires Mirrors(sha, files, snaps) && Trimmed(files, files', 0)
    requires forall n | n in files' && BackupFile(n) :: n in files
    ensures Mirrors(sha, files', snaps)
  {
    hide BackupName, Listing, BackupFile, Earlier;
    SameComplete(files, files');
    forall i | |snaps| - |Listing(files')| <= i < |snaps| ensures Kept(sha, files', snaps[i]) {
      ListedIsComplete(files, snaps, i);
      assert Kept(sha, files, snaps[i]);
    }
  }

  lemma {:induction false} ListedIsComplete(files: map<string, string>, snaps: seq<Snapshot>, i: nat)
    requires Suffix(Listing(files), Names(snaps)) && |snaps| - |Listing(files)| <= i < |snaps|
    ensures BackupName(snaps[i].at) in Complete(files)
  {
    hide BackupName, Listing, BackupFile;
    ListingProperties(files);
    var l := Listing(files);
    assert l[i - (|snaps| - |l|)] == Names(snaps)[i];
  }

  lemma KeptAfterTrim(sha: Hash, files: map<string, string>, files': map<string, string>, j: nat, s: Snapshot)
    requires Trimmed(files, files', j) && Kept(sha, files, s) && BackupName(s.at) in Complete(files')
    ensures Kept(sha, files', s)
  {
    hide Listing, BackupName, BackupFile, DigestFile;
  }

  lemma {:induction false} KeptAfterPair(sha: Hash, d: Dir, snaps: seq<Snapshot>, s: Snapshot, i: nat)
    requires Mirrors(sha, d.files, snaps) && Fresh(d.files, BackupName(s.at))
    requires |snaps| - |Listing(d.files)| <= i <= |snaps|
    ensures Kept(sha, Paired(sha, d, BackupName(s.at), s.contents).files, (snaps + [s])[i])
  {
    hide BackupName, Listing, BackupFile, Earlier, Chronological, DigestFile, Before;
    var name := BackupName(s.at);
    if i < |snaps| {
      ListedIsComplete(d.files, snaps, i);
      assert Kept(sha, d.files, snaps[i]);
      PairSparesOthers(d.files, name, DigestFile(sha, s.contents), s.contents, BackupName(snaps[i].at));
    } else {
      assert |ChecksumName(name)| > |name|;
    }
  }

  /** After it the new snapshot is the last one, and never pruned. */
  lemma {:induction false} SavedKeepsMirror(sha: Hash, d: Dir, files': map<string, string>, snaps: seq<Snapshot>,
                                            s: Snapshot, retention: nat, j: nat)
    requires Mirrors(sha, d.files, snaps) && Chronological(snaps + [s]) && retention >= 1
    requires j <= Excess(|Listing(d.files)| + 1, retention)
    requires Trimmed(Paired(sha, d, BackupName(s.at), s.contents).files, files', j)
    requires forall n | n in files' && BackupFile(n) :: n in d.files || n == BackupName(s.at)
    ensures Mirrors(sha, files', snaps + [s])
    ensures j <= |Listing(d.files)| && Listing(files') == (Listing(d.files) + [BackupName(s.at)])[j..]
  {
    hide BackupName, Listing, BackupFile, Chronological, Kept, Paired, Complete, Before, Fresh;
    var name, all := BackupName(s.at), snaps + [s];
    var files2 := Paired(sha, d, name, s.contents).files;
    LaterIsFresh(sha, d.files, snaps, s);
    PairIsListedLast(sha, d, name, s.contents);
    assert Listing(files') == (Listing(d.files) + [name])[j..];
    assert Names(all) == Names(snaps) + [name];
    SuffixOfLonger(Listing(d.files), Names(snaps), name, j);
    SavedAreKept(sha, d, files', snaps, s, j);
    NamedBeforeOrNow(sha, d.files, files', snaps, s);
  }

  lemma {:induction false} SavedAreKept(sha: Hash, d: Dir, files': map<string, string>, snaps: seq<Snapshot>,
                                        s: Snapshot, j: nat)
    requires Mirrors(sha, d.files, snaps) && Fresh(d.files, BackupName(s.at))
    requires Trimmed(Paired(sha, d, BackupName(s.at), s.contents).files, files', j)
    requires Suffix(Listing(files'), Names(snaps + [s])) && |Listing(files')| <= |Listing(d.files)| + 1
    ensures forall i | |snaps| + 1 - |Listing(files')| <= i < |snaps| + 1 :: Kept(sha, files', (snaps + [s])[i])
  {
    hide Kept, Mirrors, Fresh, Trimmed, Suffix, Paired, Listing, BackupName, Names;
    NamesSize(snaps + [s]);
    SuffixIsSlice(Listing(files'), Names(snaps + [s]));
    forall i | |snaps| + 1 - |Listing(files')| <= i < |snaps| + 1 ensures Kept(sha, files', (snaps + [s])[i]) {
      SnapshotStaysKept(sha, d, files', snaps, s, j, i);
    }
  }

  lemma {:induction false} SnapshotStaysKept(sha: Hash, d: Dir, files': map<string, string>, snaps: seq<Snapshot>,
                                             s: Snapshot, j: nat, i: int)
    requires Mirrors(sha, d.files, snaps) && Fresh(d.files, BackupName(s.at))
    requires Trimmed(Paired(sha, d, BackupName(s.at), s.contents).files, files', j)
    requires Suffix(Listing(files'), Names(snaps + [s])) && |Listing(files')| <= |Listing(d.files)| + 1
    requires |snaps| + 1 - |Listing(files')| <= i < |snaps| + 1
    ensures Kept(sha, files', (snaps + [s])[i])
  {
    hide Kept, Mirrors, Fresh, Trimmed, Paired, Listing, BackupName, Complete, BackupFile;
    var all := snaps + [s];
    NamesSize(all);
    ListedIsComplete(files', all, i);
    KeptAfterPair(sha, d, snaps, s, i);
    KeptAfterTrim(sha, Paired(sha, d, BackupName(s.at), s.contents).files, files', j, all[i]);
  }

  lemma NamesSize(snaps: seq<Snapshot>)
    ensures |Names(snaps)| == |snaps|
  {
  }

  lemma SuffixOfLonger(a: seq<string>, b: seq<string>, x: string, j: nat)
    requires Suffix(a, b) && j <= |a|
    ensures Suffix((a + [x])[j..], b + [x])
  {
  }

  lemma NamedBeforeOrNow(sha: Hash, files: map<string, string>, files': map<string, string>,
                         snaps: seq<Snapshot>, s: Snapshot)
    requires Mirrors(sha, files, snaps)
    requires forall n | n in files' && BackupFile(n) :: n in files || n == BackupName(s.at)
    ensures forall n | n in files' && BackupFile(n) :: n in Names(snaps + [s])
  {
    hide BackupName, Listing, BackupFile, Chronological, Kept, Suffix;
    assert Names(snaps + [s]) == Names(snaps) + [BackupName(s.at)];
  }

  lemma {:induction false} SaveKeepsMirror(sha: Hash, d: Dir, snaps: seq<Snapshot>, s: Snapshot,
                                           retention: nat, fault: Fault, k: nat)
    requires Mirrors(sha, d.files, snaps) && Chronological(snaps + [s]) && retention >= 1
    requires k <= |PlanUnder(sha, d, BackupName(s.at), s.contents, retention, fault)|
    ensures var d' := DidAll(d, PlanUnder(sha, d, BackupName(s.at), s.contents, retention, fault)[..k]);
            && Mirrors(sha, d'.files, if fault == NoFault && k >= 2 then snaps + [s] else snaps)
            && (fault == NoFault && k == |Plan(sha, d, BackupName(s.at), s.contents, retention)| ==>
                  && |Listing(d'.files)| == |Listing(d.files)| + 1 - Excess(|Listing(d.files)| + 1, retention)
                  && d'.manifest == Some(ManifestOf(d'.files)))
  {
    hide BackupName, Listing, BackupFile, Chronological, DigestFile, Mirrors, Trimmed, DidAll, Plan, Complete, Before,
         ManifestOf;
    var name := BackupName(s.at);
    LaterIsFresh(sha, d.files, snaps, s);
    var ops := PlanUnder(sha, d, name, s.contents, retention, fault);
    var d' := DidAll(d, ops[..k]);
    PlanPutsOnlyThePair(sha, d, name, s.contents, retention, fault, k);
    NoOtherBackupFiles(d, ops[..k], name);
    if fault == NoFault {
      var j := PlanPrefix(sha, d, name, s.contents, retention, k);
      if k < 2 {
        NoNewBackupFiles(d, ops[..k]);
        UnseenKeepsMirror(sha, d.files, d'.files, snaps);
      } else {
        SavedKeepsMirror(sha, d, d'.files, snaps, s, retention, j);
      }
    } else {
      FaultIsUnseen(sha, d, name, s.contents, retention, fault, k);
      NoNewBackupFiles(d, ops[..k]);
      UnseenKeepsMirror(sha, d.files, d'.files, snaps);
    }
  }

  lemma {:induction false} NoNewBackupFiles(d: Dir, ops: seq<FileOp>)
    requires forall op | op in ops && op.Put? :: !BackupFile(op.name)
    ensures forall n | n in DidAll(d, ops).files && BackupFile(n) :: n in d.files
  {
    hide BackupFile, DidAll;
    NoOtherBackupFiles(d, ops, "");
    assert !BackupFile("") by { NotABackupFile(); }
  }

  lemma NotABackupFile()
    ensures !BackupFile("")
  {
  }

  // ---- runs ----

  /** The backup directory, the live configuration, and the snapshots completed so far. */
  datatype Disk = Disk(dir: Dir, config: Option<string>, snapshots: seq<Snapshot>)

  const BLANK := Disk(Dir(map[], None), None, [])

  /** A backup that gets `steps` file operations far (all of them, if there are no more), a restore
      from the newest backup, or somebody else changing the configuration. */
  datatype Deed =
    | Save(at: Timestamp, retention: nat, fault: Fault, steps: nat)
    | Restore
    | Edit(config: Option<string>)

  /** The first `steps` operations, or all if there are no more. */
  function Took(ops: seq<FileOp>, steps: nat): seq<FileOp> {
    if steps < |ops| then ops[..steps] else ops
  }

  /** The contents a restore would put back. */
  function Restorable(sha: Hash, files: map<string, string>): Option<string> {
    var l := Listing(files);
    if l != [] && Verifies(sha, files, l[|l| - 1]) then Some(files[l[|l| - 1]]) else None
  }

  function DoneDeed(sha: Hash, check: string -> bool, disk: Disk, deed: Deed): Disk {
    match deed
    case Save(at, retention, fault, steps) =>
      if disk.config.None? || !check(disk.config.value) || retention < 1 then disk
      else
        var plan := PlanUnder(sha, disk.dir, BackupName(at), disk.config.value, retention, fault);
        disk.(dir := DidAll(disk.dir, Took(plan, steps)),
              snapshots := if fault == NoFault && steps >= 2
                           then disk.snapshots + [Snapshot(at, disk.config.value)] else disk.snapshots)
    case Restore =>
      if Restorable(sha, disk.dir.files).Some? then disk.(config := Restorable(sha, disk.dir.files)) else disk
    case Edit(config) => disk.(config := config)
  }

  function DoneDeeds(sha: Hash, check: string -> bool, disk: Disk, deeds: seq<Deed>): Disk {
    if deeds == [] then disk
    else DoneDeed(sha, check, DoneDeeds(sha, check, disk, deeds[..|deeds| - 1]), deeds[|deeds| - 1])
  }

  predicate TimesIncrease(deeds: seq<Deed>) {
    && (forall e | e in deeds && e.Save? :: FourDigitYear(e.at))
    && (forall i, j | 0 <= i < j < |deeds| && deeds[i].Save? && deeds[j].Save? :: Earlier(deeds[i].at, deeds[j].at))
  }

  ghost predicate DiskSound(sha: Hash, check: string -> bool, disk: Disk) {
    && Mirrors(sha, disk.dir.files, disk.snapshots)
    && forall s | s in disk.snapshots :: check(s.contents)
  }

  lemma {:induction false} DeedKeepsSound(sha: Hash, check: string -> bool, disk: Disk, deed: Deed)
    requires DiskSound(sha, check, disk)
    requires deed.Save? ==> FourDigitYear(deed.at) && forall s | s in disk.snapshots :: Earlier(s.at, deed.at)
    ensures DiskSound(sha, check, DoneDeed(sha, check, disk, deed))
  {
    hide Mirrors, PlanUnder, DidAll, BackupName, Earlier, Restorable, FourDigitYear;
    if deed.Save? && disk.config.Some? && check(disk.config.value) && deed.retention >= 1 {
      var s := Snapshot(deed.at, disk.config.value);
      LaterIsChronological(sha, disk.dir.files, disk.snapshots, s);
      var plan := PlanUnder(sha, disk.dir, BackupName(deed.at), s.contents, deed.retention, deed.fault);
      var k := if deed.steps < |plan| then deed.steps else |plan|;
      assert Took(plan, deed.steps) == plan[..k];
      SaveKeepsMirror(sha, disk.dir, disk.snapshots, s, deed.retention, deed.fault, k);
      assert deed.fault == NoFault ==> |plan| >= 2 by { PlanIsLong(sha, disk.dir, s, deed.retention); }
    }
  }

  lemma PlanIsLong(sha: Hash, d: Dir, s: Snapshot, retention: nat)
    ensures |PlanUnder(sha, d, BackupName(s.at), s.contents, retention, NoFault)| >= 2
  {
    hide BackupName, Listing, DidAll, DigestFile;
  }

  lemma LaterIsChronological(sha: Hash, files: map<string, string>, snaps: seq<Snapshot>, s: Snapshot)
    requires Mirrors(sha, files, snaps) && FourDigitYear(s.at) && forall t | t in snaps :: Earlier(t.at, s.at)
    ensures Chronological(snaps + [s])
  {
    hide Listing, Kept, BackupFile, FourDigitYear, Earlier;
    var all := snaps + [s];
    forall i, j | 0 <= i < j < |all| ensures Earlier(all[i].at, all[j].at) {
      if j == |snaps| { assert snaps[i] in snaps; }
    }
  }

  lemma {:induction false} SnapshotsAreSaves(sha: Hash, check: string -> bool, deeds: seq<Deed>, s: Snapshot)
    requires s in DoneDeeds(sha, check, BLANK, deeds).snapshots
    ensures exists i :: 0 <= i < |deeds| && deeds[i].Save? && deeds[i].at == s.at
  {
    hide PlanUnder, DidAll, BackupName, Restorable;
    if deeds != [] {
      var most, last := deeds[..|deeds| - 1], deeds[|deeds| - 1];
      var before := DoneDeeds(sha, check, BLANK, most);
      if s in before.snapshots {
        SnapshotsAreSaves(sha, check, most, s);
        var i :| 0 <= i < |most| && most[i].Save? && most[i].at == s.at;
        assert deeds[i] == most[i];
      } else {
        assert deeds[|deeds| - 1].Save?;
      }
    }
  }

  lemma {:induction false} RunIsSound(sha: Hash, check: string -> bool, deeds: seq<Deed>)
    requires TimesIncrease(deeds)
    ensures DiskSound(sha, check, DoneDeeds(sha, check, BLANK, deeds))
  {
    hide DoneDeed, Earlier, FourDigitYear;
    if deeds == [] {
      BlankIsSound(sha, check);
    } else {
      var most, last := deeds[..|deeds| - 1], deeds[|deeds| - 1];
      assert last in deeds;
      forall e | e in most ensures e in deeds {}
      RunIsSound(sha, check, most);
      var before := DoneDeeds(sha, check, BLANK, most);
      if last.Save? {
        forall s | s in before.snapshots ensures Earlier(s.at, last.at) {
          SnapshotsAreSaves(sha, check, most, s);
          var i :| 0 <= i < |most| && most[i].Save? && most[i].at == s.at;
          assert deeds[i] == most[i];
        }
      }
      DeedKeepsSound(sha, check, before, last);
    }
  }

  lemma BlankIsSound(sha: Hash, check: string -> bool)
    ensures DiskSound(sha, check, BLANK)
  {
    assert Complete(BLANK.dir.files) == {};
  }

  lemma {:induction false} LastIsListed(sha: Hash, files: map<string, string>, snaps: seq<Snapshot>)
    requires Mirrors(sha, files, snaps)
    ensures |Listing(files)| <= |snaps|
    ensures Listing(files) == Names(snaps)[|snaps| - |Listing(files)|..]
    ensures snaps == [] <==> Listing(files) == []
    ensures forall i | |snaps| - |Listing(files)| <= i < |snaps| :: Kept(sha, files, snaps[i])
    ensures snaps != [] ==>
              var n := BackupName(snaps[|snaps| - 1].at);
              Listing(files)[|Listing(files)| - 1] == n && n in Complete(files)
  {
    hide Listing, BackupName, BackupFile, Chronological, Kept, Mirrors, Complete, Suffix, Names;
    MirrorsListing(sha, files, snaps);
    NamesSize(snaps);
    SuffixIsSlice(Listing(files), Names(snaps));
    if snaps != [] {
      ListedIsComplete(files, snaps, |snaps| - 1);
      LastOfSuffix(Listing(files), Names(snaps));
      assert Names(snaps)[|snaps| - 1] == BackupName(snaps[|snaps| - 1].at) by { NameAt(snaps, |snaps| - 1); }
    }
  }

  lemma MirrorsListing(sha: Hash, files: map<string, string>, snaps: seq<Snapshot>)
    requires Mirrors(sha, files, snaps)
    ensures Suffix(Listing(files), Names(snaps)) && (snaps != [] ==> Listing(files) != [])
    ensures forall i | |snaps| - |Listing(files)| <= i < |snaps| :: Kept(sha, files, snaps[i])
  {
  }

  lemma SuffixIsSlice(a: seq<string>, b: seq<string>)
    requires Suffix(a, b)
    ensures |a| <= |b| && a == b[|b| - |a|..]
  {
  }

  lemma NameAt(snaps: seq<Snapshot>, i: nat)
    requires i < |snaps|
    ensures i < |Names(snaps)| && Names(snaps)[i] == BackupName(snaps[i].at)
  {
  }

  lemma LastOfSuffix(a: seq<string>, b: seq<string>)
    requires Suffix(a, b) && a != []
    ensures a[|a| - 1] == b[|b| - 1]
  {
  }

  /** What a restore finds, in any sound state: the newest completed snapshot, which passes the check. */
  lemma {:induction false} NewestIsRestorable(sha: Hash, check: string -> bool, disk: Disk)
    requires DiskSound(sha, check, disk)
    ensures Restorable(sha, disk.dir.files) ==
            if disk.snapshots == [] then None else Some(disk.snapshots[|disk.snapshots| - 1].contents)
    ensures disk.snapshots != [] ==> check(disk.snapshots[|disk.snapshots| - 1].contents)
  {
    hide Listing, BackupName, Complete, Verifies, DigestFile, Mirrors;
    var snaps := disk.snapshots;
    MirrorsAllVerify(sha, disk.dir.files, snaps);
    LastIsListed(sha, disk.dir.files, snaps);
    if snaps != [] {
      assert Kept(sha, disk.dir.files, snaps[|snaps| - 1]);
      assert snaps[|snaps| - 1] in snaps;
    }
  }

  /** Over any run with increasing times, crashes included: a restore puts back exactly the most
      recent completed snapshot, which passes the check, or changes nothing if there is none; no
      step of a backup touches the configuration. */
  lemma {:induction false} RestoreRoundTrip(sha: Hash, check: string -> bool, deeds: seq<Deed>, deed: Deed)
    requires TimesIncrease(deeds)
    ensures var disk := DoneDeeds(sha, check, BLANK, deeds);
            var config := DoneDeed(sha, check, disk, deed).config;
            match deed
            case Save(_, _, _, _) => config == disk.config
            case Edit(c) => config == c
            case Restore =>
              if disk.snapshots == [] then config == disk.config
              else
                var newest := disk.snapshots[|disk.snapshots| - 1].contents;
                config == Some(newest) && check(newest)
  {
    hide DoneDeeds, DiskSound, PlanUnder, DidAll, BackupName, Restorable;
    RunIsSound(sha, check, deeds);
    NewestIsRestorable(sha, check, DoneDeeds(sha, check, BLANK, deeds));
  }

  // ---- completed backups form a bounded queue ----

  /** The directory after completed backups of the given snapshots. */
  function SavedAll(sha: Hash, saves: seq<Snapshot>, retention: nat): Dir {
    if saves == [] then BLANK.dir
    else
      var d, s := SavedAll(sha, saves[..|saves| - 1], retention), saves[|saves| - 1];
      DidAll(d, Plan(sha, d, BackupName(s.at), s.contents, retention))
  }

  function Last(saves: seq<Snapshot>, r: nat): seq<Snapshot> {
    saves[Excess(|saves|, r)..]
  }

  function ManifestFor(sha: Hash, kept: seq<Snapshot>): Manifest {
    Manifest(if kept == [] then None else Some(BackupName(kept[|kept| - 1].at)),
             seq(|kept|, i requires 0 <= i < |kept| => (BackupName(kept[i].at), sha(kept[i].contents))))
  }

  /** After any number of completed backups the directory lists exactly the last `retention` of
      them, oldest first, with unchanged bytes, and the manifest says so. */
  lemma {:induction false} CompletedBackupsFormAQueue(sha: Hash, saves: seq<Snapshot>, retention: nat)
    requires Chronological(saves) && retention >= 1
    ensures var d := SavedAll(sha, saves, retention); var kept := Last(saves, retention);
            && Listing(d.files) == Names(kept)
            && (forall s | s in kept :: Kept(sha, d.files, s))
            && (saves != [] ==> d.manifest == Some(ManifestFor(sha, kept)))
  {
    hide Listing, BackupName, Kept, Mirrors, ManifestOf, ManifestFor, SavedAll, Chronological, Complete;
    QueueMirrors(sha, saves, retention);
    var d, kept := SavedAll(sha, saves, retention), Last(saves, retention);
    LastIsListed(sha, d.files, saves);
    assert Names(kept) == Names(saves)[Excess(|saves|, retention)..];
    forall s | s in kept ensures Kept(sha, d.files, s) {
      var i :| 0 <= i < |kept| && kept[i] == s;
      assert saves[i + Excess(|saves|, retention)] == s;
    }
    if saves != [] {
      ManifestReadsDigests(sha, d.files, kept);
    }
  }

  lemma {:induction false} ManifestReadsDigests(sha: Hash, files: map<string, string>, kept: seq<Snapshot>)
    requires Listing(files) == Names(kept) && forall s | s in kept :: Kept(sha, files, s)
    ensures ManifestOf(files) == ManifestFor(sha, kept)
  {
    hide Listing, BackupName, Strip;
    forall i | 0 <= i < |kept| ensures Strip(DigestFile(sha, kept[i].contents)) == sha(kept[i].contents) {
      DigestFileReadsBack(sha(kept[i].contents));
    }
    forall i | 0 <= i < |kept|
      ensures Entries(files, Listing(files))[i] == (BackupName(kept[i].at), sha(kept[i].contents))
    {
      assert kept[i] in kept && Listing(files)[i] == Names(kept)[i];
    }
  }

  lemma {:induction false} QueueMirrors(sha: Hash, saves: seq<Snapshot>, retention: nat)
    requires Chronological(saves) && retention >= 1
    ensures var d := SavedAll(sha, saves, retention);
            && Mirrors(sha, d.files, saves)
            && |Listing(d.files)| == |saves| - Excess(|saves|, retention)
            && (saves != [] ==> d.manifest == Some(ManifestOf(d.files)))
  {
    hide Listing, BackupName, Mirrors, ManifestOf, DidAll, Plan, Chronological;
    if saves == [] {
      NothingListed();
      BlankMirrors(sha);
    } else {
      var most, s := saves[..|saves| - 1], saves[|saves| - 1];
      assert saves == most + [s];
      ChronologicalMost(most, s);
      QueueMirrors(sha, most, retention);
      var d := SavedAll(sha, most, retention);
      var plan := Plan(sha, d, BackupName(s.at), s.contents, retention);
      PlanIsLong(sha, d, s, retention);
      SaveKeepsMirror(sha, d, most, s, retention, NoFault, |plan|);
      assert plan[..|plan|] == plan;
    }
  }

  lemma ChronologicalMost(most: seq<Snapshot>, s: Snapshot)
    requires Chronological(most + [s])
    ensures Chronological(most)
  {
    hide Earlier, FourDigitYear;
    var all := most + [s];
    forall t | t in most ensures FourDigitYear(t.at) { assert t in all; }
    forall i, j | 0 <= i < j < |most| ensures Earlier(most[i].at, most[j].at) {
      assert all[i] == most[i] && all[j] == most[j];
    }
  }

  lemma NothingListed()
    ensures Listing(BLANK.dir.files) == []
  {
    assert Complete(BLANK.dir.files) == {};
  }

  lemma BlankMirrors(sha: Hash)
    ensures Mirrors(sha, BLANK.dir.files, [])
  {
    NothingListed();
  }
}
