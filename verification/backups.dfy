/** The backup directory: ordered renames and removals of single files, any of which may be the
    last thing that happens before a crash. */
module Backups {
  import opened PyText

  /** SHA-256 as an unknown function from contents to digests. */
  type Hash = f: string -> string | (forall c :: IsDigest(f(c))) ghost witness AllZero

  function AllZero(c: string): string {
    seq(64, _ => '0')
  }

  datatype Manifest = Manifest(latest: Option<string>, entries: seq<(string, string)>)

  /** The files of the backup directory by name; the manifest is kept apart. */
  datatype Dir = Dir(files: map<string, string>, manifest: Option<Manifest>)

  // ---- listing ----

  /** The pattern `gateway-*.yaml` */
  predicate BackupFile(n: string) {
    |n| >= 13 && n[..8] == "gateway-" && n[|n| - 5..] == ".yaml"
  }

  function ChecksumName(n: string): string {
    n + ".sha256"
  }

  function Complete(files: map<string, string>): set<string> {
    set n | n in files && BackupFile(n) && ChecksumName(n) in files
  }

  predicate Increasing(l: seq<string>) {
    forall i, j | 0 <= i < j < |l| :: Before(l[i], l[j])
  }

  predicate IsLeast(m: string, s: set<string>) {
    m in s && forall x | x in s :: x == m || Before(m, x)
  }

  lemma {:induction false} LeastExists(s: set<string>)
    requires s != {}
    ensures exists m :: IsLeast(m, s)
    ensures forall a, b | IsLeast(a, s) && IsLeast(b, s) :: a == b
    decreases |s|
  {
    hide Before;
    var x :| x in s;
    var rest := s - {x};
    if rest == {} {
      assert s == {x};
      assert IsLeast(x, s);
    } else {
      LeastExists(rest);
      var m :| IsLeast(m, rest);
      BeforeTotal(x, m);
      if Before(x, m) {
        forall y | y in rest && y != m ensures Before(x, y) { BeforeTransitive(x, m, y); }
        assert IsLeast(x, s);
      } else {
        assert IsLeast(m, s);
      }
    }
    forall a, b | IsLeast(a, s) && IsLeast(b, s) ensures a == b { BeforeTotal(a, b); }
  }

  /** `sorted` */
  function Sorted(s: set<string>): seq<string> {
    if s == {} then []
    else
      LeastExists(s);
      var m :| IsLeast(m, s);
      [m] + Sorted(s - {m})
  }

  function Members(l: seq<string>): set<string> {
    set n | n in l
  }

  lemma {:induction false} SortedIsIncreasing(s: set<string>)
    ensures Increasing(Sorted(s)) && Members(Sorted(s)) == s
  {
    hide Before;
    if s != {} {
      LeastExists(s);
      var m :| IsLeast(m, s);
      SortedIsIncreasing(s - {m});
      var rest := Sorted(s - {m});
      assert Sorted(s) == [m] + rest;
      assert Members([m] + rest) == {m} + Members(rest);
      forall j | 0 <= j < |rest| ensures Before(m, rest[j]) {
        assert rest[j] in Members(rest);
      }
    }
  }

  /** A set has one increasing enumeration. */
  lemma {:induction false} IncreasingIsUnique(a: seq<string>, b: seq<string>)
    requires Increasing(a) && Increasing(b) && Members(a) == Members(b)
    ensures a == b
  {
    hide Before;
    if a == [] || b == [] {
      NoMembers(a);
      NoMembers(b);
    } else {
      FirstIsLeast(a);
      FirstIsLeast(b);
      LeastExists(Members(a));
      assert a[0] == b[0];
      MembersOfRest(a);
      MembersOfRest(b);
      IncreasingIsUnique(a[1..], b[1..]);
    }
  }

  lemma NoMembers(l: seq<string>)
    ensures Members(l) == {} <==> l == []
  {
    if l != [] { assert l[0] in Members(l); }
  }

  lemma FirstIsLeast(l: seq<string>)
    requires Increasing(l) && l != []
    ensures IsLeast(l[0], Members(l))
  {
    hide Before;
  }

  lemma MembersOfRest(l: seq<string>)
    requires Increasing(l) && l != []
    ensures Members(l[1..]) == Members(l) - {l[0]}
  {
    forall n | n in l[1..] ensures n != l[0] { BeforeTotal(l[0], n); }
  }

  /** `list_backups`: complete backups in the order of their names */
  function Listing(files: map<string, string>): seq<string> {
    Sorted(Complete(files))
  }

  lemma ListingIs(files: map<string, string>, l: seq<string>)
    requires Increasing(l) && Members(l) == Complete(files)
    ensures Listing(files) == l
  {
    SortedIsIncreasing(Complete(files));
    IncreasingIsUnique(Listing(files), l);
  }

  lemma ListingProperties(files: map<string, string>)
    ensures Increasing(Listing(files))
    ensures forall n :: n in Listing(files) <==> n in Complete(files)
  {
    SortedIsIncreasing(Complete(files));
    forall n ensures n in Listing(files) <==> n in Members(Listing(files)) {}
  }

  // ---- verification ----

  predicate Ascii(s: string) {
    forall i | 0 <= i < |s| :: s[i] as int < 128
  }

  /** `verify_backup` */
  predicate Verifies(sha: Hash, files: map<string, string>, n: string) {
    && ChecksumName(n) in files && n in files && Ascii(files[ChecksumName(n)])
    && var expected := Strip(files[ChecksumName(n)]);
       |expected| == 64 && ParsesAsHex(expected) && sha(files[n]) == Lower(expected)
  }

  function DigestFile(sha: Hash, contents: string): string {
    sha(contents) + "\n"
  }

  lemma PairVerifies(sha: Hash, files: map<string, string>, n: string)
    requires n in files && ChecksumName(n) in files && files[ChecksumName(n)] == DigestFile(sha, files[n])
    ensures Verifies(sha, files, n)
  {
    hide Strip, ParsesAsHex, Lower;
    DigestFileReadsBack(sha(files[n]));
  }

  ghost predicate AllVerify(sha: Hash, files: map<string, string>) {
    forall n | n in Complete(files) :: Verifies(sha, files, n)
  }

  // ---- the steps of a backup ----

  datatype FileOp = Put(name: string, contents: string) | Remove(name: string) | WriteManifest

  function ManifestOf(files: map<string, string>): Manifest {
    var l := Listing(files);
    Manifest(if l == [] then None else Some(l[|l| - 1]), Entries(files, l))
  }

  function Entries(files: map<string, string>, l: seq<string>): seq<(string, string)> {
    seq(|l|, i requires 0 <= i < |l| =>
      (l[i], if ChecksumName(l[i]) in files then Strip(files[ChecksumName(l[i])]) else ""))
  }

  function Did(d: Dir, op: FileOp): Dir {
    match op
    case Put(n, c) => d.(files := d.files[n := c])
    case Remove(n) => d.(files := d.files - {n})
    case WriteManifest => d.(manifest := Some(ManifestOf(d.files)))
  }

  function DidAll(d: Dir, ops: seq<FileOp>): Dir
    decreases |ops|
  {
    if ops == [] then d else DidAll(Did(d, ops[0]), ops[1..])
  }

  /** What `[:-retention]` leaves of a listing, to be removed. */
  function Oldest(l: seq<string>, retention: nat): seq<string> {
    if |l| > retention then l[..|l| - retention] else []
  }

  function Prunes(names: seq<string>): seq<FileOp> {
    if names == [] then [] else [Remove(ChecksumName(names[0])), Remove(names[0])] + Prunes(names[1..])
  }

  function PairOps(sha: Hash, name: string, contents: string): seq<FileOp> {
    [Put(ChecksumName(name), DigestFile(sha, contents)), Put(name, contents)]
  }

  /** All file operations of an undisturbed `create_backup`, in order. */
  function Plan(sha: Hash, d: Dir, name: string, contents: string, retention: nat): seq<FileOp> {
    var pair := PairOps(sha, name, contents);
    pair + (Prunes(Oldest(Listing(DidAll(d, pair).files), retention)) + [WriteManifest])
  }

  /** Which of the two renames raises, if any. */
  datatype Fault = NoFault | ChecksumRenameRaises | BackupRenameRaises

  /** The operations including the clean-up after a failed rename.  A process that dies, or an
      error in a later step, leaves a prefix of one of these lists. */
  function PlanUnder(sha: Hash, d: Dir, name: string, contents: string, retention: nat, fault: Fault): seq<FileOp> {
    var cleanup := if name in d.files then [] else [Remove(ChecksumName(name))];
    match fault
    case NoFault => Plan(sha, d, name, contents, retention)
    case ChecksumRenameRaises => cleanup
    case BackupRenameRaises => [Put(ChecksumName(name), DigestFile(sha, contents))] + cleanup
  }

  // ---- what each step does to the listing ----

  lemma ChecksumNamesDiffer(n: string)
    ensures !BackupFile(ChecksumName(n))
    ensures forall m | ChecksumName(m) == ChecksumName(n) :: m == n
  {
    var c := ChecksumName(n);
    assert c[|c| - 5..] == "ha256" by {
      assert c[|c| - 5..] == ".sha256"[2..];
    }
    forall m | ChecksumName(m) == c ensures m == n {
      assert m == ChecksumName(m)[..|m|] && n == c[..|n|];
    }
  }

  /** The listing of `files'` is that of `files` without its first `j` entries, whose files are gone
      or going; the files behind the remaining entries are untouched. */
  ghost predicate Trimmed(files: map<string, string>, files': map<string, string>, j: nat) {
    && j <= |Listing(files)|
    && Listing(files') == Listing(files)[j..]
    && (forall n | n in Complete(files') ::
          && n in Complete(files)
          && files'[n] == files[n] && files'[ChecksumName(n)] == files[ChecksumName(n)])
  }

  lemma TrimmedKeepsVerified(sha: Hash, files: map<string, string>, files': map<string, string>, j: nat)
    requires Trimmed(files, files', j) && AllVerify(sha, files)
    ensures AllVerify(sha, files')
  {
    hide Listing, BackupFile, Strip, ParsesAsHex, Lower;
  }

  lemma {:induction false} SameCompleteIsTrimmed(files: map<string, string>, files': map<string, string>)
    requires Complete(files') == Complete(files)
    requires forall n | n in Complete(files) ::
               files'[n] == files[n] && files'[ChecksumName(n)] == files[ChecksumName(n)]
    ensures Trimmed(files, files', 0)
  {
    hide BackupFile;
  }

  /** Writing or removing the checksum of a name without a backup file is not seen. */
  lemma {:induction false} LoneChecksumIsUnseen(files: map<string, string>, name: string, c: string)
    requires name !in files
    ensures Trimmed(files, files[ChecksumName(name) := c], 0)
    ensures Trimmed(files, files - {ChecksumName(name)}, 0)
    ensures name !in files[ChecksumName(name) := c]
  {
    ChecksumNamesDiffer(name);
    var a, b := files[ChecksumName(name) := c], files - {ChecksumName(name)};
    assert |ChecksumName(name)| > |name|;
    forall n ensures n in Complete(a) <==> n in Complete(files) {
      ChecksumNamesDiffer(n);
    }
    forall n ensures n in Complete(b) <==> n in Complete(files) {
      ChecksumNamesDiffer(n);
    }
    SameCompleteIsTrimmed(files, a);
    SameCompleteIsTrimmed(files, b);
  }

  /** The name of a new backup: not in use, and after every listed one. */
  predicate Fresh(files: map<string, string>, name: string) {
    BackupFile(name) && name !in files && forall n | n in Complete(files) :: Before(n, name)
  }

  /** With its checksum in place, the renamed backup is listed last. */
  lemma {:induction false} BackupIsListedLast(files: map<string, string>, name: string, c: string)
    requires Fresh(files, name) && ChecksumName(name) in files
    ensures Listing(files[name := c]) == Listing(files) + [name]
    ensures Complete(files[name := c]) == Complete(files) + {name}
  {
    hide Before;
    ListingProperties(files);
    var files' := files[name := c];
    assert forall n | n in Complete(files') && n != name :: n in Complete(files) by {
      forall n | n in Complete(files') && n != name ensures n in Complete(files) { ChecksumNamesDiffer(n); }
    }
    assert Complete(files') == Complete(files) + {name};
    ListingIs(files', Listing(files) + [name]);
  }

  /** Removing the first checksum takes the first entry off the listing. */
  lemma {:induction false} FirstLeavesListing(files: map<string, string>)
    requires Listing(files) != []
    ensures Trimmed(files, files - {ChecksumName(Listing(files)[0])}, 1)
    ensures Trimmed(files, files - {ChecksumName(Listing(files)[0])} - {Listing(files)[0]}, 1)
  {
    hide Before, BackupFile;
    var l := Listing(files);
    ListingProperties(files);
    var a := files - {ChecksumName(l[0])};
    var b := a - {l[0]};
    MembersOfRest(l);
    ChecksumNamesDiffer(l[0]);
    forall n ensures n in Complete(a) <==> n in Complete(files) && n != l[0] {
      ChecksumNamesDiffer(n);
    }
    forall n ensures n in Complete(b) <==> n in Complete(files) && n != l[0] {
      ChecksumNamesDiffer(n);
    }
    ListingIs(a, l[1..]);
    ListingIs(b, l[1..]);
  }

  // ---- every prefix of the steps is safe ----

  lemma {:induction false} DidAllInTwoParts(d: Dir, a: seq<FileOp>, b: seq<FileOp>)
    ensures DidAll(d, a + b) == DidAll(DidAll(d, a), b)
    decreases |a|
  {
    hide Did;
    if a == [] {
      assert a + b == b;
    } else {
      assert (a + b)[1..] == a[1..] + b;
      DidAllInTwoParts(Did(d, a[0]), a[1..], b);
    }
  }

  lemma {:induction false} PrunesSize(names: seq<string>)
    ensures |Prunes(names)| == 2 * |names|
  {
    if names != [] { PrunesSize(names[1..]); }
  }

  lemma TrimmedTransitive(a: map<string, string>, b: map<string, string>, c: map<string, string>, i: nat, j: nat)
    requires Trimmed(a, b, i) && Trimmed(b, c, j)
    ensures Trimmed(a, c, i + j)
  {
    hide Listing, BackupFile;
  }

  lemma NotTrimmed(files: map<string, string>)
    ensures Trimmed(files, files, 0)
  {
    hide Listing, BackupFile;
  }

  lemma {:induction false} TwoRemovals(d: Dir, n: string, rest: seq<FileOp>)
    ensures DidAll(d, [Remove(ChecksumName(n)), Remove(n)] + rest) ==
            DidAll(d.(files := d.files - {ChecksumName(n)} - {n}), rest)
    ensures DidAll(d, [Remove(ChecksumName(n))]) == d.(files := d.files - {ChecksumName(n)})
  {
    var d1 := Did(d, Remove(ChecksumName(n)));
    assert ([Remove(ChecksumName(n)), Remove(n)] + rest)[1..] == [Remove(n)] + rest;
    assert ([Remove(n)] + rest)[1..] == rest;
    assert DidAll(d1, [Remove(n)] + rest) == DidAll(Did(d1, Remove(n)), rest);
  }

  /** After `k` of the removals, the names gone from the listing are the oldest ones, in order. */
  lemma {:induction false} PruningTrims(d: Dir, names: seq<string>, k: nat)
    requires names <= Listing(d.files) && k <= 2 * |names|
    ensures |Prunes(names)| == 2 * |names|
    ensures var d' := DidAll(d, Prunes(names)[..k]);
            Trimmed(d.files, d'.files, (k + 1) / 2) && d'.manifest == d.manifest
    decreases |names|
  {
    hide Listing, Trimmed, Did;
    PrunesSize(names);
    if k == 0 {
      NotTrimmed(d.files);
    } else {
      FirstLeavesListing(d.files);
      assert Listing(d.files)[0] == names[0];
      var ops := Prunes(names);
      TwoRemovals(d, names[0], if k == 1 then [] else Prunes(names[1..])[..k - 2]);
      if k == 1 {
        assert ops[..1] == [Remove(ChecksumName(names[0]))];
      } else {
        var d2 := d.(files := d.files - {ChecksumName(names[0])} - {names[0]});
        assert ops[..k] == [Remove(ChecksumName(names[0])), Remove(names[0])] + Prunes(names[1..])[..k - 2];
        assert Listing(d2.files) == Listing(d.files)[1..] by { assert Trimmed(d.files, d2.files, 1); Unfold(d.files, d2.files, 1); }
        PruningTrims(d2, names[1..], k - 2);
        TrimmedTransitive(d.files, d2.files, DidAll(d, ops[..k]).files, 1, (k - 1) / 2);
      }
    }
  }

  lemma Unfold(files: map<string, string>, files': map<string, string>, j: nat)
    requires Trimmed(files, files', j)
    ensures j <= |Listing(files)| && Listing(files') == Listing(files)[j..]
  {
  }

  /** The directory right after the backup was renamed into place. */
  function Paired(sha: Hash, d: Dir, name: string, contents: string): Dir {
    d.(files := d.files[ChecksumName(name) := DigestFile(sha, contents)][name := contents])
  }

  lemma {:induction false} PairSteps(sha: Hash, d: Dir, name: string, contents: string)
    ensures DidAll(d, PairOps(sha, name, contents)) == Paired(sha, d, name, contents)
    ensures DidAll(d, PairOps(sha, name, contents)[..1]) ==
            d.(files := d.files[ChecksumName(name) := DigestFile(sha, contents)])
  {
    var ops := PairOps(sha, name, contents);
    assert ops[..1] == [ops[0]] && ops[1..] == [ops[1]];
    assert DidAll(Did(d, ops[0]), [ops[1]]) == Did(Did(d, ops[0]), ops[1]);
  }

  lemma {:induction false} PairIsListedLast(sha: Hash, d: Dir, name: string, contents: string)
    requires Fresh(d.files, name)
    ensures var files := Paired(sha, d, name, contents).files;
            Listing(files) == Listing(d.files) + [name] && Complete(files) == Complete(d.files) + {name}
  {
    hide Listing, Before, BackupFile, Trimmed, DigestFile;
    var files1 := d.files[ChecksumName(name) := DigestFile(sha, contents)];
    LoneChecksumIsUnseen(d.files, name, DigestFile(sha, contents));
    SameComplete(d.files, files1);
    BackupIsListedLast(files1, name, contents);
  }

  /** A new pair leaves the files of the other backups alone. */
  lemma {:induction false} PairSparesOthers(files: map<string, string>, name: string, digest: string,
                                            contents: string, n: string)
    requires BackupFile(name) && name !in files && n in Complete(files)
    ensures var files' := files[ChecksumName(name) := digest][name := contents];
            n in files' && ChecksumName(n) in files' && n != name
            && files'[n] == files[n] && files'[ChecksumName(n)] == files[ChecksumName(n)]
  {
    hide BackupFile;
    ChecksumNamesDiffer(name);
    ChecksumNamesDiffer(n);
  }

  lemma {:induction false} PairKeepsVerified(sha: Hash, d: Dir, name: string, contents: string)
    requires Fresh(d.files, name) && AllVerify(sha, d.files)
    ensures AllVerify(sha, Paired(sha, d, name, contents).files)
  {
    hide Listing, Before, BackupFile, Verifies, DigestFile;
    var files := Paired(sha, d, name, contents).files;
    PairIsListedLast(sha, d, name, contents);
    assert |ChecksumName(name)| > |name|;
    forall n | n in Complete(files) ensures Verifies(sha, files, n) {
      if n == name {
        PairVerifies(sha, files, name);
      } else {
        PairSparesOthers(d.files, name, DigestFile(sha, contents), contents, n);
        StillVerifies(sha, d.files, files, n);
      }
    }
  }

  lemma SameComplete(files: map<string, string>, files': map<string, string>)
    requires Trimmed(files, files', 0)
    ensures Complete(files') == Complete(files) && Listing(files') == Listing(files)
  {
    SortedIsIncreasing(Complete(files));
    SortedIsIncreasing(Complete(files'));
    assert Listing(files)[0..] == Listing(files);
  }

  lemma StillVerifies(sha: Hash, files: map<string, string>, files': map<string, string>, n: string)
    requires Verifies(sha, files, n)
    requires n in files' && ChecksumName(n) in files'
    requires files'[n] == files[n] && files'[ChecksumName(n)] == files[ChecksumName(n)]
    ensures Verifies(sha, files', n)
  {
  }

  /** How many of the oldest backups a listing of length `l` loses to retention. */
  function Excess(l: nat, retention: nat): nat {
    if l > retention then l - retention else 0
  }

  /** The first `k` operations of a list in three parts. */
  lemma {:induction false} PrefixOfThree(d: Dir, a: seq<FileOp>, b: seq<FileOp>, last: FileOp, k: nat)
    requires k <= |a| + |b| + 1
    ensures k <= |a| ==> DidAll(d, (a + (b + [last]))[..k]) == DidAll(d, a[..k])
    ensures |a| <= k <= |a| + |b| ==>
              DidAll(d, (a + (b + [last]))[..k]) == DidAll(DidAll(d, a), b[..k - |a|])
    ensures k == |a| + |b| + 1 ==> DidAll(d, (a + (b + [last]))[..k]) == Did(DidAll(DidAll(d, a), b), last)
  {
    hide Did;
    var all := a + (b + [last]);
    if k <= |a| { assert all[..k] == a[..k]; }
    if |a| <= k <= |a| + |b| {
      assert all[..k] == a + b[..k - |a|];
      DidAllInTwoParts(d, a, b[..k - |a|]);
    }
    if k == |a| + |b| + 1 {
      assert all[..k] == all;
      DidAllInTwoParts(d, a, b + [last]);
      DidAllInTwoParts(DidAll(d, a), b, [last]);
      var d2 := DidAll(DidAll(d, a), b);
      assert DidAll(d2, [last]) == DidAll(Did(d2, last), [last][1..]);
    }
  }

  /** Where `k` steps of the undisturbed plan lead: before the second rename nothing is seen, after
      it the new backup is listed last and the oldest ones go one by one. */
  lemma {:induction false} PlanPrefix(sha: Hash, d: Dir, name: string, contents: string, retention: nat, k: nat)
    returns (j: nat)
    requires Fresh(d.files, name) && k <= |Plan(sha, d, name, contents, retention)|
    ensures var d' := DidAll(d, Plan(sha, d, name, contents, retention)[..k]);
            && (k < 2 ==> Trimmed(d.files, d'.files, 0))
            && (k >= 2 ==> Trimmed(Paired(sha, d, name, contents).files, d'.files, j))
            && j <= Excess(|Listing(d.files)| + 1, retention)
            && (k == |Plan(sha, d, name, contents, retention)| ==>
                  && j == Excess(|Listing(d.files)| + 1, retention) && k >= 2
                  && d'.manifest == Some(ManifestOf(d'.files)))
  {
    hide Listing, Trimmed, Before, BackupFile, Complete, ManifestOf, DidAll, Prunes, Paired, Plan, PairOps, Oldest;
    var pair, d2 := PairOps(sha, name, contents), Paired(sha, d, name, contents);
    var oldest := Oldest(Listing(d2.files), retention);
    PlanShape(sha, d, name, contents, retention);
    PrefixOfThree(d, pair, Prunes(oldest), WriteManifest, k);
    j := 0;
    if k < 2 {
      UnseenBeforeSecondRename(sha, d, name, contents, k);
    } else if k - 2 <= |Prunes(oldest)| {
      PruningTrims(d2, oldest, k - 2);
      j := (k - 1) / 2;
    } else {
      PruningTrims(d2, oldest, |Prunes(oldest)|);
      assert Prunes(oldest)[..|Prunes(oldest)|] == Prunes(oldest);
      j := |oldest|;
    }
  }

  lemma {:induction false} PlanShape(sha: Hash, d: Dir, name: string, contents: string, retention: nat)
    requires Fresh(d.files, name)
    ensures var d2 := Paired(sha, d, name, contents); var oldest := Oldest(Listing(d2.files), retention);
            && |PairOps(sha, name, contents)| == 2 && |Prunes(oldest)| == 2 * |oldest|
            && DidAll(d, PairOps(sha, name, contents)) == d2
            && Plan(sha, d, name, contents, retention) ==
               PairOps(sha, name, contents) + (Prunes(oldest) + [WriteManifest])
            && |oldest| == Excess(|Listing(d.files)| + 1, retention) && oldest <= Listing(d2.files)
  {
    hide Listing, Before, BackupFile, DigestFile;
    PairSteps(sha, d, name, contents);
    PairIsListedLast(sha, d, name, contents);
    PrunesSize(Oldest(Listing(Paired(sha, d, name, contents).files), retention));
  }

  lemma {:induction false} UnseenBeforeSecondRename(sha: Hash, d: Dir, name: string, contents: string, k: nat)
    requires name !in d.files && k < 2
    ensures Trimmed(d.files, DidAll(d, PairOps(sha, name, contents)[..k]).files, 0)
  {
    hide Trimmed, DigestFile;
    PairSteps(sha, d, name, contents);
    NotTrimmed(d.files);
    LoneChecksumIsUnseen(d.files, name, DigestFile(sha, contents));
  }

  predicate Suffix(a: seq<string>, b: seq<string>) {
    |a| <= |b| && a == b[|b| - |a|..]
  }

  /** What a crash may leave: every listed backup is good, the listing is the end of the old one or
      of the old one with the new backup, and at least as many remain as retention or the old
      listing demand. */
  ghost predicate CrashSafe(sha: Hash, before: map<string, string>, name: string, retention: nat,
                            after: map<string, string>) {
    var listed, now := Listing(before), Listing(after);
    && AllVerify(sha, after)
    && (Suffix(now, listed) || Suffix(now, listed + [name]))
    && (|now| >= |listed| || |now| >= retention)
  }

  lemma {:induction false} EveryPrefixIsSafe(sha: Hash, d: Dir, name: string, contents: string,
                                             retention: nat, fault: Fault, k: nat)
    requires AllVerify(sha, d.files) && Fresh(d.files, name) && retention >= 1
    requires k <= |PlanUnder(sha, d, name, contents, retention, fault)|
    ensures var after := DidAll(d, PlanUnder(sha, d, name, contents, retention, fault)[..k]).files;
            && CrashSafe(sha, d.files, name, retention, after)
            // once a restorable backup exists, one always does
            && (Listing(d.files) != [] ==> Listing(after) != [])
  {
    hide Listing, DidAll, Before, BackupFile, Plan, AllVerify, Trimmed, CrashSafe;
    var after := DidAll(d, PlanUnder(sha, d, name, contents, retention, fault)[..k]).files;
    if fault == NoFault {
      var j := PlanPrefix(sha, d, name, contents, retention, k);
      if k < 2 {
        TrimmedOldIsSafe(sha, d.files, name, retention, after);
      } else {
        TrimmedPairIsSafe(sha, d, name, contents, retention, after, j);
      }
    } else {
      FaultIsUnseen(sha, d, name, contents, retention, fault, k);
      TrimmedOldIsSafe(sha, d.files, name, retention, after);
    }
  }

  lemma {:induction false} TrimmedOldIsSafe(sha: Hash, before: map<string, string>, name: string, retention: nat,
                                            after: map<string, string>)
    requires AllVerify(sha, before) && Trimmed(before, after, 0)
    ensures CrashSafe(sha, before, name, retention, after) && Listing(after) == Listing(before)
  {
    hide Listing, AllVerify, Complete;
    TrimmedKeepsVerified(sha, before, after, 0);
  }

  lemma {:induction false} TrimmedPairIsSafe(sha: Hash, d: Dir, name: string, contents: string, retention: nat,
                                             after: map<string, string>, j: nat)
    requires AllVerify(sha, d.files) && Fresh(d.files, name) && retention >= 1
    requires j <= Excess(|Listing(d.files)| + 1, retention)
    requires Trimmed(Paired(sha, d, name, contents).files, after, j)
    ensures CrashSafe(sha, d.files, name, retention, after) && Listing(after) != []
  {
    hide Listing, AllVerify, Complete, Before, BackupFile, DigestFile, Paired;
    var files2 := Paired(sha, d, name, contents).files;
    PairIsListedLast(sha, d, name, contents);
    PairKeepsVerified(sha, d, name, contents);
    TrimmedKeepsVerified(sha, files2, after, j);
    assert Listing(after) == (Listing(d.files) + [name])[j..];
  }

  /** A failed rename and its clean-up are never seen in the listing. */
  lemma {:induction false} FaultIsUnseen(sha: Hash, d: Dir, name: string, contents: string,
                                         retention: nat, fault: Fault, k: nat)
    requires name !in d.files && fault != NoFault
    requires k <= |PlanUnder(sha, d, name, contents, retention, fault)|
    ensures Trimmed(d.files, DidAll(d, PlanUnder(sha, d, name, contents, retention, fault)[..k]).files, 0)
  {
    hide Trimmed, DigestFile, Plan, Complete, DidAll;
    var ops := PlanUnder(sha, d, name, contents, retention, fault);
    var digest := DigestFile(sha, contents);
    var put, remove := Put(ChecksumName(name), digest), Remove(ChecksumName(name));
    var d1 := Did(d, put);
    LoneChecksumIsUnseen(d.files, name, digest);
    LoneChecksumIsUnseen(d1.files, name, digest);
    TrimmedTransitive(d.files, d1.files, Did(d1, remove).files, 0, 0);
    NotTrimmed(d.files);
    AtMostTwo(d, put, remove);
    AtMostTwo(d, remove, put);
    assert ops == [remove] || ops == [put, remove];
    assert ops[..k] == [] || ops[..k] == [put] || ops[..k] == [remove] || ops[..k] == [put, remove];
  }

  lemma {:induction false} AtMostTwo(d: Dir, a: FileOp, b: FileOp)
    ensures DidAll(d, []) == d && DidAll(d, [a]) == Did(d, a) && DidAll(d, [a, b]) == Did(Did(d, a), b)
  {
    hide Did;
    assert [a, b][1..] == [b] && [b][1..] == [];
    assert DidAll(Did(d, a), [b]) == DidAll(Did(Did(d, a), b), []);
  }

  /** With a repeated timestamp a crash between the renames is safe if and only if the old file has
      the same digest: otherwise the new checksum is paired with the old contents. */
  lemma {:induction false} RepeatedNameIsSafeIff(sha: Hash, d: Dir, name: string, contents: string)
    requires AllVerify(sha, d.files) && BackupFile(name)
    ensures AllVerify(sha, DidAll(d, PairOps(sha, name, contents)[..1]).files)
            <==> (name in d.files ==> sha(d.files[name]) == sha(contents))
  {
    hide BackupFile, Strip, ParsesAsHex, Lower;
    PairSteps(sha, d, name, contents);
    DigestFileReadsBack(sha(contents));
    var files := d.files[ChecksumName(name) := DigestFile(sha, contents)];
    ChecksumNamesDiffer(name);
    assert |ChecksumName(name)| > |name|;
    forall n | n in Complete(files) && n != name ensures Verifies(sha, files, n) {
      ChecksumNamesDiffer(n);
      assert n in Complete(d.files);
      StillVerifies(sha, d.files, files, n);
    }
    assert name in d.files <==> name in Complete(files);
  }
}
