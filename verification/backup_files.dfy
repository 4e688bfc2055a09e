/** Single files of the backup directory: which checksum files a backup verifies against, and what
    failed and interrupted backups leave lying about. */
module BackupFiles {
  import opened PyText
  import opened Backups

  // ---- what verifies ----

  predicate Blank(s: string) {
    forall i | 0 <= i < |s| :: Space(s[i])
  }

  /** The digest with letters of either case. */
  predicate SpellsDigest(s: string, digest: string) {
    && |s| == |digest|
    && forall i | 0 <= i < |s| ::
         s[i] == digest[i] || ('a' <= digest[i] <= 'f' && s[i] as int + 32 == digest[i] as int)
  }

  /** The text is the digest between white space. */
  predicate Spells(text: string, before: string, s: string, after: string, digest: string) {
    text == before + s + after && Blank(before) && Blank(after) && SpellsDigest(s, digest)
  }

  lemma {:induction false} StripSplits(s: string) returns (before: string, after: string)
    ensures s == before + Strip(s) + after && Blank(before) && Blank(after)
  {
    before, after := "", "";
    if s != [] && Space(s[0]) {
      before, after := StripSplits(s[1..]);
      assert s == [s[0]] + s[1..];
      before := [s[0]] + before;
    } else if s != [] && Space(s[|s| - 1]) {
      before, after := StripSplits(s[..|s| - 1]);
      assert s == s[..|s| - 1] + [s[|s| - 1]];
      after := after + [s[|s| - 1]];
    }
  }

  lemma {:induction false} StripUndoes(before: string, s: string, after: string)
    requires Blank(before) && Blank(after) && s != [] && !Space(s[0]) && !Space(s[|s| - 1])
    ensures Strip(before + s + after) == s
    decreases |before| + |after|
  {
    var text := before + s + after;
    if before != [] {
      assert text[0] == before[0] && text[1..] == before[1..] + s + after;
      StripUndoes(before[1..], s, after);
    } else if after != [] {
      assert text[0] == s[0];
      assert text[|text| - 1] == after[|after| - 1] && text[..|text| - 1] == before + s + after[..|after| - 1];
      StripUndoes(before, s, after[..|after| - 1]);
    } else {
      assert text == s;
    }
  }

  lemma LowerSpells(s: string, digest: string)
    requires IsDigest(digest)
    ensures Lower(s) == digest <==> SpellsDigest(s, digest)
  {
    if Lower(s) == digest {
      forall i | 0 <= i < |s|
        ensures s[i] == digest[i] || ('a' <= digest[i] <= 'f' && s[i] as int + 32 == digest[i] as int)
      {
        assert Lower(s)[i] == LowerChar(s[i]);
      }
    }
  }

  lemma SpelledIsHex(s: string, digest: string)
    requires IsDigest(digest) && SpellsDigest(s, digest)
    ensures |s| == 64 && (forall i | 0 <= i < |s| :: HexDigit(s[i])) && ParsesAsHex(s) && Strip(s) == s
  {
    hide Strip, ParsesAsHex;
    forall i | 0 <= i < |s| ensures HexDigit(s[i]) && LetterOrDigit(s[i]) {}
    assert HexDigit(s[0]) && HexDigit(s[1]) && HexDigit(s[|s| - 1]);
    PlainTextParsesIff(s);
    assert "" + s + "" == s;
    StripUndoes("", s, "");
  }

  lemma SpelledIsAscii(text: string, before: string, s: string, after: string, digest: string)
    requires IsDigest(digest) && Spells(text, before, s, after, digest)
    ensures Ascii(text)
  {
    hide ParsesAsHex, Strip;
    SpelledIsHex(s, digest);
    forall i | 0 <= i < |text| ensures text[i] as int < 128 {
      assert text[i] == if i < |before| then before[i] else if i < |before| + |s| then s[i - |before|]
                        else after[i - |before| - |s|];
    }
  }

  lemma SpelledIsRead(text: string, before: string, s: string, after: string, digest: string)
    requires IsDigest(digest) && Spells(text, before, s, after, digest)
    ensures Ascii(text) && Strip(text) == s && |s| == 64 && ParsesAsHex(s) && digest == Lower(s)
  {
    hide ParsesAsHex, Strip, Lower, SpellsDigest;
    SpelledIsHex(s, digest);
    SpelledIsAscii(text, before, s, after, digest);
    assert HexDigit(s[0]) && HexDigit(s[|s| - 1]);
    StripUndoes(before, s, after);
    LowerSpells(s, digest);
  }

  /** A backup verifies if and only if it has a checksum file that holds the digest of its bytes, in
      either case and between any white space: the tests of length and of hexadecimal digits refuse
      nothing else. */
  lemma {:induction false} VerifiesIff(sha: Hash, files: map<string, string>, n: string)
    ensures Verifies(sha, files, n) <==>
            && n in files && ChecksumName(n) in files
            && exists before, s, after :: Spells(files[ChecksumName(n)], before, s, after, sha(files[n]))
  {
    hide ParsesAsHex, Strip, Lower, SpellsDigest, ChecksumName, Ascii, Blank;
    if n in files && ChecksumName(n) in files {
      var text, digest := files[ChecksumName(n)], sha(files[n]);
      LowerSpells(Strip(text), digest);
      if Verifies(sha, files, n) {
        var before, after := StripSplits(text);
        assert Spells(text, before, Strip(text), after, digest);
      }
      if before, s, after :| Spells(text, before, s, after, digest) {
        SpelledIsRead(text, before, s, after, digest);
      }
    }
  }

  // ---- what failed renames leave ----

  /** What a failed rename and its clean-up leave. */
  lemma {:induction false} FailedRenameLeaves(sha: Hash, d: Dir, name: string, contents: string, retention: nat,
                                              fault: Fault)
    requires fault != NoFault
    ensures DidAll(d, PlanUnder(sha, d, name, contents, retention, fault)) ==
            d.(files := if name !in d.files then d.files - {ChecksumName(name)}
                        else if fault == ChecksumRenameRaises then d.files
                        else d.files[ChecksumName(name) := DigestFile(sha, contents)])
  {
    hide Plan, Did, DidAll, Listing;
    var put, remove := Put(ChecksumName(name), DigestFile(sha, contents)), Remove(ChecksumName(name));
    AtMostTwo(d, put, remove);
    AtMostTwo(d, remove, put);
    PutThenRemoved(d, ChecksumName(name), DigestFile(sha, contents));
    var ops := PlanUnder(sha, d, name, contents, retention, fault);
    assert ops == if name in d.files then (if fault == ChecksumRenameRaises then [] else [put])
                  else if fault == ChecksumRenameRaises then [remove] else [put, remove];
  }

  lemma PutThenRemoved(d: Dir, name: string, contents: string)
    ensures Did(d, Put(name, contents)) == d.(files := d.files[name := contents])
    ensures Did(d, Remove(name)) == d.(files := d.files - {name})
    ensures Did(Did(d, Put(name, contents)), Remove(name)) == d.(files := d.files - {name})
  {
    assert d.files[name := contents] - {name} == d.files - {name};
  }

  lemma RemovedIff<K, V>(m: map<K, V>, k: K)
    ensures m - {k} == m <==> k !in m
  {
    assert k !in m - {k};
  }

  lemma PutIff<K, V>(m: map<K, V>, k: K, v: V)
    ensures m[k := v] == m <==> k in m && m[k] == v
  {
    assert k in m[k := v] && m[k := v][k] == v;
  }

  /** A failed rename leaves the directory as it was if and only if a name not in use had no checksum
      file, or a name in use was met by the failure of the first rename, or by that of the second
      with the checksum unchanged. */
  lemma {:induction false} FailedRenameIsUndoneIff(sha: Hash, d: Dir, name: string, contents: string, retention: nat,
                                                   fault: Fault)
    requires fault != NoFault
    ensures DidAll(d, PlanUnder(sha, d, name, contents, retention, fault)) == d <==>
            if name !in d.files then ChecksumName(name) !in d.files
            else
              || fault == ChecksumRenameRaises
              || (ChecksumName(name) in d.files && d.files[ChecksumName(name)] == DigestFile(sha, contents))
  {
    hide PlanUnder, DigestFile, DidAll, ChecksumName;
    FailedRenameLeaves(sha, d, name, contents, retention, fault);
    RemovedIff(d.files, ChecksumName(name));
    PutIff(d.files, ChecksumName(name), DigestFile(sha, contents));
  }

  // ---- no checksum without its backup ----

  /** Every checksum file accompanies a backup, but for the one of `except`. */
  ghost predicate Accompanied(files: map<string, string>, except: Option<string>) {
    forall n | BackupFile(n) && ChecksumName(n) in files && except != Some(n) :: n in files
  }

  lemma {:induction false} RemovalsLeaveNoOrphan(d: Dir, n: string)
    requires Accompanied(d.files, None)
    ensures Accompanied(d.files - {ChecksumName(n)}, None)
    ensures Accompanied(d.files - {ChecksumName(n)} - {n}, None)
  {
    hide BackupFile;
    forall m | BackupFile(m) ensures m != ChecksumName(n) && (ChecksumName(m) == ChecksumName(n) ==> m == n) {
      ChecksumNamesDiffer(n);
    }
  }

  /** Pruning removes a checksum before its backup, so that at no time one is left without it. */
  lemma {:induction false} PruningLeavesNoOrphan(d: Dir, names: seq<string>, k: nat)
    requires Accompanied(d.files, None) && k <= |Prunes(names)|
    ensures Accompanied(DidAll(d, Prunes(names)[..k]).files, None)
    decreases |names|
  {
    hide Accompanied, Did;
    var ops := Prunes(names);
    if k == 0 {
      assert ops[..k] == [];
    } else {
      RemovalsLeaveNoOrphan(d, names[0]);
      TwoRemovals(d, names[0], if k == 1 then [] else Prunes(names[1..])[..k - 2]);
      if k == 1 {
        assert ops[..k] == [Remove(ChecksumName(names[0]))];
      } else {
        assert ops[..k] == [Remove(ChecksumName(names[0])), Remove(names[0])] + Prunes(names[1..])[..k - 2];
        PruningLeavesNoOrphan(d.(files := d.files - {ChecksumName(names[0])} - {names[0]}), names[1..], k - 2);
      }
    }
  }

  lemma PairLeavesNoOrphan(files: map<string, string>, name: string, digest: string, contents: string)
    requires Accompanied(files, None) && BackupFile(name)
    ensures Accompanied(files[ChecksumName(name) := digest], Some(name))
    ensures Accompanied(files[ChecksumName(name) := digest][name := contents], None)
  {
    hide BackupFile;
    ChecksumNamesDiffer(name);
    forall n ensures ChecksumName(n) != name { ChecksumNamesDiffer(n); }
  }

  /** At whatever point a backup is stopped, the only checksum without its backup can be the new one,
      and only between the two renames. */
  lemma {:induction false} OnlyTheNewChecksumIsAlone(sha: Hash, d: Dir, name: string, contents: string, retention: nat,
                                                     k: nat)
    requires Accompanied(d.files, None) && BackupFile(name) && k <= |Plan(sha, d, name, contents, retention)|
    ensures Accompanied(DidAll(d, Plan(sha, d, name, contents, retention)[..k]).files, if k == 1 then Some(name) else None)
  {
    hide Accompanied, DidAll, Listing, DigestFile, ManifestOf;
    var pair := PairOps(sha, name, contents);
    var oldest := Oldest(Listing(DidAll(d, pair).files), retention);
    PairSteps(sha, d, name, contents);
    PairLeavesNoOrphan(d.files, name, DigestFile(sha, contents), contents);
    PrefixOfThree(d, pair, Prunes(oldest), WriteManifest, k);
    assert pair[..2] == pair && DidAll(d, pair[..0]) == d by { AtMostTwo(d, WriteManifest, WriteManifest); }
    if k > 2 {
      var j := if k - 2 <= |Prunes(oldest)| then k - 2 else |Prunes(oldest)|;
      PruningLeavesNoOrphan(Paired(sha, d, name, contents), oldest, j);
      assert Prunes(oldest)[..|Prunes(oldest)|] == Prunes(oldest);
    }
  }
}
