/** What the answer to a recovery attempt means, in terms of the directory and of the course of the
    two polling loops. */
module RecoveryAnswers {
  import opened PyText
  import opened Throttle
  import opened Scheduling
  import opened Backups
  import opened BackupRuns
  import opened Recovery

  /** The backup a restore takes: complete, and later than all other complete ones. */
  predicate IsNewest(files: map<string, string>, n: string) {
    n in Complete(files) && forall m | m in Complete(files) :: m == n || Before(m, n)
  }

  lemma {:induction false} NewestIsLast(files: map<string, string>, n: string)
    ensures var l := Listing(files);
            IsNewest(files, n) <==> l != [] && l[|l| - 1] == n
    ensures Listing(files) == [] <==> Complete(files) == {}
  {
    hide Listing, Before, BackupFile;
    var l := Listing(files);
    ListingProperties(files);
    if l != [] {
      var last := l[|l| - 1];
      assert last in l;
      forall m | m in Complete(files) ensures m == last || Before(m, last) {
        var i :| 0 <= i < |l| && l[i] == m;
      }
      if IsNewest(files, n) {
        BeforeTotal(n, last);
      }
    } else {
      assert forall m :: m !in Complete(files);
    }
  }

  /** The newest backup can be put back. */
  predicate Mends(sha: Hash, files: map<string, string>, o: Outside, n: string) {
    !o.listingFails && !o.restoreFails && IsNewest(files, n) && Verifies(sha, files, n)
  }

  ghost predicate CanMend(sha: Hash, files: map<string, string>, o: Outside) {
    exists n :: Mends(sha, files, o, n)
  }

  /** With a bad configuration the newest backup is put back exactly if it can be. */
  lemma {:induction false} RestorationIs(sha: Hash, files: map<string, string>, configValid: bool, o: Outside)
    ensures var r := Restoration(sha, files, configValid, o);
            if configValid then r == NotNeeded
            else if o.listingFails then r == ListingFailed
            else if Complete(files) == {} then r == NoBackup
            else if CanMend(sha, files, o) then
              r.Restored? && forall n | Mends(sha, files, o, n) :: n in files && r.contents == files[n]
            else r == RestoreFailed
  {
    hide Listing, Before, BackupFile, Verifies, Complete, IsNewest;
    var l := Listing(files);
    var last := if l == [] then "" else l[|l| - 1];
    NewestIsLast(files, last);
    forall n | Mends(sha, files, o, n) ensures l != [] && n == last { NewestIsLast(files, n); }
    MendingNeedsABackup(sha, files, o);
    assert CanMend(sha, files, o) <==> l != [] && Mends(sha, files, o, last);
  }

  /** After this time waiting for the container comes to this answer. */
  ghost predicate ContainerComes(wait: nat, o: Outside, answer: bool) {
    Comes(o.container, 500_000, o.containerClock + wait, o.containerClock, answer)
  }

  ghost predicate HealthComes(wait: nat, o: Outside, answer: bool) {
    Comes(o.health, 500_000, o.healthClock + wait, o.healthClock, answer)
  }

  /** The configuration was good, or a good one was put back. */
  ghost predicate Usable(sha: Hash, files: map<string, string>, configValid: bool, o: Outside) {
    configValid || CanMend(sha, files, o)
  }

  /** A recovery succeeds if and only if the attempt was started, the configuration was valid or
      restored, neither call to Docker raised, and both the container and then its health came up
      before their deadlines. */
  lemma {:induction false} RecoverySucceedsIff(
    sha: Hash, l: Limits, wait: nat, s: State, files: map<string, string>, config: Option<string>, now: int,
    configValid: bool, o: Outside)
    ensures Attempted(sha, l, wait, s, files, config, now, configValid, o).result.success <==>
            && Decide(l, s, now).1 == Started
            && Usable(sha, files, configValid, o)
            && !o.restartRaises && !o.waitRaises
            && ContainerComes(wait, o, true) && HealthComes(wait, o, true)
  {
    hide Restoration, Complete, CanMend, Polled, Decide, Comes, Reaches, Mends, ContainerComes, HealthComes;
    RestorationIs(sha, files, configValid, o);
    MendingNeedsABackup(sha, files, o);
    WorldsAnswer(wait, o);
  }

  lemma WorldsAnswer(wait: nat, o: Outside)
    ensures Reaches(o.container, o.containerClock, wait) <==> ContainerComes(wait, o, true)
    ensures Reaches(o.container, o.containerClock, wait) <==> !ContainerComes(wait, o, false)
    ensures Reaches(o.health, o.healthClock, wait) <==> HealthComes(wait, o, true)
    ensures Reaches(o.health, o.healthClock, wait) <==> !HealthComes(wait, o, false)
  {
    hide Polled, Comes;
    AnswerIff(o.container, POLL, o.containerClock, wait, true);
    AnswerIff(o.container, POLL, o.containerClock, wait, false);
    AnswerIff(o.health, POLL, o.healthClock, wait, true);
    AnswerIff(o.health, POLL, o.healthClock, wait, false);
  }

  /** Every answer has its reason, and the configuration and the container are touched exactly when
      the attempt got that far. */
  lemma {:induction false} AttemptIsAnswered(
    sha: Hash, l: Limits, wait: nat, s: State, files: map<string, string>, config: Option<string>, now: int,
    configValid: bool, o: Outside)
    ensures var a, v := Attempted(sha, l, wait, s, files, config, now, configValid, o), Decide(l, s, now).1;
            && a.result.reason ==
               (if v == Refused || v == Latched then "manual_intervention_required"
                else if v == Deferred then "cooldown_active"
                else if !configValid && o.listingFails then "restore_failed"
                else if !configValid && Complete(files) == {} then "backup_not_found"
                else if !Usable(sha, files, configValid, o) then "restore_failed"
                else if o.restartRaises || o.waitRaises then "docker_operation_failed"
                else if ContainerComes(wait, o, false) then "container_not_running"
                else if HealthComes(wait, o, false) then "post_recovery_health_failed"
                else "ok")
            && (a.restart <==> v == Started && Usable(sha, files, configValid, o))
            && (a.result.restored <==> v == Started && !configValid && CanMend(sha, files, o))
            && (a.result.restored ==> forall n | Mends(sha, files, o, n) :: n in files && a.config == Some(files[n]))
            && (!a.result.restored ==> a.config == config)
            && a.state == Decide(l, s, now).0
  {
    hide Restoration, Complete, CanMend, Polled, Decide, Comes, Mends, Reaches, ContainerComes, HealthComes;
    RestorationIs(sha, files, configValid, o);
    MendingNeedsABackup(sha, files, o);
    WorldsAnswer(wait, o);
  }

  lemma MendingNeedsABackup(sha: Hash, files: map<string, string>, o: Outside)
    ensures CanMend(sha, files, o) ==> !o.listingFails && Complete(files) != {}
    ensures forall n | Mends(sha, files, o, n) :: CanMend(sha, files, o) && n in files
  {
    hide BackupFile, Verifies, Before;
  }
}
