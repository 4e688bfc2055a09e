/** What holds of the store over whole runs of calls. */
module StoreTheorems {
  import opened PyText
  import opened Counting
  import opened StoreTables
  import opened StoreInvariants

  lemma EmptyIsConsistent()
    ensures Consistent(EMPTY)
  {
    assert Stories(EMPTY.intents) == map[];
    assert IncidentOf(EMPTY.intents) == map[];
    assert Sizes(EMPTY.incidents) == map[];
  }

  lemma ReachableIsConsistent(calls: seq<Call>)
    ensures Consistent(Run(EMPTY, calls))
  {
    EmptyIsConsistent();
    RunKeepsConsistent(EMPTY, calls);
  }

  // ---- the log is a complete history ----

  /** The detail of the last indeterminate row. */
  function LastDoubt(audit: seq<AuditRow>): Option<string> {
    if audit == [] then None
    else if audit[|audit| - 1].transition == Ended(Indeterminate) then Some(audit[|audit| - 1].detail)
    else LastDoubt(audit[..|audit| - 1])
  }

  lemma {:induction false} ReplayedLatchIsLastDoubt(audit: seq<AuditRow>)
    ensures Replay(audit).latch == LastDoubt(audit)
  {
    if audit != [] {
      ReplayedLatchIsLastDoubt(audit[..|audit| - 1]);
    }
  }

  /** Replaying the log yields every intent's status, hash, evidence and whether its nonce is set,
      and nothing else; the latch and the outbox are read off the log. */
  lemma AuditIsCompleteHistory(calls: seq<Call>)
    ensures var db := Run(EMPTY, calls); var told := Replay(db.audit).stories;
            && told.Keys == db.intents.Keys
            && (forall i | i in db.intents ::
                  && told[i].status == db.intents[i].status
                  && told[i].txHash == db.intents[i].txHash
                  && told[i].evidence == db.intents[i].evidence
                  && told[i].hasNonce == db.intents[i].nonce.Some?)
            && db.latch == LastDoubt(db.audit)
            && db.outbox == OutcomeRows(db.audit)
  {
    var db := Run(EMPTY, calls);
    ReachableIsConsistent(calls);
    ReplayedLatchIsLastDoubt(db.audit);
    ReplayedOutboxIsProjection(db.audit);
  }

  // ---- ownership ----

  /** Intents and incidents correspond one to one. */
  ghost predicate OneIncidentEach(intents: map<string, IntentRow>, incidents: map<string, seq<string>>) {
    && (forall i | i in intents :: intents[i].incident in incidents)
    && (forall i, j | i in intents && j in intents && intents[i].incident == intents[j].incident :: i == j)
    && (forall x | x in incidents :: exists i :: i in intents && intents[i].incident == x)
  }

  /** An incident lists exactly the events that its intent owns. */
  ghost predicate ListsWhatIsOwned(db: Db) {
    && (forall e | e in db.owners :: e in db.events && db.owners[e] in db.intents)
    && (forall i, e | i in db.intents ::
          Lists(db.incidents, db.intents[i].incident, e) <==> e in db.owners && db.owners[e] == i)
  }

  /** Every intent has an incident of its own, which lists exactly the events the intent owns; the
      lists together have as many entries as there are owned events. */
  lemma OwnershipIsAPartition(calls: seq<Call>)
    ensures var db := Run(EMPTY, calls);
            && OneIncidentEach(db.intents, db.incidents)
            && ListsWhatIsOwned(db)
            && Total(Sizes(db.incidents)) == |db.owners|
            && |db.intents| <= |db.owners| <= |db.events|
  {
    hide Run, Total, Sizes, OneIncidentEach, ListsWhatIsOwned;
    var db := Run(EMPTY, calls);
    assert EventsPartitioned(db) by { ReachableIsConsistent(calls); }
    IncidentsCorrespond(db);
    OwnedIsListed(db);
    NoMoreIntentsThanEvents(db);
  }

  lemma {:induction false} IncidentsCorrespond(db: Db)
    requires EventsPartitioned(db)
    ensures OneIncidentEach(db.intents, db.incidents)
  {
    hide Total, Counted;
    var of := IncidentOf(db.intents);
    forall i | i in db.intents ensures db.intents[i].incident in db.incidents {
      assert i in of && of[i] in of.Values;
    }
    forall i, j | i in db.intents && j in db.intents && db.intents[i].incident == db.intents[j].incident
      ensures i == j
    {
      assert of[i] == of[j];
    }
    forall x | x in db.incidents
      ensures exists i :: i in db.intents && db.intents[i].incident == x
    {
      assert x in of.Values;
      var i :| i in of && of[i] == x;
      assert db.intents[i].incident == x;
    }
  }

  lemma {:induction false} OwnedIsListed(db: Db)
    requires EventsPartitioned(db)
    ensures ListsWhatIsOwned(db)
  {
    hide Total, Counted, Lists;
    var of := IncidentOf(db.intents);
    forall i, e | i in db.intents
      ensures Lists(db.incidents, db.intents[i].incident, e) <==> e in db.owners && db.owners[e] == i
    {
      assert i in of && of[i] == db.intents[i].incident;
    }
  }

  lemma {:induction false} NoMoreIntentsThanEvents(db: Db)
    requires EventsPartitioned(db)
    ensures Total(Sizes(db.incidents)) == |db.owners| && |db.intents| <= |db.owners| <= |db.events|
  {
    hide Total, Distinct;
    TotalBoundsSize(Sizes(db.incidents));
    assert Sizes(db.incidents).Keys == db.incidents.Keys;
    assert IncidentOf(db.intents).Keys == db.intents.Keys;
    assert |Sizes(db.incidents).Keys| == |db.incidents.Keys|;
    Subset(db.owners.Keys, db.events.Keys);
  }

  lemma {:induction false} Subset(a: set<string>, b: set<string>)
    requires a <= b
    ensures |a| <= |b|
  {
    if a != {} {
      var x :| x in a;
      Subset(a - {x}, b - {x});
    }
  }

  // ---- what later states keep of earlier ones ----

  /** Columns written once, and rows at rest. */
  predicate RowKept(a: IntentRow, b: IntentRow) {
    && b.incident == a.incident
    && (a.nonce.Some? ==> b.nonce == a.nonce)
    && (a.txHash.Some? ==> b.txHash == a.txHash)
    && (a.status.Ended? && a.status.outcome != Indeterminate ==> b == a)
    && (a.status == Ended(Indeterminate) && a.txHash.None? ==> b.status == a.status && b.txHash.None?)
  }

  ghost predicate CursorsNeverGoBack(a: map<string, CursorRow>, b: map<string, CursorRow>) {
    forall s | s in a :: s in b && ParseDec(a[s].sequence) <= ParseDec(b[s].sequence)
  }

  ghost predicate Extends(a: Db, b: Db) {
    && a.audit <= b.audit
    && a.outbox <= b.outbox
    && (forall e | e in a.events :: e in b.events && b.events[e] == a.events[e])
    && (forall e | e in a.owners :: e in b.owners && b.owners[e] == a.owners[e])
    && (forall x | x in a.incidents :: x in b.incidents && b.incidents[x] == a.incidents[x])
    && (forall i | i in a.intents :: i in b.intents && RowKept(a.intents[i], b.intents[i]))
    && CursorsNeverGoBack(a.cursors, b.cursors)
    && (a.latch.Some? ==> b.latch.Some?)
  }

  lemma FollowingKeepsRow(from: IntentRow, to: IntentRow, detail: string)
    requires WellFormed(from) && Follows(from, to, detail)
    ensures RowKept(from, to)
  {
  }

  lemma {:induction false} ChangeExtends(db: Db, ch: Change)
    requires OneAtATime(db) && Possible(db, ch)
    ensures Extends(db, Changed(db, ch))
  {
    hide ParseDec, Dec, Canonical, WellFormed, Follows, Busy, RowKept, CursorsNeverGoBack, Advanced;
    RowKeptReflexive();
    AdvancedNeverGoesBack(db.cursors, if ch.Stored? then ch.row else EventRow("", "", 0, ""));
    if ch.Moves? {
      FollowingKeepsRow(db.intents[ch.intent], ch.to, ch.detail);
    }
  }

  lemma AdvancedNeverGoesBack(cursors: map<string, CursorRow>, row: EventRow)
    ensures CursorsNeverGoBack(cursors, Advanced(cursors, row)) && CursorsNeverGoBack(cursors, cursors)
  {
    hide ParseDec;
  }

  lemma RowKeptReflexive()
    ensures forall row :: RowKept(row, row)
  {
  }

  lemma RowKeptTransitive(a: IntentRow, b: IntentRow, c: IntentRow)
    requires RowKept(a, b) && RowKept(b, c)
    ensures RowKept(a, c)
  {
  }

  lemma {:induction false} ExtendsTransitive(a: Db, b: Db, c: Db)
    requires Extends(a, b) && Extends(b, c)
    ensures Extends(a, c)
  {
    hide ParseDec, RowKept;
    forall i | i in a.intents ensures i in c.intents && RowKept(a.intents[i], c.intents[i]) {
      RowKeptTransitive(a.intents[i], b.intents[i], c.intents[i]);
    }
  }

  /** Over any run: the audit log and the outbox only grow, events, owners and incidents stay,
      nonce and hash never change once set, a settled intent never changes again, cursors never go
      back, and the latch stays. */
  lemma {:induction false} RunExtends(db: Db, calls: seq<Call>)
    requires Consistent(db)
    ensures Extends(db, Run(db, calls))
  {
    if calls == [] {
      RowKeptReflexive();
    } else {
      var before, c := Run(db, calls[..|calls| - 1]), calls[|calls| - 1];
      RunExtends(db, calls[..|calls| - 1]);
      RunKeepsConsistent(db, calls[..|calls| - 1]);
      EveryStepIsAChange(before, c);
      ChangeExtends(before, ChangeOf(before, c));
      ExtendsTransitive(db, before, Run(db, calls));
    }
  }

  // ---- the life of an intent ----

  /** At most one intent is unfinished; the rows of each intent are a path of one automaton that
      ends where the intent stands; the status fixes which columns are set. */
  lemma IntentLifecycle(calls: seq<Call>)
    ensures var db := Run(EMPTY, calls);
            && (forall i, j | i in db.intents && j in db.intents
                              && Unfinished(db.intents[i].status) && Unfinished(db.intents[j].status) :: i == j)
            && (forall i :: Walk(db.audit, i) != Stuck)
            && (forall i :: Walk(db.audit, i) == if i in db.intents then NodeOf(db.intents[i]) else Unborn)
            && (forall i | i in db.intents :: WellFormed(db.intents[i]))
  {
    var db := Run(EMPTY, calls);
    ReachableIsConsistent(calls);
    forall i
      ensures Walk(db.audit, i) == (if i in db.intents then NodeOf(db.intents[i]) else Unborn)
      ensures Walk(db.audit, i) != Stuck
    {
      assert Walk(db.audit, i) == Place(db, i);
    }
  }

  // ---- the latch ----

  /** Once the latch is set, no later reservation is granted. */
  lemma LatchIsPermanent(db: Db, calls: seq<Call>, intent: string, incident: string, events: seq<string>)
    requires Consistent(db) && db.latch.Some?
    ensures Step(Run(db, calls), Reserve(intent, incident, events)).reply != Flag(true)
  {
    RunExtends(db, calls);
    ReserveGrantedIff(Run(db, calls), intent, incident, events);
  }

  /** An intent in doubt without a hash stays so for ever. */
  lemma DoubtWithoutHashIsForever(db: Db, calls: seq<Call>, intent: string)
    requires Consistent(db) && intent in db.intents
    requires db.intents[intent].status == Ended(Indeterminate) && db.intents[intent].txHash.None?
    ensures var later := Run(db, calls);
            && intent in later.intents && later.intents[intent].status == Ended(Indeterminate)
            && later.intents[intent].txHash.None? && later.latch.Some?
            && Busy(later)
  {
    RunExtends(db, calls);
  }

  /** In any run an event is granted to a reservation at most once. */
  lemma {:induction false} EventGrantedOnce(db: Db, first: Call, between: seq<Call>, second: Call, event: string)
    requires Consistent(db) && first.Reserve? && second.Reserve?
    requires event in first.events && event in second.events
    requires Step(db, first).reply == Flag(true)
    ensures Step(Run(Step(db, first).db, between), second).reply != Flag(true)
  {
    var granted := Step(db, first).db;
    EveryStepIsAChange(db, first);
    ChangeKeepsConsistent(db, ChangeOf(db, first));
    GrantOwns(db, first, event);
    RunExtends(granted, between);
    ReserveGrantedIff(Run(granted, between), second.intent, second.incident, second.events);
  }

  lemma GrantOwns(db: Db, c: Call, event: string)
    requires c.Reserve? && event in c.events && Step(db, c).reply == Flag(true)
    ensures event in Step(db, c).db.owners
  {
  }

  // ---- progress while unlatched ----

  function ZeroHash(): string {
    "0x" + seq(64, _ => '0')
  }

  lemma ZeroHashIsValid()
    ensures ValidHash(ZeroHash())
  {
    var zeros := seq(64, _ => '0');
    assert ZeroHash()[..2] == "0x" && ZeroHash()[2..] == zeros;
    assert Strip(zeros) == zeros;
    assert HexRun(zeros);
  }

  /** Calls that settle an unfinished intent whatever its state, without a doubt. */
  function Settling(s: Status, intent: string): seq<Call> {
    match s
    case Reserved => [Finish(intent, "already_desired", "verified")]
    case Prepared => [Broadcast(intent, ZeroHash()), Finish(intent, "success", "verified")]
    case _ => [Finish(intent, "success", "verified")]
  }

  lemma RunOne(db: Db, c: Call)
    ensures Run(db, [c]) == Step(db, c).db
  {
    assert [c][..0] == [];
  }

  /** From any unlatched state the unfinished intent can be settled by at most two calls without
      latching, after which new events can be reserved under new identifiers. */
  lemma UnlatchedProgress(db: Db, intent: string, next: string, incident: string, events: seq<string>)
    requires Consistent(db) && db.latch.None?
    requires intent in db.intents && Unfinished(db.intents[intent].status)
    requires next != "" && incident != "" && next !in db.intents && incident !in db.incidents
    requires events != [] && Distinct(events) && forall e | e in events :: e in db.events && e !in db.owners
    ensures var calls := Settling(db.intents[intent].status, intent);
            && |calls| <= 2
            && Run(db, calls).latch.None?
            && intent in Run(db, calls).intents && !Unfinished(Run(db, calls).intents[intent].status)
            && Step(Run(db, calls), Reserve(next, incident, events)).reply == Flag(true)
  {
    ZeroHashIsValid();
    var s := db.intents[intent].status;
    var calls := Settling(s, intent);
    var mid := if s == Prepared then Step(db, calls[0]).db else db;
    var end := Step(mid, calls[|calls| - 1]).db;
    RunOne(db, calls[0]);
    assert Run(db, calls) == end by {
      assert calls[..|calls| - 1] == if s == Prepared then [calls[0]] else [];
    }
    SettledBy(db, intent, calls[0]);
    if s == Prepared {
      assert mid.intents[intent].status == Broadcasted && mid.intents[intent].txHash.Some?;
      SettledBy(mid, intent, calls[1]);
    }
    ReserveGrantedIff(end, next, incident, events);
  }

  lemma SettledBy(db: Db, intent: string, c: Call)
    requires OneAtATime(db) && db.latch.None? && intent in db.intents
    requires Unfinished(db.intents[intent].status)
    requires match db.intents[intent].status
             case Reserved => c == Finish(intent, "already_desired", "verified")
             case Prepared => c == Broadcast(intent, ZeroHash()) && ValidHash(ZeroHash())
             case _ => c == Finish(intent, "success", "verified")
    ensures var db' := Step(db, c).db;
            && db'.intents.Keys == db.intents.Keys && db'.latch.None? && OneAtATime(db')
            && db'.incidents == db.incidents && db'.events == db.events && db'.owners == db.owners
            && (if db.intents[intent].status == Prepared
                then db'.intents[intent].status == Broadcasted
                else forall i | i in db'.intents :: !Unfinished(db'.intents[i].status))
  {
    EveryStepIsAChange(db, c);
    ChangeKeepsLifecycle(db, ChangeOf(db, c));
  }
}
