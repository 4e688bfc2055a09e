/** What every operation of the store keeps, relation by relation between the tables, and hence
    what holds of the tables after any sequence of calls. */
module StoreInvariants {
  import opened PyText
  import opened Counting
  import opened StoreTables

  /** A text `str` produces. */
  predicate Canonical(text: string) {
    ParseDec(text) >= 0 && Dec(ParseDec(text)) == text
  }

  // ---- the four ways the tables change ----

  /** What one step does to the tables, without the conditions under which it does it. */
  datatype Change =
    | Nothing
    | Stored(event: string, row: EventRow)
    | Granted(intent: string, incident: string, events: seq<string>)
    | Moves(intent: string, to: IntentRow, detail: string)

  function Changed(db: Db, ch: Change): Db {
    match ch
    case Nothing => db
    case Stored(event, row) => WithEvent(db, event, row)
    case Granted(intent, incident, events) => Reserving(db, intent, incident, events)
    case Moves(intent, to, detail) => Concluded(Moved(db, intent, to, detail), intent, to.status, detail)
  }

  /** A row of an intent that its next transition may have. */
  predicate Follows(from: IntentRow, to: IntentRow, detail: string) {
    match to.status
    case Reserved => false
    case Prepared => from.status == Reserved && to == from.(status := Prepared, nonce := to.nonce, feeData := to.feeData) && to.nonce.Some?
    case Broadcasted => from.status == Prepared && to == from.(status := Broadcasted, txHash := Some(detail))
    case Ended(o) => MayEnd(from, o) && to == from.(status := Ended(o), evidence := Some(detail))
  }

  predicate Possible(db: Db, ch: Change) {
    match ch
    case Nothing => true
    case Stored(event, row) => event !in db.events && Canonical(row.sequence)
    case Granted(intent, incident, events) =>
      && events != [] && Distinct(events) && !Busy(db)
      && intent !in db.intents && incident !in db.incidents
      && forall e | e in events :: e in db.events && e !in db.owners
    case Moves(intent, to, detail) => intent in db.intents && Follows(db.intents[intent], to, detail)
  }

  function ChangeOf(db: Db, c: Call): Change {
    var db' := Step(db, c).db;
    if db' == db then Nothing
    else
      match c
      case Ingest(source, event, sequence, block, payload) =>
        if Accepted(c) then Stored(event, EventRow(source, Dec(sequence), block, payload)) else Nothing
      case Reserve(intent, incident, events) => Granted(intent, incident, events)
      case Prepare(intent, nonce, _) => if intent in db'.intents then Moves(intent, db'.intents[intent], PREPARED_DETAIL) else Nothing
      case Broadcast(intent, txHash) => if intent in db'.intents then Moves(intent, db'.intents[intent], txHash) else Nothing
      case Finish(intent, _, evidence) => if intent in db'.intents then Moves(intent, db'.intents[intent], evidence) else Nothing
      case _ => Nothing
  }

  lemma {:induction false} EveryStepIsAChange(db: Db, c: Call)
    ensures Possible(db, ChangeOf(db, c)) && Step(db, c).db == Changed(db, ChangeOf(db, c))
  {
    match c
    case Ingest(_, _, sequence, _, _) => if sequence >= 0 { DecRoundTrip(sequence); }
    case Reserve(_, _, events) => ScreenClearIff(db, events);
    case _ =>
  }

  // ---- cursors and events ----

  predicate StandsAt(row: EventRow, source: string, c: CursorRow) {
    row.source == source && row.sequence == c.sequence && row.block == c.block
  }

  ghost predicate AtSomeEvent(events: map<string, EventRow>, source: string, c: CursorRow) {
    exists e :: e in events && StandsAt(events[e], source, c)
  }

  ghost predicate NotPast(row: EventRow, cursors: map<string, CursorRow>) {
    row.source in cursors && ParseDec(row.sequence) <= ParseDec(cursors[row.source].sequence)
  }

  /** A source has a cursor exactly when it has an event; the cursor stands at one of the source's
      events and none of them is past it, as numbers. */
  ghost predicate CursorsAgree(events: map<string, EventRow>, cursors: map<string, CursorRow>) {
    && (forall e | e in events :: Canonical(events[e].sequence) && NotPast(events[e], cursors))
    && (forall s | s in cursors :: AtSomeEvent(events, s, cursors[s]))
  }

  lemma StillAtSomeEvent(events: map<string, EventRow>, event: string, row: EventRow, source: string, c: CursorRow)
    requires event !in events
    requires AtSomeEvent(events, source, c) || StandsAt(row, source, c)
    ensures AtSomeEvent(events[event := row], source, c)
  {
    var events' := events[event := row];
    if StandsAt(row, source, c) {
      assert event in events' && StandsAt(events'[event], source, c);
    } else {
      var e :| e in events && StandsAt(events[e], source, c);
      assert e in events' && StandsAt(events'[e], source, c);
    }
  }

  lemma {:induction false} StoringKeepsCursors(
    events: map<string, EventRow>, cursors: map<string, CursorRow>, event: string, row: EventRow)
    requires CursorsAgree(events, cursors) && event !in events && Canonical(row.sequence)
    ensures CursorsAgree(events[event := row], Advanced(cursors, row))
  {
    hide ParseDec, Canonical, AtSomeEvent;
    var events', cursors' := events[event := row], Advanced(cursors, row);
    forall s | s in cursors' ensures AtSomeEvent(events', s, cursors'[s]) {
      StillAtSomeEvent(events, event, row, s, cursors'[s]);
    }
    forall e | e in events' ensures Canonical(events'[e].sequence) && NotPast(events'[e], cursors') {
      assert e != event ==> NotPast(events[e], cursors);
    }
  }

  // ---- ownership of events ----

  ghost function Sizes(incidents: map<string, seq<string>>): map<string, nat> {
    map x | x in incidents :: |incidents[x]|
  }

  function IncidentOf(intents: map<string, IntentRow>): map<string, string> {
    map i | i in intents :: intents[i].incident
  }

  predicate Lists(incidents: map<string, seq<string>>, incident: string, event: string) {
    incident in incidents && event in incidents[incident]
  }

  ghost predicate ListsOwned(owners: map<string, string>, incidentOf: map<string, string>,
                             incidents: map<string, seq<string>>) {
    forall i, e | i in incidentOf ::
      Lists(incidents, incidentOf[i], e) <==> e in owners && owners[e] == i
  }

  /** Owned events are stored events, owners are intents, and intents and incidents are in
      bijection; an incident lists exactly the events its intent owns, each once. */
  ghost predicate Partitioned(known: set<string>, owners: map<string, string>,
                              incidentOf: map<string, string>, incidents: map<string, seq<string>>) {
    && owners.Keys <= known
    && (forall e | e in owners :: owners[e] in incidentOf)
    && (forall i, j | i in incidentOf && j in incidentOf && i != j :: incidentOf[i] != incidentOf[j])
    && incidentOf.Values == incidents.Keys
    && ListsOwned(owners, incidentOf, incidents)
    && (forall x | x in incidents :: incidents[x] != [] && Distinct(incidents[x]))
  }

  /** No event is counted twice. */
  ghost predicate Counted(owners: map<string, string>, incidentOf: map<string, string>,
                          incidents: map<string, seq<string>>) {
    |incidentOf| == |incidents| && Total(Sizes(incidents)) == |owners|
  }

  ghost predicate EventsPartitioned(db: Db) {
    && Partitioned(db.events.Keys, db.owners, IncidentOf(db.intents), db.incidents)
    && Counted(db.owners, IncidentOf(db.intents), db.incidents)
  }

  lemma {:induction false} DistinctSize(s: seq<string>)
    requires Distinct(s)
    ensures |set e | e in s| == |s|
  {
    if s != [] {
      var rest := s[1..];
      DistinctSize(rest);
      assert s == [s[0]] + rest;
      assert s[0] !in rest by {
        forall k | 0 <= k < |rest| ensures rest[k] != s[0] { assert rest[k] == s[k + 1]; }
      }
      assert (set e | e in s) == (set e | e in rest) + {s[0]};
    }
  }

  lemma ValuesWith(m: map<string, string>, key: string, value: string)
    requires key !in m
    ensures m[key := value].Values == m.Values + {value}
  {
    var m' := m[key := value];
    forall x | x in m.Values ensures x in m'.Values {
      var i :| i in m && m[i] == x;
      assert i in m' && m'[i] == x;
    }
    assert key in m';
  }

  lemma {:induction false} GrantKeepsLists(
    known: set<string>, owners: map<string, string>, incidentOf: map<string, string>,
    incidents: map<string, seq<string>>, intent: string, incident: string, events: seq<string>)
    requires Partitioned(known, owners, incidentOf, incidents)
    requires events != [] && Distinct(events) && intent !in incidentOf && incident !in incidents
    requires forall e | e in events :: e in known && e !in owners
    ensures ListsOwned(Owning(owners, events, intent), incidentOf[intent := incident],
                       incidents[incident := events])
  {
    var owners', incidentOf', incidents' :=
      Owning(owners, events, intent), incidentOf[intent := incident], incidents[incident := events];
    forall i, e | i in incidentOf'
      ensures Lists(incidents', incidentOf'[i], e) <==> e in owners' && owners'[e] == i
    {
      if i != intent {
        assert incidentOf[i] in incidents.Keys;
        assert Lists(incidents', incidentOf'[i], e) == Lists(incidents, incidentOf[i], e);
      }
    }
  }

  lemma {:induction false} GrantKeepsPartition(
    known: set<string>, owners: map<string, string>, incidentOf: map<string, string>,
    incidents: map<string, seq<string>>, intent: string, incident: string, events: seq<string>)
    requires Partitioned(known, owners, incidentOf, incidents)
    requires events != [] && Distinct(events) && intent !in incidentOf && incident !in incidents
    requires forall e | e in events :: e in known && e !in owners
    ensures Partitioned(known, Owning(owners, events, intent), incidentOf[intent := incident],
                        incidents[incident := events])
  {
    hide ListsOwned, Distinct;
    ValuesWith(incidentOf, intent, incident);
    GrantKeepsLists(known, owners, incidentOf, incidents, intent, incident, events);
    assert forall i | i in incidentOf :: incidentOf[i] in incidents.Keys;
  }

  lemma {:induction false} GrantKeepsCounts(
    owners: map<string, string>, incidentOf: map<string, string>,
    incidents: map<string, seq<string>>, intent: string, incident: string, events: seq<string>)
    requires Counted(owners, incidentOf, incidents)
    requires Distinct(events) && intent !in incidentOf && incident !in incidents
    requires forall e | e in events :: e !in owners
    ensures Counted(Owning(owners, events, intent), incidentOf[intent := incident],
                    incidents[incident := events])
  {
    hide Total, Sizes, Owning;
    TotalWith(Sizes(incidents), incident, |events|);
    SizesWith(incidents, incident, events);
    OwningSize(owners, events, intent);
  }

  lemma SizesWith(incidents: map<string, seq<string>>, incident: string, events: seq<string>)
    ensures Sizes(incidents[incident := events]) == Sizes(incidents)[incident := |events|]
    ensures incident in Sizes(incidents) <==> incident in incidents
  {
  }

  lemma OwningSize(owners: map<string, string>, events: seq<string>, intent: string)
    requires Distinct(events) && forall e | e in events :: e !in owners
    ensures |Owning(owners, events, intent)| == |owners| + |events|
  {
    var owners' := Owning(owners, events, intent);
    DistinctSize(events);
    assert owners'.Keys == owners.Keys + (set e | e in events);
    assert |owners'.Keys| == |owners.Keys| + |events|;
  }

  lemma KnowingMoreKeepsPartition(known: set<string>, known': set<string>, db: Db)
    requires known <= known' && Partitioned(known, db.owners, IncidentOf(db.intents), db.incidents)
    ensures Partitioned(known', db.owners, IncidentOf(db.intents), db.incidents)
  {
  }

  lemma IncidentsAfterChange(db: Db, ch: Change)
    requires Possible(db, ch)
    ensures ch.Granted? ==> ch.intent !in IncidentOf(db.intents)
    ensures IncidentOf(Changed(db, ch).intents) ==
            if ch.Granted? then IncidentOf(db.intents)[ch.intent := ch.incident] else IncidentOf(db.intents)
  {
    hide ParseDec, Dec, Busy, Canonical;
  }

  lemma {:induction false} ChangeKeepsPartition(db: Db, ch: Change)
    requires EventsPartitioned(db) && Possible(db, ch)
    ensures EventsPartitioned(Changed(db, ch))
  {
    hide ParseDec, Dec, Busy, Canonical, Partitioned, Counted, IncidentOf;
    IncidentsAfterChange(db, ch);
    match ch
    case Granted(intent, incident, events) =>
      var of := IncidentOf(db.intents);
      GrantKeepsPartition(db.events.Keys, db.owners, of, db.incidents, intent, incident, events);
      GrantKeepsCounts(db.owners, of, db.incidents, intent, incident, events);
    case Stored(event, _) =>
      assert Changed(db, ch).events.Keys == db.events.Keys + {event};
      KnowingMoreKeepsPartition(db.events.Keys, db.events.Keys + {event}, db);
    case _ =>
  }

  // ---- the life of one intent ----

  /** The status fixes which columns are set. */
  predicate WellFormed(row: IntentRow) {
    match row.status
    case Reserved => row.nonce.None? && row.txHash.None? && row.evidence.None?
    case Prepared => row.nonce.Some? && row.txHash.None? && row.evidence.None?
    case Broadcasted => row.nonce.Some? && row.txHash.Some? && row.evidence.None?
    case Ended(o) =>
      && row.evidence.Some?
      && (Receipt(o) ==> row.nonce.Some? && row.txHash.Some?)
      && (o == AlreadyDesired ==> row.nonce.None? && row.txHash.None?)
      && (row.txHash.Some? ==> row.nonce.Some?)
  }

  /** At most one intent is unfinished, and a doubtful one has set the latch. */
  ghost predicate OneAtATime(db: Db) {
    && (forall i | i in db.intents :: WellFormed(db.intents[i]))
    && (forall i, j | i in db.intents && j in db.intents
                      && Unfinished(db.intents[i].status) && Unfinished(db.intents[j].status) :: i == j)
    && (forall i | i in db.intents && db.intents[i].status == Ended(Indeterminate) :: db.latch.Some?)
  }

  lemma MoveKeepsWellFormed(from: IntentRow, to: IntentRow, detail: string)
    requires WellFormed(from) && Follows(from, to, detail)
    ensures WellFormed(to) && Unfinished(from.status)
  {
  }

  lemma {:induction false} ChangeKeepsLifecycle(db: Db, ch: Change)
    requires OneAtATime(db) && Possible(db, ch)
    ensures OneAtATime(Changed(db, ch))
  {
    hide ParseDec, Dec, Canonical, WellFormed, Follows;
    if ch.Moves? {
      MoveKeepsWellFormed(db.intents[ch.intent], ch.to, ch.detail);
    }
    if ch.Granted? {
      assert WellFormed(Changed(db, ch).intents[ch.intent]) by { ReservedIsWellFormed(ch.incident); }
    }
  }

  lemma ReservedIsWellFormed(incident: string)
    ensures WellFormed(IntentRow(incident, Reserved, None, None, None, None))
  {
  }

  // ---- the audit log as a complete history ----

  /** What the log tells about an intent. */
  datatype Story = Story(status: Status, hasNonce: bool, txHash: Option<string>, evidence: Option<string>)

  datatype Tale = Tale(stories: map<string, Story>, latch: Option<string>, outbox: seq<OutboxRow>)

  function Continue(t: Tale, row: AuditRow): Tale {
    var s := if row.intent in t.stories then t.stories[row.intent] else Story(Reserved, false, None, None);
    match row.transition
    case Reserved => t.(stories := t.stories[row.intent := Story(Reserved, false, None, None)])
    case Prepared => t.(stories := t.stories[row.intent := s.(status := Prepared, hasNonce := true)])
    case Broadcasted =>
      t.(stories := t.stories[row.intent := s.(status := Broadcasted, txHash := Some(row.detail))])
    case Ended(o) =>
      Tale(t.stories[row.intent := s.(status := Ended(o), evidence := Some(row.detail))],
           if o == Indeterminate then Some(row.detail) else t.latch,
           t.outbox + [OutboxRow(row.intent, o)])
  }

  /** Replay the audit rows from nothing. */
  function Replay(audit: seq<AuditRow>): Tale {
    if audit == [] then Tale(map[], None, [])
    else Continue(Replay(audit[..|audit| - 1]), audit[|audit| - 1])
  }

  function Summary(row: IntentRow): Story {
    Story(row.status, row.nonce.Some?, row.txHash, row.evidence)
  }

  function Told(db: Db): Tale {
    Tale(Stories(db.intents), db.latch, db.outbox)
  }

  function Stories(intents: map<string, IntentRow>): map<string, Story> {
    map i | i in intents :: Summary(intents[i])
  }

  lemma StoriesWith(intents: map<string, IntentRow>, intent: string, row: IntentRow)
    ensures Stories(intents[intent := row]) == Stories(intents)[intent := Summary(row)]
    ensures intent in intents ==> intent in Stories(intents) && Stories(intents)[intent] == Summary(intents[intent])
  {
  }

  lemma {:induction false} ReplayNext(audit: seq<AuditRow>, row: AuditRow)
    ensures Replay(audit + [row]) == Continue(Replay(audit), row)
  {
    assert (audit + [row])[..|audit|] == audit;
  }

  lemma StoryAfterMove(from: IntentRow, to: IntentRow, detail: string, t: Tale, intent: string)
    requires Follows(from, to, detail) && WellFormed(from)
    requires intent in t.stories && t.stories[intent] == Summary(from)
    ensures Continue(t, AuditRow(intent, to.status, detail)).stories == t.stories[intent := Summary(to)]
  {
  }

  /** The audit row a change appends. */
  function RowOf(ch: Change): AuditRow
    requires ch.Granted? || ch.Moves?
  {
    if ch.Granted? then AuditRow(ch.intent, Reserved, RESERVED_DETAIL)
    else AuditRow(ch.intent, ch.to.status, ch.detail)
  }

  lemma {:induction false} RowTellsChange(db: Db, ch: Change)
    requires OneAtATime(db) && Possible(db, ch) && (ch.Granted? || ch.Moves?)
    ensures Changed(db, ch).audit == db.audit + [RowOf(ch)]
    ensures Told(Changed(db, ch)) == Continue(Told(db), RowOf(ch))
  {
    hide ParseDec, Dec, Busy, Canonical, Follows, Stories, WellFormed;
    if ch.Moves? {
      MoveTells(db, ch);
    } else {
      StoriesWith(db.intents, ch.intent, Changed(db, ch).intents[ch.intent]);
    }
  }

  lemma {:induction false} MoveTells(db: Db, ch: Change)
    requires OneAtATime(db) && Possible(db, ch) && ch.Moves?
    ensures Told(Changed(db, ch)) == Continue(Told(db), RowOf(ch))
  {
    hide ParseDec, Dec, Busy, Canonical, Follows, Stories, WellFormed;
    StoriesWith(db.intents, ch.intent, ch.to);
    StoryAfterMove(db.intents[ch.intent], ch.to, ch.detail, Told(db), ch.intent);
    MovesOn(db.intents[ch.intent], ch.to, ch.detail);
  }

  lemma MovesOn(from: IntentRow, to: IntentRow, detail: string)
    requires Follows(from, to, detail)
    ensures to.status != Reserved && to.incident == from.incident
  {
  }

  lemma {:induction false} ChangeKeepsHistory(db: Db, ch: Change)
    requires OneAtATime(db) && Possible(db, ch) && Replay(db.audit) == Told(db)
    ensures Replay(Changed(db, ch).audit) == Told(Changed(db, ch))
  {
    hide ParseDec, Dec, Busy, Canonical, Replay, Continue, OneAtATime;
    if ch.Granted? || ch.Moves? {
      RowTellsChange(db, ch);
      ReplayNext(db.audit, RowOf(ch));
    }
  }

  /** The outcome rows of the log, in order. */
  function OutcomeRows(audit: seq<AuditRow>): seq<OutboxRow> {
    if audit == [] then []
    else
      var row := audit[|audit| - 1];
      OutcomeRows(audit[..|audit| - 1]) +
      (if row.transition.Ended? then [OutboxRow(row.intent, row.transition.outcome)] else [])
  }

  lemma {:induction false} ReplayedOutboxIsProjection(audit: seq<AuditRow>)
    ensures Replay(audit).outbox == OutcomeRows(audit)
  {
    if audit != [] {
      ReplayedOutboxIsProjection(audit[..|audit| - 1]);
    }
  }

  // ---- the audit rows of one intent follow one automaton ----

  datatype Node = Unborn | Held | Ready | Sent | Doubt(hashed: bool) | Closed(outcome: Outcome) | Stuck

  function Advance(n: Node, t: Status): Node {
    match (n, t)
    case (Unborn, Reserved) => Held
    case (Held, Prepared) => Ready
    case (Held, Ended(AlreadyDesired)) => Closed(AlreadyDesired)
    case (Ready, Broadcasted) => Sent
    case (Sent, Ended(Success)) => Closed(Success)
    case (Sent, Ended(Reverted)) => Closed(Reverted)
    case (Held, Ended(Indeterminate)) => Doubt(false)
    case (Ready, Ended(Indeterminate)) => Doubt(false)
    case (Sent, Ended(Indeterminate)) => Doubt(true)
    case (Doubt(hashed), Ended(Indeterminate)) => Doubt(hashed)
    case (Doubt(true), Ended(Success)) => Closed(Success)
    case (Doubt(true), Ended(Reverted)) => Closed(Reverted)
    case _ => Stuck
  }

  /** Where the rows of `intent` lead. */
  function Walk(audit: seq<AuditRow>, intent: string): Node {
    if audit == [] then Unborn
    else
      var before := Walk(audit[..|audit| - 1], intent);
      var row := audit[|audit| - 1];
      if row.intent == intent then Advance(before, row.transition) else before
  }

  function NodeOf(row: IntentRow): Node {
    match row.status
    case Reserved => Held
    case Prepared => Ready
    case Broadcasted => Sent
    case Ended(o) => if o == Indeterminate then Doubt(row.txHash.Some?) else Closed(o)
  }

  function Place(db: Db, intent: string): Node {
    if intent in db.intents then NodeOf(db.intents[intent]) else Unborn
  }

  lemma NodeAfterMove(from: IntentRow, to: IntentRow, detail: string)
    requires WellFormed(from) && Follows(from, to, detail)
    ensures NodeOf(to) == Advance(NodeOf(from), to.status)
  {
  }

  lemma WalkNext(audit: seq<AuditRow>, row: AuditRow, intent: string)
    ensures Walk(audit + [row], intent) ==
            if row.intent == intent then Advance(Walk(audit, intent), row.transition) else Walk(audit, intent)
  {
    assert (audit + [row])[..|audit|] == audit;
  }

  lemma {:induction false} ChangeKeepsWalk(db: Db, ch: Change, intent: string)
    requires OneAtATime(db) && Possible(db, ch) && Walk(db.audit, intent) == Place(db, intent)
    ensures Walk(Changed(db, ch).audit, intent) == Place(Changed(db, ch), intent)
  {
    hide ParseDec, Dec, Busy, Canonical, Walk, Continue, Follows, NodeOf, Advance;
    if ch.Granted? || ch.Moves? {
      RowTellsChange(db, ch);
      WalkNext(db.audit, RowOf(ch), intent);
    }
    if ch.Moves? {
      NodeAfterMove(db.intents[ch.intent], ch.to, ch.detail);
    }
    NodeOfReserved();
  }

  lemma NodeOfReserved()
    ensures Advance(Unborn, Reserved) == Held
    ensures forall r: IntentRow | r.status == Reserved :: NodeOf(r) == Held
  {
  }

  // ---- all of it together ----

  ghost predicate Consistent(db: Db) {
    && CursorsAgree(db.events, db.cursors)
    && EventsPartitioned(db)
    && OneAtATime(db)
    && Replay(db.audit) == Told(db)
    && (forall i :: Walk(db.audit, i) == Place(db, i))
  }

  lemma {:induction false} ChangeKeepsConsistent(db: Db, ch: Change)
    requires Consistent(db) && Possible(db, ch)
    ensures Consistent(Changed(db, ch))
  {
    hide ParseDec, Dec, Busy, Canonical, Replay, Walk, CursorsAgree, EventsPartitioned, OneAtATime;
    if ch.Stored? {
      StoringKeepsCursors(db.events, db.cursors, ch.event, ch.row);
    }
    ChangeKeepsPartition(db, ch);
    ChangeKeepsLifecycle(db, ch);
    ChangeKeepsHistory(db, ch);
    forall i ensures Walk(Changed(db, ch).audit, i) == Place(Changed(db, ch), i) {
      ChangeKeepsWalk(db, ch, i);
    }
  }

  lemma {:induction false} RunKeepsConsistent(db: Db, calls: seq<Call>)
    requires Consistent(db)
    ensures Consistent(Run(db, calls))
  {
    if calls != [] {
      var before, c := Run(db, calls[..|calls| - 1]), calls[|calls| - 1];
      RunKeepsConsistent(db, calls[..|calls| - 1]);
      EveryStepIsAChange(before, c);
      ChangeKeepsConsistent(before, ChangeOf(before, c));
    }
  }
}
