/** Many processes use one database file.  Each operation is a transaction of single SQL statements
    on a working copy; statements of different processes interleave, readers see committed state
    only, and a crash or a storage error may strike between any two statements.  Proved: what is
    committed and what callers are told is always what the completed operations give when they are
    run one at a time, in the order of their commits. */
module StoreProcesses {
  import opened PyText
  import opened StoreTables

  // ---- one transaction, statement by statement ----

  /** The statement a transaction executes next; `Over` when its body has ended. */
  datatype Point =
    | Opened
    | InsertEvent | SelectCursor | UpsertCursor
    | SelectUnfinished | SelectIntent | SelectOwner(k: nat) | SelectEvent(k: nat)
    | InsertIncident | InsertIntent | InsertOwner(k: nat) | InsertReserved
    | InsertPrepared
    | InsertBroadcast
    | UpdateOutcome | UpsertLatch | InsertOutcome | InsertOutbox
    | Over(reply: Reply)

  predicate Writes(c: Call) {
    Accepted(c) && !Reads(c)
  }

  function Executed(c: Call, p: Point, db: Db): (Point, Db)
    requires Writes(c)
  {
    match (c, p)
    case (Ingest(source, event, sequence, block, payload), Opened) =>
      if event !in db.events then (InsertEvent, db)
      else if db.events[event] == EventRow(source, Dec(sequence), block, payload) then (Over(Flag(false)), db)
      else (Over(Raised(ValueError)), db)
    case (Ingest(source, event, sequence, block, payload), InsertEvent) =>
      (SelectCursor, db.(events := db.events[event := EventRow(source, Dec(sequence), block, payload)]))
    case (Ingest(source, _, sequence, _, _), SelectCursor) =>
      if source !in db.cursors || sequence > ParseDec(db.cursors[source].sequence) then (UpsertCursor, db)
      else (Over(Flag(true)), db)
    case (Ingest(source, _, sequence, block, _), UpsertCursor) =>
      (Over(Flag(true)), db.(cursors := db.cursors[source := CursorRow(Dec(sequence), block)]))

    case (Reserve(_, _, _), Opened) =>
      if db.latch.Some? then (Over(Flag(false)), db) else (SelectUnfinished, db)
    case (Reserve(_, _, _), SelectUnfinished) =>
      if exists i | i in db.intents :: Unfinished(db.intents[i].status) then (Over(Flag(false)), db)
      else (SelectIntent, db)
    case (Reserve(intent, _, _), SelectIntent) =>
      if intent in db.intents then (Over(Flag(false)), db) else (SelectOwner(0), db)
    case (Reserve(_, _, events), SelectOwner(k)) =>
      if k >= |events| then (InsertIncident, db)
      else if events[k] in db.owners then (Over(Flag(false)), db)
      else (SelectEvent(k), db)
    case (Reserve(_, _, events), SelectEvent(k)) =>
      if k < |events| && events[k] !in db.events then (Over(Raised(ValueError)), db)
      else (SelectOwner(k + 1), db)
    case (Reserve(_, incident, events), InsertIncident) =>
      if incident in db.incidents then (Over(Raised(IntegrityError)), db)
      else (InsertIntent, db.(incidents := db.incidents[incident := events]))
    case (Reserve(intent, incident, _), InsertIntent) =>
      (InsertOwner(0),
       db.(intents := db.intents[intent := IntentRow(incident, Reserved, None, None, None, None)]))
    case (Reserve(intent, _, events), InsertOwner(k)) =>
      if k >= |events| then (InsertReserved, db)
      else if events[k] in db.owners then (Over(Raised(IntegrityError)), db)
      else (InsertOwner(k + 1), db.(owners := db.owners[events[k] := intent]))
    case (Reserve(intent, _, _), InsertReserved) =>
      (Over(Flag(true)), db.(audit := db.audit + [AuditRow(intent, Reserved, RESERVED_DETAIL)]))

    case (Prepare(intent, nonce, feeData), Opened) =>
      if !HasStatus(db, intent, Reserved) then (Over(Raised(ValueError)), db)
      else
        (InsertPrepared,
         db.(intents := db.intents[intent := db.intents[intent].(status := Prepared, nonce := Some(nonce),
                                                                 feeData := Some(feeData))]))
    case (Prepare(intent, _, _), InsertPrepared) =>
      (Over(Done), db.(audit := db.audit + [AuditRow(intent, Prepared, PREPARED_DETAIL)]))

    case (Broadcast(intent, txHash), Opened) =>
      if !HasStatus(db, intent, Prepared) then (Over(Raised(ValueError)), db)
      else
        (InsertBroadcast,
         db.(intents := db.intents[intent := db.intents[intent].(status := Broadcasted, txHash := Some(txHash))]))
    case (Broadcast(intent, txHash), InsertBroadcast) =>
      (Over(Done), db.(audit := db.audit + [AuditRow(intent, Broadcasted, txHash)]))

    case (Finish(intent, outcome, _), Opened) =>
      if intent !in db.intents || !MayEnd(db.intents[intent], ParseOutcome(outcome).value)
      then (Over(Raised(ValueError)), db)
      else (UpdateOutcome, db)
    case (Finish(intent, outcome, evidence), UpdateOutcome) =>
      var o := ParseOutcome(outcome).value;
      (if o == Indeterminate then UpsertLatch else InsertOutcome,
       if intent !in db.intents then db
       else db.(intents := db.intents[intent := db.intents[intent].(status := Ended(o),
                                                                    evidence := Some(evidence))]))
    case (Finish(_, _, evidence), UpsertLatch) => (InsertOutcome, db.(latch := Some(evidence)))
    case (Finish(intent, outcome, evidence), InsertOutcome) =>
      (InsertOutbox, db.(audit := db.audit + [AuditRow(intent, Ended(ParseOutcome(outcome).value), evidence)]))
    case (Finish(intent, outcome, _), InsertOutbox) =>
      (Over(Done), db.(outbox := db.outbox + [OutboxRow(intent, ParseOutcome(outcome).value)]))

    case (_, Over(_)) => (p, db)
    case _ => (Over(Done), db)
  }

  /** A bound on the statements still to come. */
  function Left(c: Call, p: Point): nat {
    var n := if c.Reserve? then |c.events| else 0;
    match p
    case Opened => 4 * n + 13
    case SelectUnfinished => 4 * n + 12
    case SelectIntent => 4 * n + 11
    case SelectOwner(k) => if k <= n then 4 * n + 10 - 2 * k else 2 * n + 9
    case SelectEvent(k) => if k < n then 4 * n + 9 - 2 * k else 2 * n + 10
    case InsertIncident => n + 5
    case InsertIntent => n + 4
    case InsertOwner(k) => if k <= n then n + 3 - k else 3
    case InsertReserved => 1
    case UpdateOutcome => 4
    case UpsertLatch => 3
    case InsertEvent => 3
    case SelectCursor => 2
    case InsertOutcome => 2
    case Over(_) => 0
    case _ => 1
  }

  lemma ReservingRunsOut(c: Call, p: Point, db: Db)
    requires Writes(c) && c.Reserve? && !p.Over?
    ensures Left(c, Executed(c, p, db).0) < Left(c, p)
  {
    hide Distinct, Unfinished;
  }

  lemma StatementsRunOut(c: Call, p: Point, db: Db)
    requires Writes(c) && !p.Over?
    ensures Left(c, Executed(c, p, db).0) < Left(c, p)
  {
    hide ParseDec, Dec, ParseOutcome, MayEnd, HasStatus, Unfinished;
    if c.Reserve? { ReservingRunsOut(c, p, db); }
  }

  /** The transaction run to its end from here, with nobody else in between. */
  function Rest(c: Call, p: Point, db: Db): Effect
    requires Writes(c)
    decreases Left(c, p)
  {
    if p.Over? then Effect(db, p.reply)
    else
      StatementsRunOut(c, p, db);
      var (next, db') := Executed(c, p, db);
      Rest(c, next, db')
  }

  /** What is left in the file: an exception rolls everything back. */
  function Settled(committed: Db, e: Effect): Effect {
    if e.reply.Raised? then Effect(committed, e.reply) else e
  }

  lemma {:induction false} RestNext(c: Call, p: Point, db: Db)
    requires Writes(c) && !p.Over?
    ensures var (next, db') := Executed(c, p, db);
            Rest(c, p, db) == if next.Over? then Effect(db', next.reply) else Rest(c, next, db')
  {
    hide Executed;
  }

  lemma {:induction false} ScreeningStatements(c: Call, k: nat, db: Db)
    requires Writes(c) && c.Reserve? && k <= |c.events|
    ensures Rest(c, SelectOwner(k), db) ==
            match Screen(db, c.events[k..])
            case Owned => Effect(db, Flag(false))
            case Unknown => Effect(db, Raised(ValueError))
            case Clear => Rest(c, InsertIncident, db)
    decreases |c.events| - k
  {
    hide Rest;
    RestNext(c, SelectOwner(k), db);
    if k < |c.events| {
      assert c.events[k..][1..] == c.events[k + 1..];
      RestNext(c, SelectEvent(k), db);
      ScreeningStatements(c, k + 1, db);
    }
  }

  lemma {:induction false} OwnerStatements(c: Call, k: nat, db: Db)
    requires Writes(c) && c.Reserve? && k <= |c.events|
    requires forall j | k <= j < |c.events| :: c.events[j] !in db.owners
    ensures Rest(c, InsertOwner(k), db) ==
            Rest(c, InsertReserved, db.(owners := Owning(db.owners, c.events[k..], c.intent)))
    decreases |c.events| - k
  {
    hide Rest, Owning;
    RestNext(c, InsertOwner(k), db);
    OwningFirst(db.owners, c.events, k, c.intent);
    if k < |c.events| {
      OwnerStatements(c, k + 1, db.(owners := db.owners[c.events[k] := c.intent]));
    }
  }

  lemma OwningFirst(owners: map<string, string>, events: seq<string>, k: nat, intent: string)
    requires k <= |events|
    ensures k == |events| ==> Owning(owners, events[k..], intent) == owners
    ensures k < |events| ==>
              Owning(owners, events[k..], intent) == Owning(owners[events[k] := intent], events[k + 1..], intent)
  {
    if k < |events| {
      assert events[k..] == [events[k]] + events[k + 1..];
    }
  }

  lemma {:induction false} ReserveStatements(c: Call, db: Db)
    requires Writes(c) && c.Reserve?
    ensures Settled(db, Rest(c, Opened, db)) == Step(db, c)
  {
    hide Rest, Owning, Screen;
    RestNext(c, Opened, db);
    RestNext(c, SelectUnfinished, db);
    RestNext(c, SelectIntent, db);
    ScreeningStatements(c, 0, db);
    assert c.events[0..] == c.events;
    RestNext(c, InsertIncident, db);
    if Screen(db, c.events) == Clear && c.incident !in db.incidents {
      InsertStatements(c, db);
    }
  }

  lemma {:induction false} InsertStatements(c: Call, db: Db)
    requires Writes(c) && c.Reserve? && Screen(db, c.events) == Clear && c.incident !in db.incidents
    ensures Rest(c, InsertIncident, db) == Effect(Reserving(db, c.intent, c.incident, c.events), Flag(true))
  {
    hide Rest, Owning;
    var db1 := db.(incidents := db.incidents[c.incident := c.events]);
    var db2 := db1.(intents := db1.intents[c.intent := IntentRow(c.incident, Reserved, None, None, None, None)]);
    var db3 := db2.(owners := Owning(db2.owners, c.events, c.intent));
    ScreenClearIff(db, c.events);
    RestNext(c, InsertIncident, db);
    RestNext(c, InsertIntent, db1);
    assert c.events[0..] == c.events;
    OwnerStatements(c, 0, db2);
    RestNext(c, InsertReserved, db3);
  }

  lemma {:induction false} IngestStatements(c: Call, db: Db)
    requires Writes(c) && c.Ingest?
    ensures Settled(db, Rest(c, Opened, db)) == Step(db, c)
  {
    hide Rest, Dec, ParseDec;
    DecRoundTrip(c.sequence);
    var row := EventRow(c.source, Dec(c.sequence), c.block, c.payload);
    var db1 := db.(events := db.events[c.event := row]);
    RestNext(c, Opened, db);
    RestNext(c, InsertEvent, db);
    RestNext(c, SelectCursor, db1);
    RestNext(c, UpsertCursor, db1);
  }

  lemma {:induction false} MoveStatements(c: Call, db: Db)
    requires Writes(c) && (c.Prepare? || c.Broadcast?)
    ensures Settled(db, Rest(c, Opened, db)) == Step(db, c)
  {
    hide Rest;
    var (next, db1) := Executed(c, Opened, db);
    RestNext(c, Opened, db);
    if !next.Over? {
      RestNext(c, next, db1);
    }
  }

  lemma {:induction false} FinishStatements(c: Call, db: Db)
    requires Writes(c) && c.Finish?
    ensures Settled(db, Rest(c, Opened, db)) == Step(db, c)
  {
    hide Rest, ParseOutcome, MayEnd;
    RestNext(c, Opened, db);
    if Executed(c, Opened, db).0 == UpdateOutcome {
      RestNext(c, UpdateOutcome, db);
      var db1 := Executed(c, UpdateOutcome, db).1;
      RestNext(c, UpsertLatch, db1);
      OutcomeStatements(c, db1);
      OutcomeStatements(c, db1.(latch := Some(c.evidence)));
    }
  }

  lemma {:induction false} OutcomeStatements(c: Call, db: Db)
    requires Writes(c) && c.Finish?
    ensures var o := ParseOutcome(c.outcome).value;
            Rest(c, InsertOutcome, db) ==
            Effect(db.(audit := db.audit + [AuditRow(c.intent, Ended(o), c.evidence)],
                       outbox := db.outbox + [OutboxRow(c.intent, o)]), Done)
  {
    hide Rest, ParseOutcome;
    RestNext(c, InsertOutcome, db);
    RestNext(c, InsertOutbox, Executed(c, InsertOutcome, db).1);
  }

  /** Undisturbed, the statements of a transaction do what the atomic step does. */
  lemma {:induction false} StatementsAddUp(c: Call, db: Db)
    requires Writes(c)
    ensures Settled(db, Rest(c, Opened, db)) == Step(db, c)
  {
    match c
    case Ingest(_, _, _, _, _) => IngestStatements(c, db);
    case Reserve(_, _, _) => ReserveStatements(c, db);
    case Prepare(_, _, _) => MoveStatements(c, db);
    case Broadcast(_, _) => MoveStatements(c, db);
    case Finish(_, _, _) => FinishStatements(c, db);
  }

  // ---- many processes ----

  /** A process is idle, waiting to start a call, inside its transaction, or about to return an
      answer; `since` is the length of the log when the call was made. */
  datatype Process =
    | Idle
    | Waiting(call: Call, since: nat)
    | Inside(call: Call, since: nat, point: Point, work: Db)
    | Answering(call: Call, since: nat, reply: Reply, index: nat)

  datatype Entry = Entry(call: Call, reply: Reply)

  /** A value handed back to a caller, with its place in the log. */
  datatype Return = Return(index: nat, since: nat, entry: Entry)

  /** The file, the processes, the holder of the write lock, and for the record the completed calls
      in the order of completion and the values returned. */
  datatype System = System(
    committed: Db, processes: map<nat, Process>, lock: Option<nat>, log: seq<Entry>, returned: seq<Return>)

  datatype Action =
    | Invoke(process: nat, call: Call)
    | Open(process: nat)
    | Execute(process: nat)
    | Close(process: nat)
    | Fail(process: nat)
    | Crash(process: nat)
    | Answer(process: nat)

  const START := System(EMPTY, map[], None, [], [])

  function Now(s: System, p: nat): Process {
    if p in s.processes then s.processes[p] else Idle
  }

  function Becomes(s: System, p: nat, q: Process): System {
    s.(processes := s.processes[p := q])
  }

  /** The call completes: it gets its place in the log. */
  function Completed(s: System, p: nat, reply: Reply): System
    requires Now(s, p).Waiting? || Now(s, p).Inside?
  {
    var q := Now(s, p);
    Becomes(s, p, Answering(q.call, q.since, reply, |s.log|)).(log := s.log + [Entry(q.call, reply)])
  }

  /** The process stops with nothing done; a held lock is released by the database. */
  function Dropped(s: System, p: nat): System {
    Becomes(s, p, Idle).(lock := if Now(s, p).Inside? then None else s.lock)
  }

  /** One action; an action that is not possible does nothing. */
  function After(s: System, a: Action): System {
    var p := a.process;
    match (a, Now(s, p))
    case (Invoke(_, c), Idle) => Becomes(s, p, Waiting(c, |s.log|))
    case (Open(_), Waiting(c, since)) =>
      if !Accepted(c) then Completed(s, p, Raised(ValueError))
      else if Reads(c) then Completed(s, p, StoreTables.Answer(s.committed, c))
      else if s.lock.None? then Becomes(s, p, Inside(c, since, Opened, s.committed)).(lock := Some(p))
      else s
    case (Execute(_), Inside(c, since, point, work)) =>
      if Writes(c) then
        var (next, work') := Executed(c, point, work);
        Becomes(s, p, Inside(c, since, next, work'))
      else s
    case (Close(_), Inside(c, _, point, work)) =>
      if !point.Over? then s
      else
        Completed(s, p, point.reply).(
          committed := if point.reply.Raised? then s.committed else work, lock := None)
    case (Fail(_), Waiting(_, _)) => Dropped(s, p)
    case (Fail(_), Inside(_, _, _, _)) => Dropped(s, p)
    case (Crash(_), _) => Dropped(s, p)
    case (Answer(_), Answering(c, since, reply, index)) =>
      Becomes(s, p, Idle).(returned := s.returned + [Return(index, since, Entry(c, reply))])
    case _ => s
  }

  function History(s: System, actions: seq<Action>): System {
    if actions == [] then s else After(History(s, actions[..|actions| - 1]), actions[|actions| - 1])
  }

  // ---- the file and the answers are those of the completed calls, one at a time ----

  function Calls(log: seq<Entry>): seq<Call> {
    seq(|log|, i requires 0 <= i < |log| => log[i].call)
  }

  /** Running the logged calls one at a time gives the logged replies. */
  ghost predicate Explained(log: seq<Entry>) {
    forall k | 0 <= k < |log| :: Step(Run(EMPTY, Calls(log[..k])), log[k].call).reply == log[k].reply
  }

  /** A transaction under way would, left alone, do to the file what its call does in one step. */
  predicate OnTrack(committed: Db, q: Process) {
    q.Inside? ==> Writes(q.call) && Settled(committed, Rest(q.call, q.point, q.work)) == Step(committed, q.call)
  }

  predicate Placed(log: seq<Entry>, index: nat, since: nat, e: Entry) {
    since <= index < |log| && log[index] == e
  }

  ghost predicate Bookkeeping(s: System) {
    && (forall p | p in s.processes :: s.processes[p].Inside? <==> s.lock == Some(p))
    && (s.lock.Some? ==> s.lock.value in s.processes)
    && (forall p | p in s.processes && (s.processes[p].Waiting? || s.processes[p].Inside?) ::
          s.processes[p].since <= |s.log|)
  }

  ghost predicate ReturnsPlaced(s: System) {
    && (forall p | p in s.processes && s.processes[p].Answering? ::
          Placed(s.log, s.processes[p].index, s.processes[p].since, Entry(s.processes[p].call, s.processes[p].reply)))
    && (forall r | r in s.returned :: Placed(s.log, r.index, r.since, r.entry))
  }

  ghost predicate ReturnsDistinct(s: System) {
    && (forall p, q | p in s.processes && q in s.processes && p != q
                      && s.processes[p].Answering? && s.processes[q].Answering? ::
          s.processes[p].index != s.processes[q].index)
    && (forall p, r | p in s.processes && s.processes[p].Answering? && r in s.returned ::
          s.processes[p].index != r.index)
    && (forall i, j | 0 <= i < j < |s.returned| :: s.returned[i].index != s.returned[j].index)
  }

  ghost predicate Sound(s: System) {
    && s.committed == Run(EMPTY, Calls(s.log))
    && Explained(s.log)
    && (forall p | p in s.processes :: OnTrack(s.committed, s.processes[p]))
    && Bookkeeping(s)
    && ReturnsPlaced(s)
    && ReturnsDistinct(s)
  }

  lemma {:induction false} LogNext(log: seq<Entry>, e: Entry)
    requires Explained(log) && e.reply == Step(Run(EMPTY, Calls(log)), e.call).reply
    ensures Explained(log + [e])
    ensures Run(EMPTY, Calls(log + [e])) == Step(Run(EMPTY, Calls(log)), e.call).db
  {
    hide Step;
    var log' := log + [e];
    assert log'[..|log|] == log;
    assert Calls(log')[..|log|] == Calls(log);
    forall k | 0 <= k < |log'|
      ensures Step(Run(EMPTY, Calls(log'[..k])), log'[k].call).reply == log'[k].reply
    {
      if k < |log| {
        assert log'[..k] == log[..k];
      }
    }
  }

  /** Completing a call keeps the books in order. */
  lemma {:induction false} CompletionKeepsBooks(s: System, p: nat, reply: Reply, db: Db)
    requires Bookkeeping(s) && ReturnsPlaced(s) && ReturnsDistinct(s)
    requires Now(s, p).Waiting? || Now(s, p).Inside?
    ensures var s' := Completed(s, p, reply).(committed := db, lock := if Now(s, p).Inside? then None else s.lock);
            Bookkeeping(s') && ReturnsPlaced(s') && ReturnsDistinct(s')
  {
  }

  /** The step that completes a call carries out exactly that call. */
  lemma {:induction false} CompletionIsStep(s: System, p: nat, reply: Reply, db: Db)
    requires Sound(s) && (Now(s, p).Waiting? || Now(s, p).Inside?)
    requires Step(s.committed, Now(s, p).call) == Effect(db, reply)
    requires Now(s, p).Waiting? ==> db == s.committed
    ensures Sound(Completed(s, p, reply).(committed := db, lock := if Now(s, p).Inside? then None else s.lock))
  {
    hide Step, Run, Rest, Explained, ReturnsPlaced, ReturnsDistinct;
    LogNext(s.log, Entry(Now(s, p).call, reply));
    CompletionKeepsBooks(s, p, reply, db);
  }

  /** A process that is not answering moves on without completing anything. */
  lemma {:induction false} MoveKeepsBooks(s: System, p: nat, q: Process, lock: Option<nat>)
    requires Bookkeeping(s) && ReturnsPlaced(s) && ReturnsDistinct(s)
    requires !q.Answering? && ((q.Waiting? || q.Inside?) ==> q.since <= |s.log|)
    requires q.Inside? <==> lock == Some(p)
    requires lock == s.lock || (lock == None && s.lock == Some(p)) || (s.lock == None && lock == Some(p))
    ensures var s' := Becomes(s, p, q).(lock := lock);
            Bookkeeping(s') && ReturnsPlaced(s') && ReturnsDistinct(s')
  {
  }

  lemma {:induction false} AnswerKeepsBooks(s: System, p: nat)
    requires Bookkeeping(s) && ReturnsPlaced(s) && ReturnsDistinct(s) && Now(s, p).Answering?
    ensures var s' := After(s, Answer(p));
            Bookkeeping(s') && ReturnsPlaced(s') && ReturnsDistinct(s')
  {
  }

  lemma {:induction false} MoveKeepsSound(s: System, p: nat, q: Process, lock: Option<nat>)
    requires Sound(s) && OnTrack(s.committed, q)
    requires !q.Answering? && ((q.Waiting? || q.Inside?) ==> q.since <= |s.log|)
    requires q.Inside? <==> lock == Some(p)
    requires lock == s.lock || (lock == None && s.lock == Some(p)) || (s.lock == None && lock == Some(p))
    ensures Sound(Becomes(s, p, q).(lock := lock))
  {
    hide Step, Run, Rest, Explained, ReturnsPlaced, ReturnsDistinct, OnTrack, Bookkeeping;
    MoveKeepsBooks(s, p, q, lock);
  }

  /** A transaction that has just begun, or has executed one more statement, is on track. */
  lemma {:induction false} StatementsKeepTrack(committed: Db, c: Call, p: Point, work: Db)
    requires Writes(c)
    ensures Settled(committed, Rest(c, Opened, committed)) == Step(committed, c)
    ensures Rest(c, Executed(c, p, work).0, Executed(c, p, work).1) == Rest(c, p, work)
  {
    hide Step;
    StatementsAddUp(c, committed);
    if !p.Over? {
      RestNext(c, p, work);
    }
  }

  lemma {:induction false} OpenKeepsSound(s: System, p: nat)
    requires Sound(s)
    ensures Sound(After(s, Open(p)))
  {
    hide Step, Run, Rest, Explained, ReturnsPlaced, ReturnsDistinct, Executed;
    if Now(s, p).Waiting? {
      var c := Now(s, p).call;
      if !Writes(c) {
        var reply := if Accepted(c) then StoreTables.Answer(s.committed, c) else Raised(ValueError);
        assert Step(s.committed, c) == Effect(s.committed, reply) by { OneStepAnswers(s.committed, c); }
        CompletionIsStep(s, p, reply, s.committed);
      } else if s.lock.None? {
        StatementsKeepTrack(s.committed, c, Opened, s.committed);
        MoveKeepsSound(s, p, Inside(c, Now(s, p).since, Opened, s.committed), Some(p));
      }
    }
  }

  lemma OneStepAnswers(db: Db, c: Call)
    requires !Writes(c)
    ensures Step(db, c) == Effect(db, if Accepted(c) then StoreTables.Answer(db, c) else Raised(ValueError))
  {
  }

  lemma {:induction false} CloseKeepsSound(s: System, p: nat)
    requires Sound(s)
    ensures Sound(After(s, Close(p)))
  {
    hide Step, Run, Explained, ReturnsPlaced, ReturnsDistinct, Executed;
    if Now(s, p).Inside? && Now(s, p).point.Over? {
      var Inside(c, _, point, work) := Now(s, p);
      assert OnTrack(s.committed, s.processes[p]);
      var db := if point.reply.Raised? then s.committed else work;
      assert Step(s.committed, c) == Effect(db, point.reply);
      CompletionIsStep(s, p, point.reply, db);
    }
  }

  lemma {:induction false} ActionKeepsSound(s: System, a: Action)
    requires Sound(s)
    ensures Sound(After(s, a))
  {
    hide Step, Run, Rest, Explained, ReturnsPlaced, ReturnsDistinct, Executed;
    var p := a.process;
    match a
    case Invoke(_, c) =>
      if Now(s, p).Idle? { MoveKeepsSound(s, p, Waiting(c, |s.log|), s.lock); }
    case Open(_) => OpenKeepsSound(s, p);
    case Execute(_) =>
      if Now(s, p).Inside? {
        var Inside(c, since, point, work) := Now(s, p);
        assert OnTrack(s.committed, s.processes[p]);
        StatementsKeepTrack(s.committed, c, point, work);
        MoveKeepsSound(s, p, Inside(c, since, Executed(c, point, work).0, Executed(c, point, work).1), s.lock);
      }
    case Close(_) => CloseKeepsSound(s, p);
    case Fail(_) => DropKeepsSound(s, p);
    case Crash(_) => DropKeepsSound(s, p);
    case Answer(_) =>
      if Now(s, p).Answering? { AnswerKeepsBooks(s, p); }
  }

  lemma {:induction false} DropKeepsSound(s: System, p: nat)
    requires Sound(s)
    ensures Sound(Dropped(s, p))
  {
    hide Step, Run, Rest, Explained, ReturnsPlaced, ReturnsDistinct;
    MoveKeepsSound(s, p, Idle, if Now(s, p).Inside? then None else s.lock);
  }

  lemma {:induction false} HistoryIsSound(actions: seq<Action>)
    ensures Sound(History(START, actions))
  {
    if actions != [] {
      HistoryIsSound(actions[..|actions| - 1]);
      ActionKeepsSound(History(START, actions[..|actions| - 1]), actions[|actions| - 1]);
    }
  }
}
