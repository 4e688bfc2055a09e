/** The seven tables of the durable store and what each public operation does to them, as one
    atomic step.  The statement-by-statement form is in module StoreProcesses, the class in
    module DurableStore. */
module StoreTables {
  import opened PyText

  datatype Outcome = Success | Reverted | AlreadyDesired | Indeterminate

  datatype Status = Reserved | Prepared | Broadcasted | Ended(outcome: Outcome)

  datatype EventRow = EventRow(source: string, sequence: string, block: nat, payload: string)

  datatype CursorRow = CursorRow(sequence: string, block: nat)

  datatype IntentRow = IntentRow(
    incident: string, status: Status, nonce: Option<nat>, txHash: Option<string>,
    feeData: Option<string>, evidence: Option<string>)

  datatype OutboxRow = OutboxRow(intent: string, outcome: Outcome)

  /** An audit row; its transition is the status the intent was moved to. */
  datatype AuditRow = AuditRow(intent: string, transition: Status, detail: string)

  /** Tables with a primary key are maps, tables numbered by the database are sequences. */
  datatype Db = Db(
    cursors: map<string, CursorRow>,
    events: map<string, EventRow>,
    incidents: map<string, seq<string>>,
    intents: map<string, IntentRow>,
    owners: map<string, string>,
    latch: Option<string>,
    outbox: seq<OutboxRow>,
    audit: seq<AuditRow>)

  const EMPTY := Db(map[], map[], map[], map[], map[], None, [], [])

  datatype Call =
    | Ingest(source: string, event: string, sequence: int, block: int, payload: string)
    | Reserve(intent: string, incident: string, events: seq<string>)
    | Prepare(intent: string, nonce: int, feeData: string)
    | Broadcast(intent: string, txHash: string)
    | Finish(intent: string, outcome: string, evidence: string)
    | Cursor(source: string)
    | Intent(intent: string)
    | IsLatched

  datatype Exception = ValueError | IntegrityError

  datatype Reply =
    | Flag(yes: bool)
    | Done
    | Position(position: Option<(int, nat)>)
    | Row(row: Option<IntentRow>)
    | Raised(exception: Exception)

  datatype Effect = Effect(db: Db, reply: Reply)

  const RESERVED_DETAIL := "storage exclusivity passed; policy is external"
  const PREPARED_DETAIL := "nonce and fee data persisted"

  predicate Unfinished(s: Status) {
    s in {Reserved, Prepared, Broadcasted, Ended(Indeterminate)}
  }

  predicate Distinct(s: seq<string>) {
    forall i, j | 0 <= i < j < |s| :: s[i] != s[j]
  }

  function ParseOutcome(s: string): Option<Outcome> {
    if s == "success" then Some(Success)
    else if s == "reverted" then Some(Reverted)
    else if s == "already_desired" then Some(AlreadyDesired)
    else if s == "indeterminate" then Some(Indeterminate)
    else None
  }

  predicate ValidHash(h: string) {
    |h| == 66 && h[..2] == "0x" && ParsesAsHex(h[2..])
  }

  /** The argument checks made before a transaction is opened. */
  predicate Accepted(c: Call) {
    match c
    case Ingest(source, event, sequence, block, _) =>
      sequence >= 0 && block >= 0 && source != "" && event != ""
    case Reserve(intent, incident, events) =>
      intent != "" && incident != "" && events != [] && Distinct(events)
    case Prepare(_, nonce, _) => nonce >= 0
    case Broadcast(_, txHash) => ValidHash(txHash)
    case Finish(_, outcome, evidence) => ParseOutcome(outcome).Some? && evidence != ""
    case _ => true
  }

  // ---- the five writers ----

  /** The cursors, with the one of this event's source advanced to it if it is past it. */
  function Advanced(cursors: map<string, CursorRow>, row: EventRow): map<string, CursorRow> {
    if row.source !in cursors || ParseDec(row.sequence) > ParseDec(cursors[row.source].sequence) then
      cursors[row.source := CursorRow(row.sequence, row.block)]
    else
      cursors
  }

  function WithEvent(db: Db, event: string, row: EventRow): Db {
    db.(events := db.events[event := row], cursors := Advanced(db.cursors, row))
  }

  function AfterIngest(db: Db, c: Call): Effect
    requires c.Ingest? && Accepted(c)
  {
    var row := EventRow(c.source, Dec(c.sequence), c.block, c.payload);
    if c.event !in db.events then Effect(WithEvent(db, c.event, row), Flag(true))
    else if db.events[c.event] == row then Effect(db, Flag(false))
    else Effect(db, Raised(ValueError))
  }

  datatype Screening = Clear | Owned | Unknown

  /** The first obstacle among the events of a reservation, in the order given. */
  function Screen(db: Db, events: seq<string>): Screening {
    if events == [] then Clear
    else if events[0] in db.owners then Owned
    else if events[0] !in db.events then Unknown
    else Screen(db, events[1..])
  }

  predicate Busy(db: Db) {
    db.latch.Some? || exists i | i in db.intents :: Unfinished(db.intents[i].status)
  }

  function Owning(owners: map<string, string>, events: seq<string>, intent: string): map<string, string> {
    owners + map e | e in events :: intent
  }

  lemma OwningNext(owners: map<string, string>, events: seq<string>, e: string, intent: string)
    ensures Owning(owners, events + [e], intent) == Owning(owners, events, intent)[e := intent]
  {
  }

  function Reserving(db: Db, intent: string, incident: string, events: seq<string>): Db {
    db.(incidents := db.incidents[incident := events],
        intents := db.intents[intent := IntentRow(incident, Reserved, None, None, None, None)],
        owners := Owning(db.owners, events, intent),
        audit := db.audit + [AuditRow(intent, Reserved, RESERVED_DETAIL)])
  }

  function AfterReserve(db: Db, c: Call): Effect
    requires c.Reserve? && Accepted(c)
  {
    if Busy(db) || c.intent in db.intents then Effect(db, Flag(false))
    else
      match Screen(db, c.events)
      case Owned => Effect(db, Flag(false))
      case Unknown => Effect(db, Raised(ValueError))
      case Clear =>
        if c.incident in db.incidents then Effect(db, Raised(IntegrityError))
        else Effect(Reserving(db, c.intent, c.incident, c.events), Flag(true))
  }

  predicate HasStatus(db: Db, intent: string, s: Status) {
    intent in db.intents && db.intents[intent].status == s
  }

  function Moved(db: Db, intent: string, row: IntentRow, detail: string): Db {
    db.(intents := db.intents[intent := row],
        audit := db.audit + [AuditRow(intent, row.status, detail)])
  }

  function AfterPrepare(db: Db, c: Call): Effect
    requires c.Prepare? && Accepted(c)
  {
    if !HasStatus(db, c.intent, Reserved) then Effect(db, Raised(ValueError))
    else
      var row := db.intents[c.intent].(status := Prepared, nonce := Some(c.nonce), feeData := Some(c.feeData));
      Effect(Moved(db, c.intent, row, PREPARED_DETAIL), Done)
  }

  function AfterBroadcast(db: Db, c: Call): Effect
    requires c.Broadcast? && Accepted(c)
  {
    if !HasStatus(db, c.intent, Prepared) then Effect(db, Raised(ValueError))
    else
      var row := db.intents[c.intent].(status := Broadcasted, txHash := Some(c.txHash));
      Effect(Moved(db, c.intent, row, c.txHash), Done)
  }

  /** The latch and the outbox, when an intent was moved to an outcome. */
  function Concluded(db: Db, intent: string, s: Status, detail: string): Db {
    if !s.Ended? then db
    else
      db.(latch := if s.outcome == Indeterminate then Some(detail) else db.latch,
          outbox := db.outbox + [OutboxRow(intent, s.outcome)])
  }

  predicate Receipt(o: Outcome) {
    o == Success || o == Reverted
  }

  /** `finish` accepts outcome `o` for this row. */
  predicate MayEnd(row: IntentRow, o: Outcome) {
    && Unfinished(row.status)
    && (Receipt(o) ==> row.status in {Broadcasted, Ended(Indeterminate)} && row.txHash.Some?)
    && (o == AlreadyDesired ==> row.status == Reserved)
  }

  function AfterFinish(db: Db, c: Call): Effect
    requires c.Finish? && Accepted(c)
  {
    var o := ParseOutcome(c.outcome).value;
    if c.intent !in db.intents || !MayEnd(db.intents[c.intent], o) then Effect(db, Raised(ValueError))
    else
      var row := db.intents[c.intent].(status := Ended(o), evidence := Some(c.evidence));
      Effect(Concluded(Moved(db, c.intent, row, c.evidence), c.intent, row.status, c.evidence), Done)
  }

  // ---- every operation as one step, and runs of steps ----

  predicate Reads(c: Call) {
    c.Cursor? || c.Intent? || c.IsLatched?
  }

  function Answer(db: Db, c: Call): Reply
    requires Reads(c)
  {
    match c
    case Cursor(source) =>
      Position(if source in db.cursors
               then Some((ParseDec(db.cursors[source].sequence), db.cursors[source].block)) else None)
    case Intent(intent) => Row(if intent in db.intents then Some(db.intents[intent]) else None)
    case IsLatched => Flag(db.latch.Some?)
  }

  function Step(db: Db, c: Call): Effect {
    if !Accepted(c) then Effect(db, Raised(ValueError))
    else
      match c
      case Ingest(_, _, _, _, _) => AfterIngest(db, c)
      case Reserve(_, _, _) => AfterReserve(db, c)
      case Prepare(_, _, _) => AfterPrepare(db, c)
      case Broadcast(_, _) => AfterBroadcast(db, c)
      case Finish(_, _, _) => AfterFinish(db, c)
      case _ => Effect(db, Answer(db, c))
  }

  /** The tables after a sequence of calls, one at a time. */
  function Run(db: Db, calls: seq<Call>): Db {
    if calls == [] then db else Step(Run(db, calls[..|calls| - 1]), calls[|calls| - 1]).db
  }

  lemma {:induction false} RunInTwoParts(db: Db, first: seq<Call>, second: seq<Call>)
    ensures Run(db, first + second) == Run(Run(db, first), second)
  {
    if second == [] {
      assert first + second == first;
    } else {
      var all := first + second;
      assert all[..|all| - 1] == first + second[..|second| - 1];
      RunInTwoParts(db, first, second[..|second| - 1]);
    }
  }

  /** A reservation is granted exactly when no latch or unfinished intent stands in the way, both
      identifiers are new, and every named event is stored and unowned. */
  lemma ReserveGrantedIff(db: Db, intent: string, incident: string, events: seq<string>)
    ensures Step(db, Reserve(intent, incident, events)).reply == Flag(true) <==>
            && intent != "" && incident != "" && events != [] && Distinct(events)
            && db.latch.None?
            && (forall i | i in db.intents :: !Unfinished(db.intents[i].status))
            && intent !in db.intents && incident !in db.incidents
            && (forall e | e in events :: e in db.events && e !in db.owners)
  {
    hide ParseDec, Dec;
    ScreenClearIff(db, events);
  }

  lemma {:induction false} ScreenClearIff(db: Db, events: seq<string>)
    ensures Screen(db, events) == Clear <==> forall e | e in events :: e in db.events && e !in db.owners
  {
    if events != [] {
      ScreenClearIff(db, events[1..]);
      assert events == [events[0]] + events[1..];
    }
  }
}
