/** What the tables say about the calls that were made: every column is the argument of the last
    completed call that sets it, and every answer is decided by the completed calls before it.  The
    texts are those that callers pass and the database holds. */
module StoreCalls {
  import opened PyText
  import opened StoreTables
  import opened StoreInvariants
  import opened StoreTheorems

  /** The text of an outcome, in calls and in the tables. */
  function OutcomeText(o: Outcome): string {
    match o
    case Success => "success"
    case Reverted => "reverted"
    case AlreadyDesired => "already_desired"
    case Indeterminate => "indeterminate"
  }

  function StatusText(s: Status): string {
    match s
    case Reserved => "reserved"
    case Prepared => "prepared"
    case Broadcasted => "broadcast"
    case Ended(o) => OutcomeText(o)
  }

  lemma OutcomeTextsDiffer(a: Outcome, b: Outcome)
    ensures OutcomeText(a) == OutcomeText(b) <==> a == b
  {
    assert "success"[0] == 's' && "reverted"[0] == 'r' && "already_desired"[0] == 'a' && "indeterminate"[0] == 'i';
  }

  /** The outcome a text stands for is the one with that text. */
  lemma TextIsParsed(text: string)
    ensures forall o :: ParseOutcome(text) == Some(o) <==> text == OutcomeText(o)
    ensures ParseOutcome(text) == None <==> forall o :: text != OutcomeText(o)
  {
    assert "success"[0] == 's' && "reverted"[0] == 'r' && "already_desired"[0] == 'a' && "indeterminate"[0] == 'i';
    var texts := [OutcomeText(Success), OutcomeText(Reverted), OutcomeText(AlreadyDesired), OutcomeText(Indeterminate)];
    forall o ensures ParseOutcome(text) == Some(o) <==> text == OutcomeText(o) {
      OutcomeTextsDiffer(o, Success);
      OutcomeTextsDiffer(o, Reverted);
      OutcomeTextsDiffer(o, AlreadyDesired);
      OutcomeTextsDiffer(o, Indeterminate);
    }
    assert ParseOutcome(text) == None ==> forall o :: text != OutcomeText(o);
    if forall o :: text != OutcomeText(o) {
      assert text != texts[0] && text != texts[1] && text != texts[2] && text != texts[3];
    }
  }

  // ---- one call of finish ----

  /** The row stands where `finish` may be told outcome `o`. */
  predicate Concludes(row: IntentRow, o: Outcome) {
    match o
    case Success => row.status in {Broadcasted, Ended(Indeterminate)} && row.txHash != None
    case Reverted => row.status in {Broadcasted, Ended(Indeterminate)} && row.txHash != None
    case AlreadyDesired => row.status == Reserved
    case Indeterminate => row.status in {Reserved, Prepared, Broadcasted, Ended(Indeterminate)}
  }

  /** What a completed `finish` with the text of outcome `o` leaves behind. */
  predicate Recorded(db: Db, db': Db, intent: string, o: Outcome, evidence: string) {
    && intent in db.intents
    && db'.intents == db.intents[intent := db.intents[intent].(status := Ended(o), evidence := Some(evidence))]
    && db'.audit == db.audit + [AuditRow(intent, Ended(o), evidence)]
    && db'.outbox == db.outbox + [OutboxRow(intent, o)]
    && db'.latch == (if o == Indeterminate then Some(evidence) else db.latch)
    && db' == db.(intents := db'.intents, audit := db'.audit, outbox := db'.outbox, latch := db'.latch)
  }

  /** The outcome named in a completed `finish` is the one recorded in the intent, the audit log and
      the outbox, and the call completes exactly where the row may take that outcome. */
  lemma FinishRecordsTheNamedOutcome(db: Db, intent: string, o: Outcome, evidence: string)
    ensures var e := Step(db, Finish(intent, OutcomeText(o), evidence));
            if evidence != "" && intent in db.intents && Concludes(db.intents[intent], o)
            then e.reply == Done && Recorded(db, e.db, intent, o, evidence)
            else e == Effect(db, Raised(ValueError))
  {
    TextIsParsed(OutcomeText(o));
  }

  lemma UnknownOutcomeIsRefused(db: Db, intent: string, text: string, evidence: string)
    requires forall o :: text != OutcomeText(o)
    ensures Step(db, Finish(intent, text, evidence)) == Effect(db, Raised(ValueError))
  {
    TextIsParsed(text);
  }

  // ---- the completed calls of a run ----

  datatype Kind = Ingests | Reserves | Prepares | Broadcasts | Finishes

  /** The call is of this kind and about this event or intent. */
  predicate About(c: Call, kind: Kind, id: string) {
    match kind
    case Ingests => c.Ingest? && c.event == id
    case Reserves => c.Reserve? && c.intent == id
    case Prepares => c.Prepare? && c.intent == id
    case Broadcasts => c.Broadcast? && c.intent == id
    case Finishes => c.Finish? && c.intent == id
  }

  /** The call was carried out, not refused, repeated or raised. */
  predicate Completes(db: Db, c: Call) {
    Step(db, c).reply in {Done, Flag(true)}
  }

  /** The last completed call of this kind about `id`. */
  function Last(kind: Kind, id: string, calls: seq<Call>): (last: Option<Call>)
    ensures last.Some? ==> About(last.value, kind, id)
  {
    if calls == [] then None
    else
      var most, c := calls[..|calls| - 1], calls[|calls| - 1];
      if About(c, kind, id) && Completes(Run(EMPTY, most), c) then Some(c) else Last(kind, id, most)
  }

  lemma LastNext(kind: Kind, id: string, calls: seq<Call>, c: Call)
    ensures Last(kind, id, calls + [c]) ==
            if About(c, kind, id) && Completes(Run(EMPTY, calls), c) then Some(c) else Last(kind, id, calls)
    ensures Run(EMPTY, calls + [c]) == Step(Run(EMPTY, calls), c).db
  {
    hide Step;
    assert (calls + [c])[..|calls|] == calls;
  }

  // ---- the row of an intent ----

  /** What one call does to the row of one intent. */
  lemma StepOnRow(db: Db, c: Call, intent: string)
    ensures var rows, rows' := db.intents, Step(db, c).db.intents;
            if About(c, Reserves, intent) && Completes(db, c) then
              && intent !in rows && intent in rows'
              && rows'[intent] == IntentRow(c.incident, Reserved, None, None, None, None)
            else if intent !in rows then
              && intent !in rows'
              && !(About(c, Prepares, intent) && Completes(db, c))
              && !(About(c, Broadcasts, intent) && Completes(db, c))
              && !(About(c, Finishes, intent) && Completes(db, c))
            else
              && intent in rows'
              && var row, row' := rows[intent], rows'[intent];
                 if About(c, Prepares, intent) && Completes(db, c) then
                   && row.status == Reserved && c.nonce >= 0
                   && row' == row.(status := Prepared, nonce := Some(c.nonce), feeData := Some(c.feeData))
                 else if About(c, Broadcasts, intent) && Completes(db, c) then
                   && row.status == Prepared
                   && row' == row.(status := Broadcasted, txHash := Some(c.txHash))
                 else if About(c, Finishes, intent) && Completes(db, c) then
                   && row'.status.Ended? && OutcomeText(row'.status.outcome) == c.outcome
                   && row' == row.(status := row'.status, evidence := Some(c.evidence))
                 else
                   row' == row
  {
    hide ParseDec, Dec, ParsesAsHex, Owning, ParseOutcome;
    if c.Finish? { TextIsParsed(c.outcome); }
  }

  /** The columns of an intent are the arguments of these calls. */
  predicate RowShows(row: IntentRow, reserve: Option<Call>, prepare: Option<Call>, broadcast: Option<Call>,
                     finish: Option<Call>)
    requires reserve.Some? ==> reserve.value.Reserve?
    requires prepare.Some? ==> prepare.value.Prepare?
    requires broadcast.Some? ==> broadcast.value.Broadcast?
    requires finish.Some? ==> finish.value.Finish?
  {
    && reserve.Some? && row.incident == reserve.value.incident
    && (if prepare.None? then row.nonce == None && row.feeData == None
        else row.nonce.Some? && row.nonce.value == prepare.value.nonce && row.feeData == Some(prepare.value.feeData))
    && row.txHash == (if broadcast.None? then None else Some(broadcast.value.txHash))
    && row.evidence == (if finish.None? then None else Some(finish.value.evidence))
    && (if finish.Some? then row.status.Ended? && OutcomeText(row.status.outcome) == finish.value.outcome
        else row.status == if broadcast.Some? then Broadcasted else if prepare.Some? then Prepared else Reserved)
  }

  predicate IntentShows(db: Db, intent: string, calls: seq<Call>) {
    if intent in db.intents then
      RowShows(db.intents[intent], Last(Reserves, intent, calls), Last(Prepares, intent, calls),
               Last(Broadcasts, intent, calls), Last(Finishes, intent, calls))
    else
      && Last(Reserves, intent, calls) == None && Last(Prepares, intent, calls) == None
      && Last(Broadcasts, intent, calls) == None && Last(Finishes, intent, calls) == None
  }

  lemma {:induction false} IntentShowsNext(calls: seq<Call>, c: Call, intent: string)
    requires IntentShows(Run(EMPTY, calls), intent, calls)
    ensures IntentShows(Run(EMPTY, calls + [c]), intent, calls + [c])
  {
    hide Step, Run, Last, Completes;
    var db := Run(EMPTY, calls);
    StepOnRow(db, c, intent);
    forall kind { LastNext(kind, intent, calls, c); }
  }

  /** After any calls an intent exists exactly if a reservation of it was granted; its incident,
      nonce, fee data, hash and evidence are the arguments of the last completed call that sets them;
      and it is closed with an outcome exactly if the last completed `finish` named that outcome. */
  lemma {:induction false} RowsAreTheCompletedCalls(calls: seq<Call>, intent: string)
    ensures IntentShows(Run(EMPTY, calls), intent, calls)
  {
    hide Step, RowShows;
    if calls != [] {
      RowsAreTheCompletedCalls(calls[..|calls| - 1], intent);
      IntentShowsNext(calls[..|calls| - 1], calls[|calls| - 1], intent);
      assert calls == calls[..|calls| - 1] + [calls[|calls| - 1]];
    }
  }

  /** An intent is closed with an outcome if and only if its last completed `finish` named it. */
  lemma ClosedIff(calls: seq<Call>, intent: string, o: Outcome)
    ensures var db, finish := Run(EMPTY, calls), Last(Finishes, intent, calls);
            intent in db.intents && db.intents[intent].status == Ended(o)
            <==> finish.Some? && finish.value.outcome == OutcomeText(o)
  {
    hide Run, Last;
    RowsAreTheCompletedCalls(calls, intent);
    var db := Run(EMPTY, calls);
    if intent in db.intents && db.intents[intent].status.Ended? {
      OutcomeTextsDiffer(db.intents[intent].status.outcome, o);
    }
  }

  /** The row a caller reads is the row of the completed calls. */
  lemma ReadRowIsTheCompletedCalls(calls: seq<Call>, intent: string)
    ensures match Step(Run(EMPTY, calls), Intent(intent)).reply
            case Row(None) => Last(Reserves, intent, calls) == None
            case Row(Some(row)) =>
              RowShows(row, Last(Reserves, intent, calls), Last(Prepares, intent, calls),
                       Last(Broadcasts, intent, calls), Last(Finishes, intent, calls))
            case _ => false
  {
    hide Run, Last, RowShows;
    RowsAreTheCompletedCalls(calls, intent);
  }

  // ---- which calls complete ----

  lemma WellFormedRow(calls: seq<Call>, intent: string)
    ensures var db := Run(EMPTY, calls); intent in db.intents ==> WellFormed(db.intents[intent])
  {
    hide Run, WellFormed;
    ReachableIsConsistent(calls);
  }

  /** A preparation completes if and only if the nonce is not negative and the intent was reserved
      and neither prepared nor finished. */
  lemma PrepareCompletesIff(calls: seq<Call>, intent: string, nonce: int, feeData: string)
    ensures Completes(Run(EMPTY, calls), Prepare(intent, nonce, feeData)) <==>
            && nonce >= 0 && Last(Reserves, intent, calls).Some?
            && Last(Prepares, intent, calls).None? && Last(Finishes, intent, calls).None?
  {
    hide Run, Last;
    RowsAreTheCompletedCalls(calls, intent);
    WellFormedRow(calls, intent);
  }

  /** A broadcast completes if and only if the hash is one and the intent was prepared and neither
      broadcast nor finished. */
  lemma BroadcastCompletesIff(calls: seq<Call>, intent: string, txHash: string)
    ensures Completes(Run(EMPTY, calls), Broadcast(intent, txHash)) <==>
            && |txHash| == 66 && txHash[..2] == "0x" && ParsesAsHex(txHash[2..])
            && Last(Prepares, intent, calls).Some?
            && Last(Broadcasts, intent, calls).None? && Last(Finishes, intent, calls).None?
  {
    hide Run, Last, ParsesAsHex;
    RowsAreTheCompletedCalls(calls, intent);
    WellFormedRow(calls, intent);
  }

  /** The intent was not finished, or last with doubt. */
  predicate Open(calls: seq<Call>, intent: string) {
    var finish := Last(Finishes, intent, calls);
    finish.Some? ==> finish.value.outcome == "indeterminate"
  }

  /** A conclusion completes if and only if there is evidence and the intent was reserved and is
      still open, with a broadcast before a receipt, and with neither a preparation nor a doubt
      before `already_desired`. */
  lemma FinishCompletesIff(calls: seq<Call>, intent: string, text: string, evidence: string)
    ensures Completes(Run(EMPTY, calls), Finish(intent, text, evidence)) <==>
            && evidence != "" && Last(Reserves, intent, calls).Some? && Open(calls, intent)
            && (|| text == "indeterminate"
                || (text in ["success", "reverted"] && Last(Broadcasts, intent, calls).Some?)
                || (text == "already_desired"
                    && Last(Prepares, intent, calls).None? && Last(Finishes, intent, calls).None?))
  {
    hide Run, Last, ParseOutcome;
    RowsAreTheCompletedCalls(calls, intent);
    WellFormedRow(calls, intent);
    TextIsParsed(text);
    assert text in ["success", "reverted", "already_desired", "indeterminate"] <==> ParseOutcome(text).Some? by {
      assert OutcomeText(Success) == "success" && OutcomeText(Reverted) == "reverted";
      assert OutcomeText(AlreadyDesired) == "already_desired" && OutcomeText(Indeterminate) == "indeterminate";
    }
    var db := Run(EMPTY, calls);
    forall a, b { OutcomeTextsDiffer(a, b); }
  }

  // ---- the audit log, the outbox and the latch ----

  /** A row of the audit log as the table holds it: intent, transition and detail. */
  datatype LogLine = LogLine(intent: string, transition: string, detail: string)

  function AuditLines(audit: seq<AuditRow>): seq<LogLine> {
    seq(|audit|, i requires 0 <= i < |audit| =>
      LogLine(audit[i].intent, StatusText(audit[i].transition), audit[i].detail))
  }

  /** What a completed call writes into the audit log. */
  function LinesOf(c: Call): seq<LogLine> {
    match c
    case Reserve(intent, _, _) => [LogLine(intent, "reserved", "storage exclusivity passed; policy is external")]
    case Prepare(intent, _, _) => [LogLine(intent, "prepared", "nonce and fee data persisted")]
    case Broadcast(intent, txHash) => [LogLine(intent, "broadcast", txHash)]
    case Finish(intent, outcome, evidence) => [LogLine(intent, outcome, evidence)]
    case _ => []
  }

  function AllLines(calls: seq<Call>): seq<LogLine> {
    if calls == [] then []
    else
      var most, c := calls[..|calls| - 1], calls[|calls| - 1];
      AllLines(most) + if Completes(Run(EMPTY, most), c) then LinesOf(c) else []
  }

  /** The outbox rows as intent and outcome text. */
  function OutboxLines(outbox: seq<OutboxRow>): seq<(string, string)> {
    seq(|outbox|, i requires 0 <= i < |outbox| => (outbox[i].intent, OutcomeText(outbox[i].outcome)))
  }

  function AllOutcomes(calls: seq<Call>): seq<(string, string)> {
    if calls == [] then []
    else
      var most, c := calls[..|calls| - 1], calls[|calls| - 1];
      AllOutcomes(most) + if c.Finish? && Completes(Run(EMPTY, most), c) then [(c.intent, c.outcome)] else []
  }

  /** The evidence of the last completed `finish` of any intent that named doubt. */
  function LastAlarm(calls: seq<Call>): Option<string> {
    if calls == [] then None
    else
      var most, c := calls[..|calls| - 1], calls[|calls| - 1];
      if c.Finish? && c.outcome == "indeterminate" && Completes(Run(EMPTY, most), c) then Some(c.evidence)
      else LastAlarm(most)
  }

  lemma StepOnLog(db: Db, c: Call)
    ensures var db' := Step(db, c).db;
            && AuditLines(db'.audit) == AuditLines(db.audit) + (if Completes(db, c) then LinesOf(c) else [])
            && OutboxLines(db'.outbox) ==
               OutboxLines(db.outbox) + (if c.Finish? && Completes(db, c) then [(c.intent, c.outcome)] else [])
            && db'.latch == if c.Finish? && c.outcome == "indeterminate" && Completes(db, c)
                            then Some(c.evidence) else db.latch
  {
    hide ParseDec, Dec, ParsesAsHex, Owning, ParseOutcome, MayEnd, Busy, Unfinished;
    if c.Finish? {
      TextIsParsed(c.outcome);
      assert OutcomeText(Indeterminate) == "indeterminate";
      forall o { OutcomeTextsDiffer(o, Indeterminate); }
    }
  }

  /** The audit log is line by line what the completed calls wrote, in their order; the outbox is
      their outcomes; and the latch holds the evidence of the last doubt. */
  lemma {:induction false} LogIsTheCompletedCalls(calls: seq<Call>)
    ensures var db := Run(EMPTY, calls);
            && AuditLines(db.audit) == AllLines(calls)
            && OutboxLines(db.outbox) == AllOutcomes(calls)
            && db.latch == LastAlarm(calls)
  {
    hide Step, AuditLines, OutboxLines, LinesOf, Completes;
    if calls == [] {
      NoLines();
    } else {
      LogIsTheCompletedCalls(calls[..|calls| - 1]);
      StepOnLog(Run(EMPTY, calls[..|calls| - 1]), calls[|calls| - 1]);
    }
  }

  lemma NoLines()
    ensures AuditLines([]) == [] && OutboxLines([]) == []
  {
  }

  /** The store answers that it is latched if and only if some `finish` naming doubt completed. */
  lemma LatchedIff(calls: seq<Call>)
    ensures Step(Run(EMPTY, calls), IsLatched).reply == Flag(LastAlarm(calls).Some?)
  {
    LogIsTheCompletedCalls(calls);
  }

  // ---- events and incidents ----

  /** The stored row says what this delivery said. */
  predicate EventShows(row: EventRow, d: Call)
    requires d.Ingest?
  {
    && row.source == d.source && ParseDec(row.sequence) == d.sequence
    && row.block == d.block && row.payload == d.payload
  }

  lemma StepOnEvent(db: Db, c: Call, event: string)
    ensures var e := Step(db, c);
            if About(c, Ingests, event) && Completes(db, c) then
              event !in db.events && event in e.db.events && EventShows(e.db.events[event], c)
            else
              && (event in e.db.events <==> event in db.events)
              && (event in db.events ==> e.db.events[event] == db.events[event])
  {
    hide ParseDec, Dec, ParsesAsHex, Owning, ParseOutcome, MayEnd, Busy;
    if c.Ingest? && c.sequence >= 0 { DecRoundTrip(c.sequence); }
  }

  /** An event is stored exactly if a delivery of it was accepted, as that delivery said. */
  lemma {:induction false} EventsAreTheAcceptedDeliveries(calls: seq<Call>, event: string)
    ensures var events, d := Run(EMPTY, calls).events, Last(Ingests, event, calls);
            && (event in events <==> d.Some?)
            && (event in events ==> EventShows(events[event], d.value))
  {
    hide Step, EventShows, Completes;
    if calls != [] {
      EventsAreTheAcceptedDeliveries(calls[..|calls| - 1], event);
      StepOnEvent(Run(EMPTY, calls[..|calls| - 1]), calls[|calls| - 1], event);
    }
  }

  /** How a delivery is answered: with an exception if it is malformed, with True the first time,
      then with False if it says the same, and with an exception if it does not. */
  lemma DeliveryIsAnswered(calls: seq<Call>, d: Call)
    requires d.Ingest?
    ensures var reply, first := Step(Run(EMPTY, calls), d).reply, Last(Ingests, d.event, calls);
            reply ==
            if d.sequence < 0 || d.block < 0 || d.source == "" || d.event == "" then Raised(ValueError)
            else if first == None then Flag(true)
            else if first == Some(d) then Flag(false)
            else Raised(ValueError)
  {
    hide Run, Last, ParseDec, Dec;
    var db, first := Run(EMPTY, calls), Last(Ingests, d.event, calls);
    EventsAreTheAcceptedDeliveries(calls, d.event);
    StoredSequencesAreTexts(calls, d.event);
    if d.sequence >= 0 { DecRoundTrip(d.sequence); }
    if first.Some? {
      assert About(first.value, Ingests, d.event);
    }
  }

  lemma StoredSequencesAreTexts(calls: seq<Call>, event: string)
    ensures var events := Run(EMPTY, calls).events; event in events ==> Canonical(events[event].sequence)
  {
    hide Run, ParseDec, Dec;
    ReachableIsConsistent(calls);
  }

  /** The incident of a granted reservation keeps the events it was reserved for, in their order. */
  lemma {:induction false} IncidentsAreTheGrantedReservations(calls: seq<Call>, intent: string)
    ensures var db, reserve := Run(EMPTY, calls), Last(Reserves, intent, calls);
            reserve.Some? ==>
              && reserve.value.incident in db.incidents
              && db.incidents[reserve.value.incident] == reserve.value.events
  {
    hide Step, Completes;
    if calls != [] {
      var db, c := Run(EMPTY, calls[..|calls| - 1]), calls[|calls| - 1];
      IncidentsAreTheGrantedReservations(calls[..|calls| - 1], intent);
      StepOnIncidents(db, c);
    }
  }

  lemma StepOnIncidents(db: Db, c: Call)
    ensures var after := Step(db, c).db.incidents;
            && (forall x | x in db.incidents :: x in after && after[x] == db.incidents[x])
            && (c.Reserve? && Completes(db, c) ==> c.incident in after && after[c.incident] == c.events)
  {
    hide ParseDec, Dec, ParsesAsHex, Owning, ParseOutcome, MayEnd, Busy;
  }

  // ---- how a reservation is refused ----

  /** Event `k` is the first that is owned or not stored, and it is owned or is not. */
  predicate FirstInTheWay(db: Db, events: seq<string>, k: nat, owned: bool)
    requires k < |events|
  {
    && (forall j | 0 <= j < k :: events[j] in db.events && events[j] !in db.owners)
    && (events[k] in db.owners <==> owned)
    && (!owned ==> events[k] !in db.events)
  }

  lemma {:induction false} ScreenFindsTheFirst(db: Db, events: seq<string>)
    ensures Screen(db, events) == Owned <==> exists k: nat | k < |events| :: FirstInTheWay(db, events, k, true)
    ensures Screen(db, events) == Unknown <==> exists k: nat | k < |events| :: FirstInTheWay(db, events, k, false)
  {
    if events != [] {
      var rest := events[1..];
      ScreenFindsTheFirst(db, rest);
      if events[0] in db.owners {
        assert FirstInTheWay(db, events, 0, true);
      } else if events[0] !in db.events {
        assert FirstInTheWay(db, events, 0, false);
      } else {
        assert !FirstInTheWay(db, events, 0, true) && !FirstInTheWay(db, events, 0, false);
        forall owned, k: nat | k < |rest| ensures FirstInTheWay(db, rest, k, owned) <==> FirstInTheWay(db, events, k + 1, owned) {
          SameInRest(db, events, k, owned);
        }
        forall owned, k: nat | 0 < k < |events| && FirstInTheWay(db, events, k, owned)
          ensures FirstInTheWay(db, rest, k - 1, owned)
        {
          SameInRest(db, events, k - 1, owned);
        }
      }
    }
  }

  lemma SameInRest(db: Db, events: seq<string>, k: nat, owned: bool)
    requires k + 1 < |events| && events[0] in db.events && events[0] !in db.owners
    ensures FirstInTheWay(db, events[1..], k, owned) <==> FirstInTheWay(db, events, k + 1, owned)
  {
    var rest := events[1..];
    assert forall j | 0 < j <= k + 1 :: events[j] == rest[j - 1];
    assert forall j | 0 <= j <= k :: rest[j] == events[j + 1];
  }

  /** Which refusal a reservation meets: the latch, an unfinished or known intent and a first event
      that is owned answer False; a first event that is unknown, and bad arguments, raise; a known
      incident alone violates a key. */
  lemma ReserveIsAnswered(db: Db, intent: string, incident: string, events: seq<string>)
    ensures Step(db, Reserve(intent, incident, events)).reply ==
            if intent == "" || incident == "" || events == [] || !Distinct(events) then Raised(ValueError)
            else if db.latch.Some? || (exists i | i in db.intents :: Unfinished(db.intents[i].status))
                    || intent in db.intents
                    || (exists k: nat | k < |events| :: FirstInTheWay(db, events, k, true)) then Flag(false)
            else if exists k: nat | k < |events| :: FirstInTheWay(db, events, k, false) then Raised(ValueError)
            else if incident in db.incidents then Raised(IntegrityError)
            else Flag(true)
  {
    hide ParseDec, Dec, ParsesAsHex, FirstInTheWay, Unfinished, Owning;
    ScreenFindsTheFirst(db, events);
  }

  /** An intent holds the store closed exactly while it was reserved and is not closed for good. */
  lemma UnfinishedIff(calls: seq<Call>, intent: string)
    ensures var db := Run(EMPTY, calls);
            intent in db.intents && Unfinished(db.intents[intent].status)
            <==> Last(Reserves, intent, calls).Some? && Open(calls, intent)
  {
    hide Run, Last;
    RowsAreTheCompletedCalls(calls, intent);
    forall a, b { OutcomeTextsDiffer(a, b); }
    assert OutcomeText(Indeterminate) == "indeterminate";
  }
}
