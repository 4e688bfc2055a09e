/** The store as an object whose methods change the tables in place, in the order of the SQL
    statements.  Each method is proved against the step of module StoreTables. */
module DurableStore {
  import opened PyText
  import opened StoreTables

  class StateStore {
    var cursors: map<string, CursorRow>
    var events: map<string, EventRow>
    var incidents: map<string, seq<string>>
    var intents: map<string, IntentRow>
    var owners: map<string, string>
    var latch: Option<string>
    var outbox: seq<OutboxRow>
    var audit: seq<AuditRow>

    /** All tables as one value. */
    function Tables(): Db
      reads this
    {
      Db(cursors, events, incidents, intents, owners, latch, outbox, audit)
    }

    constructor ()
      ensures Tables() == EMPTY
    {
      cursors, events, incidents, intents := map[], map[], map[], map[];
      owners, latch, outbox, audit := map[], None, [], [];
    }

    method Audit(intent: string, transition: Status, detail: string)
      modifies this`audit
      ensures audit == old(audit) + [AuditRow(intent, transition, detail)]
    {
      audit := audit + [AuditRow(intent, transition, detail)];
    }

    method Ingest(source: string, event: string, sequence: int, block: int, payload: string)
      returns (reply: Reply)
      modifies this
      ensures Effect(Tables(), reply) == Step(old(Tables()), Call.Ingest(source, event, sequence, block, payload))
    {
      if sequence < 0 || block < 0 || source == "" || event == "" {
        return Raised(ValueError);
      }
      if event in events {
        var previous := events[event];
        if (previous.source, previous.sequence, previous.block, previous.payload)
           != (source, Dec(sequence), block, payload) {
          return Raised(ValueError);
        }
        return Flag(false);
      }
      DecRoundTrip(sequence);
      events := events[event := EventRow(source, Dec(sequence), block, payload)];
      if source !in cursors || sequence > ParseDec(cursors[source].sequence) {
        cursors := cursors[source := CursorRow(Dec(sequence), block)];
      }
      return Flag(true);
    }

    /** The loop of `reserve` over the requested events: the first obstacle decides. */
    method FirstObstacle(eventIds: seq<string>) returns (obstacle: Screening)
      ensures obstacle == Screen(Tables(), eventIds)
    {
      var i := 0;
      while i < |eventIds|
        invariant 0 <= i <= |eventIds|
        invariant Screen(Tables(), eventIds) == Screen(Tables(), eventIds[i..])
      {
        var event := eventIds[i];
        if event in owners {
          return Owned;
        }
        if event !in events {
          return Unknown;
        }
        i := i + 1;
      }
      return Clear;
    }

    /** One ownership row for each event of the reservation. */
    method Link(eventIds: seq<string>, intent: string)
      modifies this`owners
      ensures owners == Owning(old(owners), eventIds, intent)
    {
      var i := 0;
      while i < |eventIds|
        invariant 0 <= i <= |eventIds|
        invariant owners == Owning(old(owners), eventIds[..i], intent)
      {
        OwningNext(old(owners), eventIds[..i], eventIds[i], intent);
        owners := owners[eventIds[i] := intent];
        assert eventIds[..i + 1] == eventIds[..i] + [eventIds[i]];
        i := i + 1;
      }
      assert eventIds[..i] == eventIds;
    }

    /** The inserts of a reservation that met no obstacle. */
    method Grant(intent: string, incident: string, eventIds: seq<string>)
      modifies this
      ensures Tables() == Reserving(old(Tables()), intent, incident, eventIds)
    {
      incidents := incidents[incident := eventIds];
      intents := intents[intent := IntentRow(incident, Reserved, None, None, None, None)];
      Link(eventIds, intent);
      Audit(intent, Reserved, RESERVED_DETAIL);
    }

    method Reserve(intent: string, incident: string, eventIds: seq<string>)
      returns (reply: Reply)
      modifies this
      ensures Effect(Tables(), reply) == Step(old(Tables()), Call.Reserve(intent, incident, eventIds))
    {
      hide Reserving, Screen, ParseDec, Dec, Owning;
      if intent == "" || incident == "" || eventIds == [] || !Distinct(eventIds) {
        return Raised(ValueError);
      }
      if Busy(Tables()) {
        return Flag(false);
      }
      if intent in intents {
        return Flag(false);
      }
      var obstacle := FirstObstacle(eventIds);
      if obstacle != Clear {
        return if obstacle == Owned then Flag(false) else Raised(ValueError);
      }
      if incident in incidents {
        return Raised(IntegrityError);
      }
      Grant(intent, incident, eventIds);
      return Flag(true);
    }

    method Prepare(intent: string, nonce: int, feeData: string)
      returns (reply: Reply)
      modifies this
      ensures Effect(Tables(), reply) == Step(old(Tables()), Call.Prepare(intent, nonce, feeData))
    {
      if nonce < 0 {
        return Raised(ValueError);
      }
      var matching := intent in intents && intents[intent].status == Reserved;
      if matching {
        intents := intents[intent := intents[intent].(status := Prepared, nonce := Some(nonce),
                                                      feeData := Some(feeData))];
      }
      if !matching {
        return Raised(ValueError);
      }
      Audit(intent, Prepared, PREPARED_DETAIL);
      return Done;
    }

    method Broadcast(intent: string, txHash: string)
      returns (reply: Reply)
      modifies this
      ensures Effect(Tables(), reply) == Step(old(Tables()), Call.Broadcast(intent, txHash))
    {
      if !ValidHash(txHash) {
        return Raised(ValueError);
      }
      var matching := intent in intents && intents[intent].status == Prepared;
      if matching {
        intents := intents[intent := intents[intent].(status := Broadcasted, txHash := Some(txHash))];
      }
      if !matching {
        return Raised(ValueError);
      }
      Audit(intent, Broadcasted, txHash);
      return Done;
    }

    method Finish(intent: string, outcome: string, evidence: string)
      returns (reply: Reply)
      modifies this
      ensures Effect(Tables(), reply) == Step(old(Tables()), Call.Finish(intent, outcome, evidence))
    {
      if ParseOutcome(outcome).None? || evidence == "" {
        return Raised(ValueError);
      }
      var o := ParseOutcome(outcome).value;
      if intent !in intents || !Unfinished(intents[intent].status) {
        return Raised(ValueError);
      }
      var row := intents[intent];
      if Receipt(o) && row.status !in {Broadcasted, Ended(Indeterminate)} {
        return Raised(ValueError);
      }
      if Receipt(o) && row.txHash.None? {
        return Raised(ValueError);
      }
      if o == AlreadyDesired && row.status != Reserved {
        return Raised(ValueError);
      }
      intents := intents[intent := row.(status := Ended(o), evidence := Some(evidence))];
      if o == Indeterminate {
        latch := Some(evidence);
      }
      Audit(intent, Ended(o), evidence);
      outbox := outbox + [OutboxRow(intent, o)];
      return Done;
    }
  }
}
