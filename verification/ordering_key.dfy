/** The indexer's identity and ordering key of a withdrawal, and what they give the store that
    ingests the indexed withdrawals. */
module OrderingKey {
  import opened PyText
  import opened StoreTables
  import opened StoreInvariants
  import opened StoreTheorems
  import opened StoreDelivery

  const LOGS_PER_BLOCK := 1_000_000

  type Byte = b: int | 0 <= b < 256

  type Bytes = seq<Byte>

  /** The largest value of a signed 32-bit integer. */
  const MAX_I32 := 0x7fff_ffff

  datatype WithdrawalEvent = WithdrawalEvent(
    block: nat, blockHash: Bytes, timestamp: nat, logIndex: nat, transactionHash: Bytes,
    account: Bytes, recipient: Bytes, triggeredBy: Bytes, amount: nat, remainingCredit: nat)

  datatype Withdrawal = Withdrawal(
    id: Bytes, sequence: nat, blockNumber: nat, blockHash: Bytes, transactionHash: Bytes, logIndex: nat,
    timestamp: nat, who: Bytes, recipient: Bytes, triggeredBy: Bytes, amount: nat, remainingCredit: nat)

  function Key(block: nat, logIndex: nat): nat {
    block * LOGS_PER_BLOCK + logIndex
  }

  /** The four bytes of a 32-bit integer, lowest first. */
  function IndexBytes(i: nat): Bytes
    requires i <= MAX_I32
  {
    [i % 256, i / 256 % 256, i / 65536 % 256, i / 16777216]
  }

  function Identity(hash: Bytes, logIndex: nat): Bytes
    requires logIndex <= MAX_I32
  {
    hash + IndexBytes(logIndex)
  }

  function IdentityParts(id: Bytes): (Bytes, nat)
    requires |id| >= 4
  {
    var b := id[|id| - 4..];
    (id[..|id| - 4], (b[0] as int) + 256 * (b[1] as int) + 65536 * (b[2] as int) + 16777216 * (b[3] as int))
  }

  /** The log index converts to a 32-bit integer; otherwise the handler aborts. */
  predicate Indexable(e: WithdrawalEvent) {
    e.logIndex <= MAX_I32
  }

  function Entity(e: WithdrawalEvent): Withdrawal
    requires Indexable(e)
  {
    Withdrawal(Identity(e.transactionHash, e.logIndex), Key(e.block, e.logIndex), e.block, e.blockHash,
               e.transactionHash, e.logIndex, e.timestamp, e.account, e.recipient, e.triggeredBy,
               e.amount, e.remainingCredit)
  }

  /** The indexed entities, by identity. */
  class Subgraph {
    var entities: map<Bytes, Withdrawal>

    constructor ()
      ensures entities == map[]
    {
      entities := map[];
    }

    method HandleWithdrawal(e: WithdrawalEvent) returns (handled: bool)
      modifies this
      ensures handled == Indexable(e)
      ensures entities == if handled then old(entities)[Entity(e).id := Entity(e)] else old(entities)
    {
      if e.logIndex > MAX_I32 {
        return false;
      }
      var id := e.transactionHash + IndexBytes(e.logIndex);
      var sequence := e.block * LOGS_PER_BLOCK + e.logIndex;
      entities := entities[id := Withdrawal(id, sequence, e.block, e.blockHash, e.transactionHash,
                                            e.logIndex, e.timestamp, e.account, e.recipient,
                                            e.triggeredBy, e.amount, e.remainingCredit)];
      return true;
    }
  }

  /** The key gives back block and log index exactly when the log index is below the factor. */
  lemma KeyDecodesIff(block: nat, logIndex: nat)
    ensures Key(block, logIndex) / 1_000_000 == block && Key(block, logIndex) % 1_000_000 == logIndex
            <==> logIndex < 1_000_000
  {
  }

  /** The order of keys is the order of positions on the chain, if and only if no log index reaches
      the factor: for larger ones there is another position with the same key. */
  lemma KeyOrderIsChainOrderIff(logIndex: nat)
    ensures (forall b: nat, b': nat, l: nat | l < LOGS_PER_BLOCK ::
               && (Key(b, logIndex) < Key(b', l) <==> b < b' || (b == b' && logIndex < l))
               && (Key(b', l) < Key(b, logIndex) <==> b' < b || (b == b' && l < logIndex)))
            <==> logIndex < LOGS_PER_BLOCK
  {
    if logIndex >= LOGS_PER_BLOCK {
      var l := logIndex % LOGS_PER_BLOCK;
      var b' := logIndex / LOGS_PER_BLOCK;
      assert Key(0, logIndex) == Key(b', l);
      assert 0 < b' && l < LOGS_PER_BLOCK;
    }
  }

  lemma IdentityDecodes(hash: Bytes, logIndex: nat)
    requires logIndex <= MAX_I32
    ensures IdentityParts(Identity(hash, logIndex)) == (hash, logIndex)
  {
    var id := Identity(hash, logIndex);
    assert id[..|id| - 4] == hash && id[|id| - 4..] == IndexBytes(logIndex);
    BytesAddUp(logIndex);
  }

  lemma BytesAddUp(i: nat)
    ensures i % 256 + 256 * (i / 256 % 256) + 65536 * (i / 65536 % 256) + 16777216 * (i / 16777216) == i
  {
    assert i / 65536 == i / 256 / 256 && i / 16777216 == i / 65536 / 256;
  }

  /** The event an entity tells of, by its identity, its sequence and its parameters. */
  function EventOf(w: Withdrawal): WithdrawalEvent
    requires |w.id| >= 4
  {
    WithdrawalEvent(w.sequence / LOGS_PER_BLOCK, w.blockHash, w.timestamp, w.sequence % LOGS_PER_BLOCK,
                    IdentityParts(w.id).0, w.who, w.recipient, w.triggeredBy, w.amount, w.remainingCredit)
  }

  /** Nothing of an event is lost or mixed up in its entity, and the plain fields agree with the
      identity and the sequence. */
  lemma EntityTellsEvent(e: WithdrawalEvent)
    requires e.logIndex < LOGS_PER_BLOCK
    ensures var w := Entity(e);
            && EventOf(w) == e
            && w.blockNumber == w.sequence / LOGS_PER_BLOCK && w.logIndex == IdentityParts(w.id).1
            && w.transactionHash == IdentityParts(w.id).0
  {
    IdentityDecodes(e.transactionHash, e.logIndex);
    KeyDecodesIff(e.block, e.logIndex);
  }

  /** The table after the handler was called for these events. */
  function Indexed(events: seq<WithdrawalEvent>): map<Bytes, Withdrawal>
    requires forall e | e in events :: Indexable(e)
  {
    if events == [] then map[]
    else
      var last := events[|events| - 1];
      Indexed(events[..|events| - 1])[Entity(last).id := Entity(last)]
  }

  /** The table has the entity of each event, and every entity in it tells one of the events. */
  predicate HoldsExactly(table: map<Bytes, Withdrawal>, events: seq<WithdrawalEvent>)
    requires forall e | e in events :: Indexable(e)
  {
    && (forall e | e in events :: Entity(e).id in table && table[Entity(e).id] == Entity(e))
    && (forall id | id in table :: |table[id].id| >= 4 && EventOf(table[id]) in events)
  }

  lemma {:induction false} HoldsNext(table: map<Bytes, Withdrawal>, events: seq<WithdrawalEvent>, e: WithdrawalEvent)
    requires forall f | f in events + [e] :: Indexable(f)
    requires HoldsExactly(table, events) && e.logIndex < LOGS_PER_BLOCK
    requires forall f | f in events && f.transactionHash == e.transactionHash && f.logIndex == e.logIndex :: f == e
    ensures HoldsExactly(table[Entity(e).id := Entity(e)], events + [e])
  {
    hide Entity, IdentityParts, EventOf;
    EntityIsDecoded(e);
    var table', w := table[Entity(e).id := Entity(e)], Entity(e);
    forall f | f in events + [e] ensures Entity(f).id in table' && table'[Entity(f).id] == Entity(f) {
      if f in events && Entity(f).id == w.id { SameIdentity(f, e); }
    }
    forall id | id in table' ensures |table'[id].id| >= 4 && EventOf(table'[id]) in events + [e] {
      if id != w.id { assert id in table; }
    }
  }

  /** The indexed table holds exactly the withdrawals of the chain, each once, whatever the order and
      number in which they were handled. */
  lemma {:induction false} TableIsTheWithdrawals(events: seq<WithdrawalEvent>)
    requires OneChain(events)
    ensures HoldsExactly(Indexed(events), events)
  {
    hide Entity, HoldsExactly;
    if events == [] {
      EmptyHoldsNothing();
    } else {
      var most, last := events[..|events| - 1], events[|events| - 1];
      assert events == most + [last];
      forall e | e in most ensures e in events {}
      assert last in events;
      TableIsTheWithdrawals(most);
      HoldsNext(Indexed(most), most, last);
    }
  }

  lemma EmptyHoldsNothing()
    ensures HoldsExactly(map[], [])
  {
  }

  lemma EntityIsDecoded(e: WithdrawalEvent)
    requires e.logIndex < LOGS_PER_BLOCK
    ensures Indexable(e) && |Entity(e).id| >= 4 && EventOf(Entity(e)) == e
  {
    hide EventOf;
    EntityTellsEvent(e);
  }

  lemma SameIdentity(e: WithdrawalEvent, f: WithdrawalEvent)
    requires Indexable(e) && Indexable(f) && Entity(e).id == Entity(f).id
    ensures e.transactionHash == f.transactionHash && e.logIndex == f.logIndex
  {
    hide IdentityParts, IndexBytes;
    IdentityDecodes(e.transactionHash, e.logIndex);
    IdentityDecodes(f.transactionHash, f.logIndex);
  }

  // ---- indexed withdrawals as deliveries to the store ----

  /** The text of an identity is abstracted to any naming of identities. */
  function DeliveryOf(source: string, name: Bytes -> string, payload: Withdrawal -> string, w: Withdrawal): Call {
    Ingest(source, name(w.id), w.sequence, w.blockNumber, payload(w))
  }

  /** Deliveries of `source` carry keys of in-range log indices. */
  predicate Keyed(ds: seq<Call>, source: string) {
    forall d | d in ds && d.Ingest? && d.source == source :: d.block == d.sequence / LOGS_PER_BLOCK
  }

  ghost predicate KeyedEvents(events: map<string, EventRow>, source: string) {
    forall e | e in events && events[e].source == source ::
      events[e].block == ParseDec(events[e].sequence) / LOGS_PER_BLOCK
  }

  /** With keyed deliveries the cursor's block, too, is independent of order and repetition, and it
      is always the cursor's sequence divided by the factor. */
  lemma {:induction false} KeyedCursor(db: Db, ds: seq<Call>, source: string)
    requires Consistent(db) && Deliveries(ds) && Agreeing(db.events, ds)
    requires Keyed(ds, source) && KeyedEvents(db.events, source)
    ensures SameCursorRow(db, ds, source)
    ensures match Answer(Run(db, ds), Cursor(source)).position
            case None => true
            case Some((sequence, block)) => block == sequence / LOGS_PER_BLOCK
  {
    hide Run, ParseDec, Dec, OneAtATime, EventsPartitioned;
    assert TopBlocksAgree(db, ds, source);
    CursorRowIndependentIff(db, ds, source);
    RunDelivers(db, ds);
    RunKeepsConsistent(db, ds);
    var db' := Run(db, ds);
    if source in db'.cursors {
      assert AtSomeEvent(db'.events, source, db'.cursors[source]);
      var e :| e in db'.events && StandsAt(db'.events[e], source, db'.cursors[source]);
      if e !in db.events {
        var d :| d in ds && d.event == e;
        assert ParseDec(Dec(d.sequence)) == d.sequence by { DecRoundTrip(d.sequence); }
      }
    }
  }

  /** The withdrawals of one chain: log indices in range, and one event at each position. */
  predicate OneChain(events: seq<WithdrawalEvent>) {
    && (forall e | e in events :: e.logIndex < LOGS_PER_BLOCK)
    && (forall e, f | e in events && f in events
                      && e.transactionHash == f.transactionHash && e.logIndex == f.logIndex :: e == f)
  }

  function Fed(source: string, name: Bytes -> string, payload: Withdrawal -> string,
               events: seq<WithdrawalEvent>): seq<Call>
    requires forall e | e in events :: Indexable(e)
  {
    if events == [] then [] else
      [DeliveryOf(source, name, payload, Entity(events[0]))] + Fed(source, name, payload, events[1..])
  }

  lemma {:induction false} FedMembers(
    source: string, name: Bytes -> string, payload: Withdrawal -> string, events: seq<WithdrawalEvent>)
    requires forall e | e in events :: Indexable(e)
    ensures forall d | d in Fed(source, name, payload, events) ::
              exists e :: e in events && Indexable(e) && d == DeliveryOf(source, name, payload, Entity(e))
  {
    if events != [] {
      FedMembers(source, name, payload, events[1..]);
      forall d | d in Fed(source, name, payload, events)
        ensures exists e :: e in events && Indexable(e) && d == DeliveryOf(source, name, payload, Entity(e))
      {
        if d == DeliveryOf(source, name, payload, Entity(events[0])) {
          assert events[0] in events;
        } else {
          assert d in Fed(source, name, payload, events[1..]);
          var e :| e in events[1..] && Indexable(e) && d == DeliveryOf(source, name, payload, Entity(e));
          assert e in events;
        }
      }
    }
  }

  lemma {:induction false} FedAgree(
    source: string, name: Bytes -> string, payload: Withdrawal -> string, events: seq<WithdrawalEvent>)
    requires source != "" && (forall b :: name(b) != "") && (forall b, c :: name(b) == name(c) ==> b == c)
    requires OneChain(events)
    ensures var ds := Fed(source, name, payload, events);
            Deliveries(ds) && Keyed(ds, source) && Agreeing(map[], ds)
  {
    hide Dec, IndexBytes, IdentityParts;
    var ds := Fed(source, name, payload, events);
    FedMembers(source, name, payload, events);
    forall d, f | d in ds && f in ds && d.event == f.event
      ensures d == f
    {
      var e :| e in events && Indexable(e) && d == DeliveryOf(source, name, payload, Entity(e));
      var g :| g in events && Indexable(g) && f == DeliveryOf(source, name, payload, Entity(g));
      IdentityDecodes(e.transactionHash, e.logIndex);
      IdentityDecodes(g.transactionHash, g.logIndex);
    }
  }

  /** Feed the indexed withdrawals of one chain into an empty store, in any order and any number of
      times: the cursor ends at the same row, whose block is its sequence divided by the factor. */
  lemma {:induction false} IndexedCursorIndependent(
    source: string, name: Bytes -> string, payload: Withdrawal -> string, events: seq<WithdrawalEvent>,
    xs: seq<Call>)
    requires source != "" && (forall b :: name(b) != "") && (forall b, c :: name(b) == name(c) ==> b == c)
    requires OneChain(events) && SameMembers(xs, Fed(source, name, payload, events))
    ensures CursorRowOf(Run(EMPTY, xs), source) ==
            CursorRowOf(Run(EMPTY, Fed(source, name, payload, events)), source)
    ensures match Answer(Run(EMPTY, xs), Cursor(source)).position
            case None => true
            case Some((sequence, block)) => block == sequence / LOGS_PER_BLOCK
  {
    hide Run, Fed, Agreeing, Consistent;
    var ds := Fed(source, name, payload, events);
    FedAgree(source, name, payload, events);
    EmptyIsConsistent();
    AgreeingFollows(EMPTY.events, xs, ds);
    KeyedCursor(EMPTY, ds, source);
    KeyedCursor(EMPTY, xs, source);
  }
}
