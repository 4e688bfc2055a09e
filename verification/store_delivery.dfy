/** At-least-once delivery: events may arrive in any order and any number of times. */
module StoreDelivery {
  import opened PyText
  import opened StoreTables
  import opened StoreInvariants
  import opened StoreTheorems

  function RowFor(d: Call): EventRow
    requires d.Ingest? && Accepted(d)
  {
    EventRow(d.source, Dec(d.sequence), d.block, d.payload)
  }

  predicate Deliveries(ds: seq<Call>) {
    forall d | d in ds :: d.Ingest? && Accepted(d)
  }

  /** No delivery contradicts a stored event or another delivery. */
  predicate Agreeing(events: map<string, EventRow>, ds: seq<Call>)
    requires Deliveries(ds)
  {
    && (forall d | d in ds && d.event in events :: events[d.event] == RowFor(d))
    && (forall d, e | d in ds && e in ds && d.event == e.event :: RowFor(d) == RowFor(e))
  }

  ghost predicate SameMembers(xs: seq<Call>, ys: seq<Call>) {
    forall d :: d in xs <==> d in ys
  }

  // ---- the event table ----

  ghost predicate Delivered(events: map<string, EventRow>, ds: seq<Call>, events': map<string, EventRow>)
    requires Deliveries(ds)
  {
    && (forall id | id in events :: id in events' && events'[id] == events[id])
    && (forall d | d in ds :: d.event in events' && events'[d.event] == RowFor(d))
    && (forall id | id in events' && id !in events :: exists d :: d in ds && d.event == id)
  }

  lemma {:induction false} MostOf(ds: seq<Call>, events: map<string, EventRow>)
    requires ds != [] && Deliveries(ds) && Agreeing(events, ds)
    ensures Deliveries(ds[..|ds| - 1]) && Agreeing(events, ds[..|ds| - 1])
    ensures ds[|ds| - 1].Ingest? && Accepted(ds[|ds| - 1])
    ensures forall d :: d in ds <==> d in ds[..|ds| - 1] || d == ds[|ds| - 1]
  {
    hide RowFor;
    assert ds == ds[..|ds| - 1] + [ds[|ds| - 1]];
  }

  lemma DeliveredNext(events: map<string, EventRow>, ds: seq<Call>, events': map<string, EventRow>, d: Call)
    requires Deliveries(ds) && Delivered(events, ds, events') && d.Ingest? && Accepted(d)
    requires d.event in events' ==> events'[d.event] == RowFor(d)
    ensures Deliveries(ds + [d]) && Delivered(events, ds + [d], events'[d.event := RowFor(d)])
  {
    hide RowFor;
    var all, events'' := ds + [d], events'[d.event := RowFor(d)];
    forall id | id in events'' && id !in events ensures exists e :: e in all && e.event == id {
      if id == d.event {
        assert d in all;
      } else {
        var e :| e in ds && e.event == id;
        assert e in all;
      }
    }
  }

  lemma {:induction false} RunDelivers(db: Db, ds: seq<Call>)
    requires Deliveries(ds) && Agreeing(db.events, ds)
    ensures var db' := Run(db, ds);
            && Delivered(db.events, ds, db'.events)
            && db' == db.(events := db'.events, cursors := db'.cursors)
  {
    hide Dec, ParseDec, Delivered, Agreeing;
    if ds == [] {
      assert Delivered(db.events, ds, db.events) by { NothingDelivered(db.events); }
    } else {
      var most, last := ds[..|ds| - 1], ds[|ds| - 1];
      MostOf(ds, db.events);
      RunDelivers(db, most);
      var db1 := Run(db, most);
      assert last.event in db1.events ==> db1.events[last.event] == RowFor(last) by {
        AgreesSoFar(db.events, ds, db1.events);
      }
      assert db1.events[last.event := RowFor(last)] == Run(db, ds).events;
      DeliveredNext(db.events, most, db1.events, last);
      assert most + [last] == ds;
    }
  }

  lemma NothingDelivered(events: map<string, EventRow>)
    ensures Delivered(events, [], events)
  {
  }

  lemma AgreesSoFar(events: map<string, EventRow>, ds: seq<Call>, events': map<string, EventRow>)
    requires ds != [] && Deliveries(ds) && Agreeing(events, ds) && Deliveries(ds[..|ds| - 1])
    requires Delivered(events, ds[..|ds| - 1], events')
    ensures var d := ds[|ds| - 1]; d.event in events' ==> events'[d.event] == RowFor(d)
  {
    hide RowFor;
    var d := ds[|ds| - 1];
    assert d in ds;
    if d.event in events' && d.event !in events {
      var e :| e in ds[..|ds| - 1] && e.event == d.event;
      assert e in ds;
    }
  }

  lemma {:induction false} SameTable(events: map<string, EventRow>, xs: seq<Call>, ys: seq<Call>,
                                     a: map<string, EventRow>, b: map<string, EventRow>)
    requires Deliveries(xs) && Deliveries(ys) && SameMembers(xs, ys)
    requires Delivered(events, xs, a) && Delivered(events, ys, b)
    ensures a == b
  {
    hide RowFor;
    forall id | id in a ensures id in b && a[id] == b[id] {
      if id !in events { var d :| d in xs && d.event == id; assert d in ys; }
    }
    forall id | id in b ensures id in a {
      if id !in events { var d :| d in ys && d.event == id; assert d in xs; }
    }
  }

  // ---- the cursors follow from the event table ----

  lemma {:induction false} CursorsFollow(events: map<string, EventRow>, a: map<string, CursorRow>, b: map<string, CursorRow>)
    requires CursorsAgree(events, a) && CursorsAgree(events, b)
    ensures forall s | s in a :: s in b && a[s].sequence == b[s].sequence
  {
    hide ParseDec, Dec;
    forall s | s in a ensures s in b && a[s].sequence == b[s].sequence {
      var e :| e in events && StandsAt(events[e], s, a[s]);
      assert NotPast(events[e], b);
      var f :| f in events && StandsAt(events[f], s, b[s]);
      assert NotPast(events[f], a);
      assert Canonical(events[e].sequence) && Canonical(events[f].sequence);
    }
  }

  /** The order and the number of deliveries do not matter: the same events give the same event
      table and the same cursor sequences, and nothing else changes. */
  lemma DeliveryOrderIsIrrelevant(db: Db, xs: seq<Call>, ys: seq<Call>)
    requires Consistent(db) && Deliveries(xs) && Deliveries(ys) && SameMembers(xs, ys)
    requires Agreeing(db.events, xs)
    ensures var a, b := Run(db, xs), Run(db, ys);
            && a.events == b.events
            && a.cursors.Keys == b.cursors.Keys
            && (forall s | s in a.cursors :: a.cursors[s].sequence == b.cursors[s].sequence)
            && a == db.(events := a.events, cursors := a.cursors)
  {
    hide Run, Delivered, CursorsAgree, RowFor, OneAtATime, EventsPartitioned;
    RunDelivers(db, xs);
    RunDelivers(db, ys);
    var a, b := Run(db, xs), Run(db, ys);
    SameTable(db.events, xs, ys, a.events, b.events);
    RunKeepsConsistent(db, xs);
    RunKeepsConsistent(db, ys);
    CursorsFollow(a.events, a.cursors, b.cursors);
    CursorsFollow(a.events, b.cursors, a.cursors);
  }

  /** A replay that contradicts a stored event is refused and changes nothing. */
  lemma ConflictingReplayChangesNothing(db: Db, d: Call)
    requires d.Ingest? && Accepted(d) && d.event in db.events
    requires (db.events[d.event].source, db.events[d.event].block, db.events[d.event].payload)
               != (d.source, d.block, d.payload)
             || ParseDec(db.events[d.event].sequence) != d.sequence
    ensures Step(db, d) == Effect(db, Raised(ValueError))
  {
    DecRoundTrip(d.sequence);
  }

  /** The cursor reported for a source is the largest sequence among its stored events; there is
      none exactly when the source has no event. */
  lemma CursorIsMaximum(calls: seq<Call>, source: string)
    ensures var db := Run(EMPTY, calls);
            match Answer(db, Cursor(source)).position
            case None => forall e | e in db.events :: db.events[e].source != source
            case Some((sequence, block)) =>
              && (forall e | e in db.events && db.events[e].source == source ::
                    ParseDec(db.events[e].sequence) <= sequence)
              && (exists e :: e in db.events && db.events[e].source == source
                              && ParseDec(db.events[e].sequence) == sequence && db.events[e].block == block)
  {
    var db := Run(EMPTY, calls);
    ReachableIsConsistent(calls);
    NoStoredEventIsPast(db.events, db.cursors);
    if source in db.cursors {
      assert AtSomeEvent(db.events, source, db.cursors[source]);
      var e :| e in db.events && StandsAt(db.events[e], source, db.cursors[source]);
      assert db.events[e].source == source;
    }
  }

  // ---- the cursor's block number ----

  /** A new event of `source` that no delivery and no stored event is past. */
  predicate Top(db: Db, ds: seq<Call>, source: string, d: Call)
    requires Deliveries(ds)
  {
    && d in ds && d.source == source
    && (source in db.cursors ==> d.sequence > ParseDec(db.cursors[source].sequence))
    && (forall e | e in ds && e.source == source :: e.sequence <= d.sequence)
  }

  predicate TopBlocksAgree(db: Db, ds: seq<Call>, source: string)
    requires Deliveries(ds)
  {
    forall d, e | d in ds && e in ds && Top(db, ds, source, d) && Top(db, ds, source, e) :: d.block == e.block
  }

  /** Whatever the order and number of the deliveries, the cursor row ends up the same. */
  ghost predicate SameCursorRow(db: Db, ds: seq<Call>, source: string) {
    forall xs | Deliveries(xs) && SameMembers(xs, ds) :: CursorRowOf(Run(db, xs), source) == CursorRowOf(Run(db, ds), source)
  }

  function CursorRowOf(db: Db, source: string): Option<CursorRow> {
    if source in db.cursors then Some(db.cursors[source]) else None
  }

  /** Events that are not past the cursor leave it alone. */
  lemma {:induction false} CursorStays(db: Db, ds: seq<Call>, source: string)
    requires Deliveries(ds) && source in db.cursors
    requires forall d | d in ds && d.source == source :: d.sequence <= ParseDec(db.cursors[source].sequence)
    ensures source in Run(db, ds).cursors && Run(db, ds).cursors[source] == db.cursors[source]
  {
    hide ParseDec;
    if ds != [] {
      var most, last := ds[..|ds| - 1], ds[|ds| - 1];
      assert ds == most + [last];
      assert last in ds;
      CursorStays(db, most, source);
      assert ParseDec(Dec(last.sequence)) == last.sequence by { DecRoundTrip(last.sequence); }
    }
  }

  lemma NoStoredEventIsPast(events: map<string, EventRow>, cursors: map<string, CursorRow>)
    requires CursorsAgree(events, cursors)
    ensures forall e {:trigger e in events} | e in events :: NotPast(events[e], cursors)
  {
  }

  /** A top delivery that comes first decides the cursor row. */
  lemma {:induction false} FirstTopWins(db: Db, ds: seq<Call>, source: string, d: Call)
    requires Deliveries(ds) && Agreeing(db.events, ds) && Top(db, ds, source, d)
    requires CursorsAgree(db.events, db.cursors)
    ensures CursorRowOf(Run(db, [d] + ds), source) == Some(CursorRow(Dec(d.sequence), d.block))
    ensures Deliveries([d] + ds) && SameMembers([d] + ds, ds)
  {
    hide ParseDec, Dec, Run;
    var db1 := Step(db, d).db;
    assert ParseDec(Dec(d.sequence)) == d.sequence by { DecRoundTrip(d.sequence); }
    NoStoredEventIsPast(db.events, db.cursors);
    assert d.event !in db.events;
    RunInTwoParts(db, [d], ds);
    RunOne(db, d);
    CursorStays(db1, ds, source);
  }

  /** If some delivery of the source is past the cursor, there is a top one. */
  lemma {:induction false} SomeTop(db: Db, ds: seq<Call>, source: string, d: Call)
    requires Deliveries(ds) && d in ds && d.source == source
    requires source in db.cursors ==> d.sequence > ParseDec(db.cursors[source].sequence)
    ensures exists t :: t in ds && Top(db, ds, source, t)
  {
    hide ParseDec;
    var t := Highest(ds, source, d);
    assert Top(db, ds, source, t);
  }

  lemma {:induction false} Highest(ds: seq<Call>, source: string, d: Call) returns (t: Call)
    requires Deliveries(ds) && d in ds && d.source == source
    ensures t in ds && t.source == source && forall e | e in ds && e.source == source :: e.sequence <= t.sequence
  {
    t := d;
    var i := 0;
    while i < |ds|
      invariant i <= |ds| && t in ds && t.source == source && d.sequence <= t.sequence
      invariant forall k | 0 <= k < i && ds[k].Ingest? && ds[k].source == source :: ds[k].sequence <= t.sequence
    {
      assert ds[i] in ds;
      if ds[i].source == source && ds[i].sequence > t.sequence { t := ds[i]; }
      i := i + 1;
    }
  }

  /** The final cursor stands at a top delivery, if there is one. */
  lemma {:induction false} FinalCursorIsTop(db: Db, ds: seq<Call>, source: string, t: Call) returns (d: Call)
    requires Consistent(db) && Deliveries(ds) && Agreeing(db.events, ds) && Top(db, ds, source, t)
    ensures d in ds && Top(db, ds, source, d)
    ensures CursorRowOf(Run(db, ds), source) == Some(CursorRow(Dec(d.sequence), d.block))
  {
    hide ParseDec, Dec, Run, OneAtATime, EventsPartitioned;
    RunDelivers(db, ds);
    RunKeepsConsistent(db, ds);
    var db' := Run(db, ds);
    assert db'.events[t.event] == RowFor(t);
    assert NotPast(db'.events[t.event], db'.cursors);
    assert ParseDec(Dec(t.sequence)) == t.sequence by { DecRoundTrip(t.sequence); }
    assert AtSomeEvent(db'.events, source, db'.cursors[source]);
    var e :| e in db'.events && StandsAt(db'.events[e], source, db'.cursors[source]);
    NoStoredEventIsPast(db.events, db.cursors);
    assert e !in db.events;
    d :| d in ds && d.event == e;
    assert ParseDec(Dec(d.sequence)) == d.sequence by { DecRoundTrip(d.sequence); }
  }

  /** The block of the cursor, too, is independent of order and repetition if and only if all new
      events at the source's highest sequence carry the same block. */
  lemma {:induction false} CursorRowIndependentIff(db: Db, ds: seq<Call>, source: string)
    requires Consistent(db) && Deliveries(ds) && Agreeing(db.events, ds)
    ensures SameCursorRow(db, ds, source) <==> TopBlocksAgree(db, ds, source)
  {
    hide Run, Consistent, Agreeing, Top, Step, Dec;
    if TopBlocksAgree(db, ds, source) {
      forall xs | Deliveries(xs) && SameMembers(xs, ds)
        ensures CursorRowOf(Run(db, xs), source) == CursorRowOf(Run(db, ds), source)
      {
        SameRowFromAgreement(db, ds, xs, source);
      }
    }
    if SameCursorRow(db, ds, source) {
      forall d, e | d in ds && e in ds && Top(db, ds, source, d) && Top(db, ds, source, e)
        ensures d.block == e.block
      {
        ConsistentCursors(db);
        FirstTopWins(db, ds, source, d);
        FirstTopWins(db, ds, source, e);
        assert CursorRowOf(Run(db, [d] + ds), source) == CursorRowOf(Run(db, ds), source);
        assert CursorRowOf(Run(db, [e] + ds), source) == CursorRowOf(Run(db, ds), source);
      }
    }
  }

  lemma ConsistentCursors(db: Db)
    requires Consistent(db)
    ensures CursorsAgree(db.events, db.cursors)
  {
  }

  lemma AgreeingFollows(events: map<string, EventRow>, xs: seq<Call>, ys: seq<Call>)
    requires Deliveries(xs) && Deliveries(ys) && SameMembers(xs, ys) && Agreeing(events, ys)
    ensures Agreeing(events, xs)
  {
    hide RowFor;
  }

  lemma {:induction false} SameRowFromAgreement(db: Db, ds: seq<Call>, xs: seq<Call>, source: string)
    requires Consistent(db) && Deliveries(ds) && Agreeing(db.events, ds)
    requires Deliveries(xs) && SameMembers(xs, ds) && TopBlocksAgree(db, ds, source)
    ensures CursorRowOf(Run(db, xs), source) == CursorRowOf(Run(db, ds), source)
  {
    hide Run, Dec, ParseDec, Consistent, Agreeing;
    AgreeingFollows(db.events, xs, ds);
    if t :| t in ds && Top(db, ds, source, t) {
      var d := FinalCursorIsTop(db, ds, source, t);
      assert Top(db, xs, source, t);
      var e := FinalCursorIsTop(db, xs, source, t);
      assert Top(db, ds, source, e);
      assert d.sequence == e.sequence && d.block == e.block;
    } else if source in db.cursors {
      forall d | d in ds && d.source == source ensures d.sequence <= ParseDec(db.cursors[source].sequence) {
        if d.sequence > ParseDec(db.cursors[source].sequence) { SomeTop(db, ds, source, d); }
      }
      CursorStays(db, ds, source);
      CursorStays(db, xs, source);
    } else {
      forall d | d in ds ensures d.source != source {
        if d.source == source { SomeTop(db, ds, source, d); }
      }
      NoCursorWithoutEvents(db, ds, source);
      NoCursorWithoutEvents(db, xs, source);
    }
  }

  lemma {:induction false} NoCursorWithoutEvents(db: Db, ds: seq<Call>, source: string)
    requires Deliveries(ds) && source !in db.cursors && forall d | d in ds :: d.source != source
    ensures source !in Run(db, ds).cursors
  {
    hide ParseDec, Dec;
    if ds != [] {
      assert ds[|ds| - 1] in ds;
      NoCursorWithoutEvents(db, ds[..|ds| - 1], source);
    }
  }

  /** The block does depend on the order when two events share the highest sequence. */
  lemma CursorBlockMayDependOnOrder()
    ensures var d, e := Ingest("vault", "a", 7, 1, ""), Ingest("vault", "b", 7, 2, "");
            && CursorRowOf(Run(EMPTY, [d, e]), "vault") == Some(CursorRow(Dec(7), 1))
            && CursorRowOf(Run(EMPTY, [e, d]), "vault") == Some(CursorRow(Dec(7), 2))
  {
    var d, e := Ingest("vault", "a", 7, 1, ""), Ingest("vault", "b", 7, 2, "");
    assert [d, e][..1] == [d] && [e, d][..1] == [e];
    RunOne(EMPTY, d);
    RunOne(EMPTY, e);
    DecRoundTrip(7);
  }
}
