/** What keeps the system of processes going: a call that nobody disturbs is carried out, committed
    and answered; a reader never waits for a writer; and a crash or an error frees the file. */
module StoreProgress {
  import opened PyText
  import opened StoreTables
  import opened StoreProcesses

  /** The statements, one after the other, that take a transaction to its end. */
  function Statements(c: Call, p: Point, db: Db, process: nat): seq<Action>
    requires Writes(c)
    decreases Left(c, p)
  {
    if p.Over? then []
    else
      StatementsRunOut(c, p, db);
      var (next, db') := Executed(c, p, db);
      [Execute(process)] + Statements(c, next, db', process)
  }

  lemma {:induction false} StatementsOnlyExecute(c: Call, p: Point, db: Db, process: nat)
    requires Writes(c)
    ensures forall a | a in Statements(c, p, db, process) :: a == Execute(process)
    decreases Left(c, p)
  {
    hide Executed;
    if !p.Over? {
      StatementsRunOut(c, p, db);
      StatementsOnlyExecute(c, Executed(c, p, db).0, Executed(c, p, db).1, process);
    }
  }

  /** An undisturbed call: a writer takes the lock, executes its statements, and commits or rolls
      back; everybody else is answered at once. */
  function Undisturbed(c: Call, db: Db, process: nat): seq<Action> {
    [Invoke(process, c), Open(process)]
    + (if Writes(c) then Statements(c, Opened, db, process) + [Close(process)] else [])
    + [Answer(process)]
  }

  lemma {:induction false} HistoryInTwoParts(s: System, a: seq<Action>, b: seq<Action>)
    ensures History(s, a + b) == History(History(s, a), b)
  {
    hide After;
    if b == [] {
      assert a + b == a;
    } else {
      assert (a + b)[..|a + b| - 1] == a + b[..|b| - 1];
      HistoryInTwoParts(s, a, b[..|b| - 1]);
    }
  }

  lemma OneAction(s: System, a: Action)
    ensures History(s, [a]) == After(s, a)
  {
    hide After;
    assert [a][..0] == [];
  }

  /** The state while `process` stands at `point` with working copy `work`. */
  function Amid(s: System, process: nat, c: Call, since: nat, point: Point, work: Db): System {
    Becomes(s, process, Inside(c, since, point, work))
  }

  lemma {:induction false} StatementsReachTheEnd(s: System, process: nat, c: Call, since: nat, point: Point, work: Db)
    returns (end: Point)
    requires Writes(c)
    ensures end == Over(Rest(c, point, work).reply)
    ensures History(Amid(s, process, c, since, point, work), Statements(c, point, work, process)) ==
            Amid(s, process, c, since, end, Rest(c, point, work).db)
    decreases Left(c, point)
  {
    hide Executed;
    var here := Amid(s, process, c, since, point, work);
    if point.Over? {
      end := point;
    } else {
      StatementsRunOut(c, point, work);
      var (next, work') := Executed(c, point, work);
      var rest := Statements(c, next, work', process);
      end := StatementsReachTheEnd(s, process, c, since, next, work');
      HistoryInTwoParts(here, [Execute(process)], rest);
      OneAction(here, Execute(process));
      assert After(here, Execute(process)) == Amid(s, process, c, since, next, work') by {
        assert here.processes[process := Inside(c, since, next, work')] == s.processes[process := Inside(c, since, next, work')];
      }
    }
  }

  /** Whoever holds the lock can go on to its end from any reachable state: then the file is that of
      the completed call, with its reply, and the lock is free. */
  lemma {:induction false} HolderCanComplete(s: System, process: nat)
    requires Sound(s) && Now(s, process).Inside?
    ensures var Inside(c, since, point, work) := Now(s, process);
            var end := History(s, Statements(c, point, work, process) + [Close(process)]);
            var e := Step(s.committed, c);
            && end.lock == None && end.committed == e.db && end.log == s.log + [Entry(c, e.reply)]
            && Now(end, process) == Answering(c, since, e.reply, |s.log|)
  {
    hide Executed, Step, Rest, Statements, Explained, ReturnsPlaced, ReturnsDistinct, Run;
    var Inside(c, since, point, work) := Now(s, process);
    assert OnTrack(s.committed, s.processes[process]);
    assert s == Amid(s, process, c, since, point, work) by {
      assert s.processes[process := s.processes[process]] == s.processes;
    }
    var over := StatementsReachTheEnd(s, process, c, since, point, work);
    var ops := Statements(c, point, work, process);
    HistoryInTwoParts(s, ops, [Close(process)]);
    OneAction(History(s, ops), Close(process));
  }

  /** In any reachable state a crash or a storage error of the process that holds the lock frees it
      and leaves the file as it was. */
  lemma StoppingFreesTheFile(s: System, process: nat, a: Action)
    requires Sound(s) && s.lock == Some(process) && a in {Crash(process), Fail(process)}
    ensures After(s, a).lock == None && After(s, a).committed == s.committed && Now(After(s, a), process) == Idle
    ensures After(s, a).log == s.log
  {
    hide Executed, Step, Rest, Explained, ReturnsPlaced, ReturnsDistinct, Run;
    assert s.processes[process].Inside?;
  }

  lemma AnswerReturns(s: System, process: nat)
    requires Now(s, process).Answering?
    ensures var Answering(c, since, reply, index) := Now(s, process); var end := After(s, Answer(process));
            && end.committed == s.committed && end.lock == s.lock && end.log == s.log
            && end.returned == s.returned + [Return(index, since, Entry(c, reply))]
  {
  }

  /** The call up to, but without, its answer. */
  lemma {:induction false} EveryCallCanBeDone(s: System, process: nat, c: Call)
    requires Sound(s) && Now(s, process).Idle? && (Writes(c) ==> s.lock == None)
    ensures var ops := Undisturbed(c, s.committed, process);
            var done, e := History(s, ops[..|ops| - 1]), Step(s.committed, c);
            && done.committed == e.db && done.lock == s.lock && done.returned == s.returned
            && done.log == s.log + [Entry(c, e.reply)]
            && Now(done, process) == Answering(c, |s.log|, e.reply, |s.log|)
  {
    hide Executed, Step, Rest, Statements, Sound, Run;
    var s1 := After(s, Invoke(process, c));
    var s2 := After(s1, Open(process));
    TwoActions(s, Invoke(process, c), Open(process));
    var start, middle := [Invoke(process, c), Open(process)],
                         if Writes(c) then Statements(c, Opened, s.committed, process) + [Close(process)] else [];
    var ops := Undisturbed(c, s.committed, process);
    assert ops[..|ops| - 1] == start + middle;
    HistoryInTwoParts(s, start, middle);
    ActionKeepsSound(s, Invoke(process, c));
    ActionKeepsSound(s1, Open(process));
    if Writes(c) {
      HolderCanComplete(s2, process);
      StatementsOnlyExecute(c, Opened, s.committed, process);
      NothingReturned(s2, middle);
    } else {
      OneStepAnswers(s.committed, c);
      assert History(s2, middle) == s2;
    }
  }

  lemma {:induction false} NothingReturned(s: System, actions: seq<Action>)
    requires forall a | a in actions :: !a.Answer?
    ensures History(s, actions).returned == s.returned
  {
    hide Executed;
    if actions != [] {
      var most := actions[..|actions| - 1];
      forall a | a in most ensures a in actions {}
      NothingReturned(s, most);
      assert actions[|actions| - 1] in actions;
    }
  }

  /** From any reachable state in which nobody holds the lock, or the call is no writer's, an idle
      process can make any call: it takes effect in one step and its reply is returned. */
  lemma {:induction false} EveryCallCanComplete(s: System, process: nat, c: Call)
    requires Sound(s) && Now(s, process).Idle? && (Writes(c) ==> s.lock == None)
    ensures var end, e := History(s, Undisturbed(c, s.committed, process)), Step(s.committed, c);
            && end.committed == e.db && end.lock == s.lock
            && end.log == s.log + [Entry(c, e.reply)]
            && end.returned == s.returned + [Return(|s.log|, |s.log|, Entry(c, e.reply))]
  {
    hide Executed, Step, Statements, Sound, Undisturbed, After;
    var ops := Undisturbed(c, s.committed, process);
    EveryCallCanBeDone(s, process, c);
    UndisturbedEnds(c, s.committed, process);
    AnswerReturns(History(s, ops[..|ops| - 1]), process);
  }

  lemma UndisturbedEnds(c: Call, db: Db, process: nat)
    ensures var ops := Undisturbed(c, db, process); ops != [] && ops[|ops| - 1] == Answer(process)
  {
    hide Executed, Statements;
  }

  lemma TwoActions(s: System, a: Action, b: Action)
    ensures History(s, [a, b]) == After(After(s, a), b)
  {
    hide After;
    assert [a, b][..1] == [a];
    OneAction(s, a);
  }
}
