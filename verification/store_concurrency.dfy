/** What any number of processes, crashes and storage errors can bring about: nothing that the
    completed calls, one at a time, would not. */
module StoreConcurrency {
  import opened PyText
  import opened StoreTables
  import opened StoreInvariants
  import opened StoreTheorems
  import opened StoreProcesses

  /** In every reachable state the file is the result of the completed calls run one at a time in
      the order of completion, every returned value is the one that run gives, at a place of its own
      and not before the call was made. */
  lemma EveryHistoryIsSerial(actions: seq<Action>)
    ensures var s := History(START, actions);
            && s.committed == Run(EMPTY, Calls(s.log))
            && Explained(s.log)
            && (forall r | r in s.returned :: r.since <= r.index < |s.log| && s.log[r.index] == r.entry)
            && (forall i, j | 0 <= i < j < |s.returned| :: s.returned[i].index != s.returned[j].index)
  {
    hide Run, Explained, History;
    HistoryIsSound(actions);
    var s := History(START, actions);
    assert ReturnsPlaced(s) && ReturnsDistinct(s);
    forall r | r in s.returned ensures r.since <= r.index < |s.log| && s.log[r.index] == r.entry {
      assert Placed(s.log, r.index, r.since, r.entry);
    }
  }

  /** Every state that is ever committed satisfies all the relations between the tables. */
  lemma EveryCommittedStateIsConsistent(actions: seq<Action>)
    ensures Consistent(History(START, actions).committed)
  {
    HistoryIsSound(actions);
    ReachableIsConsistent(Calls(History(START, actions).log));
  }

  /** Nothing but a commit changes the file: calls that have not completed leave no trace. */
  lemma {:induction false} UnfinishedCallsLeaveNoTrace(s: System, actions: seq<Action>)
    requires forall a | a in actions :: !a.Close?
    ensures History(s, actions).committed == s.committed
  {
    if actions != [] {
      hide Executed;
      var most := actions[..|actions| - 1];
      forall a | a in most ensures !a.Close? { assert a in actions; }
      UnfinishedCallsLeaveNoTrace(s, most);
      assert actions[|actions| - 1] in actions;
    }
  }

  /** The run of a log, cut after its entry `j`. */
  lemma {:induction false} RunAround(log: seq<Entry>, j: nat, k: nat)
    requires j < k <= |log|
    ensures Run(EMPTY, Calls(log[..k])) ==
            Run(Step(Run(EMPTY, Calls(log[..j])), log[j].call).db, Calls(log[j + 1..k]))
  {
    hide Step, Run;
    var before, between := Run(EMPTY, Calls(log[..j])), Calls(log[j + 1..k]);
    assert Calls(log[..k]) == Calls(log[..j]) + ([log[j].call] + between);
    RunInTwoParts(EMPTY, Calls(log[..j]), [log[j].call] + between);
    RunInTwoParts(before, [log[j].call], between);
    RunOne(before, log[j].call);
  }

  lemma ReplyAt(log: seq<Entry>, k: nat)
    requires Explained(log) && k < |log|
    ensures log[k].reply == Step(Run(EMPTY, Calls(log[..k])), log[k].call).reply
  {
  }

  lemma DoubtLatches(db: Db, c: Call)
    requires c.Finish? && c.outcome == "indeterminate" && Step(db, c).reply == Done
    ensures Step(db, c).db.latch.Some?
  {
  }

  /** However the processes interleave, an event is granted to at most one reservation. */
  lemma {:induction false} EventGrantedOnceByAllProcesses(actions: seq<Action>, j: nat, k: nat, event: string)
    requires var log := History(START, actions).log;
             && j < k < |log|
             && log[j].call.Reserve? && event in log[j].call.events && log[j].reply == Flag(true)
             && log[k].call.Reserve? && event in log[k].call.events
    ensures History(START, actions).log[k].reply != Flag(true)
  {
    hide Step, Run, History, Explained, Calls;
    HistoryIsSound(actions);
    var log := History(START, actions).log;
    ReachableIsConsistent(Calls(log[..j]));
    ReplyAt(log, j);
    ReplyAt(log, k);
    RunAround(log, j, k);
    EventGrantedOnce(Run(EMPTY, Calls(log[..j])), log[j].call, Calls(log[j + 1..k]), log[k].call, event);
  }

  /** However the processes interleave, no reservation is granted once an intent was in doubt. */
  lemma {:induction false} NoGrantAfterDoubt(actions: seq<Action>, j: nat, k: nat)
    requires var log := History(START, actions).log;
             && j < k < |log|
             && log[j].call.Finish? && log[j].call.outcome == "indeterminate" && log[j].reply == Done
             && log[k].call.Reserve?
    ensures History(START, actions).log[k].reply != Flag(true)
  {
    hide Step, Run, History, Explained, Calls, Possible;
    HistoryIsSound(actions);
    var log := History(START, actions).log;
    var before, c := Run(EMPTY, Calls(log[..j])), log[k].call;
    ReachableIsConsistent(Calls(log[..j]));
    ReplyAt(log, j);
    ReplyAt(log, k);
    DoubtLatches(before, log[j].call);
    EveryStepIsAChange(before, log[j].call);
    ChangeKeepsConsistent(before, ChangeOf(before, log[j].call));
    RunAround(log, j, k);
    LatchIsPermanent(Step(before, log[j].call).db, Calls(log[j + 1..k]), c.intent, c.incident, c.events);
    assert c == Reserve(c.intent, c.incident, c.events);
  }
}
