/** The event log of the two contracts as the whole truth: who may act, what succeeds, what it logs
    and why it reverts follow from the owner and the log alone. */
module ContractLog {
  import opened Counting
  import opened Contracts

  // ---- the state of both contracts, read off the log ----

  /** The keepers, replayed from the log. */
  function KeepersOf(log: seq<Event>): set<Address> {
    if log == [] then {}
    else
      var before, e := KeepersOf(log[..|log| - 1]), log[|log| - 1];
      if !e.KeeperUpdated? then before
      else if e.allowed then before + {e.keeper} else before - {e.keeper}
  }

  /** Some pause in the log used this reference. */
  predicate Used(log: seq<Event>, incident: Word) {
    exists i :: 0 <= i < |log| && log[i].Paused? && log[i].incident == incident
  }

  /** More pauses than unpauses are logged. */
  predicate PausedNow(log: seq<Event>) {
    Pauses(log) > Unpauses(log)
  }

  function CreditOf(log: seq<Event>, account: Address): nat {
    Credit(Replayed(log), account)
  }

  // ---- what a transaction does, by the log ----

  predicate Payable(log: seq<Event>, account: Address, amount: Uint256) {
    !PausedNow(log) && 0 < amount <= CreditOf(log, account)
  }

  predicate Allowed(owner: Address, log: seq<Event>, sender: Address, call: Call) {
    match call
    case SetKeeper(keeper, allowed) => sender == owner && keeper != 0 && (allowed ==> keeper != owner)
    case Pause(incident, severity) =>
      sender in KeepersOf(log) && incident != 0 && severity in {1, 2, 3} && !Used(log, incident) && !PausedNow(log)
    case Unpause(reason) => sender == owner && reason != 0 && PausedNow(log)
    case FaucetCredit(account, amount) =>
      account != 0 && amount > 0 && CreditOf(log, account) + amount <= MAX_UINT256
    case Withdraw(amount) => Payable(log, sender, amount)
    case UnsafeWithdrawFrom(account, amount) => Payable(log, account, amount)
  }

  /** The log entry `e` is what this transaction says, and a withdrawal leaves what it does not take. */
  predicate Logs(log: seq<Event>, sender: Address, call: Call, e: Event) {
    match call
    case SetKeeper(keeper, allowed) => e == KeeperUpdated(keeper, allowed)
    case Pause(incident, severity) => e == Paused(incident, severity, sender)
    case Unpause(reason) => e == Unpaused(reason, sender)
    case FaucetCredit(account, amount) => e == Issued(account, amount)
    case Withdraw(amount) =>
      e.Withdrawn? && e == Withdrawn(sender, sender, sender, amount, e.remaining)
      && e.remaining + amount == CreditOf(log, sender)
    case UnsafeWithdrawFrom(account, amount) =>
      e.Withdrawn? && e == Withdrawn(account, sender, sender, amount, e.remaining)
      && e.remaining + amount == CreditOf(log, account)
  }

  /** The requirement named by the reason is one the transaction violates. */
  predicate Violates(owner: Address, log: seq<Event>, sender: Address, call: Call, why: Revert) {
    match why
    case UnauthorizedOwner(caller) => (call.SetKeeper? || call.Unpause?) && caller == sender != owner
    case UnauthorizedKeeper(caller) => call.Pause? && caller == sender && sender !in KeepersOf(log)
    case InvalidReference => (call.Pause? && call.incident == 0) || (call.Unpause? && call.reason == 0)
    case InvalidSeverity(severity) => call.Pause? && severity == call.severity && severity !in {1, 2, 3}
    case DuplicateIncidentReference(incident) => call.Pause? && incident == call.incident && Used(log, incident)
    case AlreadyPaused => call.Pause? && PausedNow(log)
    case NotPaused => call.Unpause? && !PausedNow(log)
    case InvalidAddress => (call.SetKeeper? && call.keeper == 0) || (call.FaucetCredit? && call.account == 0)
    case RolesMustDiffer => call.SetKeeper? && call.allowed && call.keeper == owner
    case ArithmeticPanic => call.FaucetCredit? && CreditOf(log, call.account) + call.amount > MAX_UINT256
    case GuardianPaused => (call.Withdraw? || call.UnsafeWithdrawFrom?) && PausedNow(log)
    case InvalidAmount => (call.Withdraw? || call.UnsafeWithdrawFrom? || call.FaucetCredit?) && call.amount == 0
    case InsufficientDemoCredit(available, requested) =>
      && (call.Withdraw? || call.UnsafeWithdrawFrom?) && requested == call.amount
      && available == CreditOf(log, if call.Withdraw? then sender else call.account) < requested
  }

  // ---- the state is what the log says ----

  ghost predicate ShowsLog(c: Chain) {
    && c.keepers == KeepersOf(c.log)
    && (forall x :: x in c.used <==> Used(c.log, x))
    && (c.paused <==> PausedNow(c.log))
    && c.credits == Replayed(c.log)
    && InRange(c)
  }

  lemma {:induction false} NextEntry(log: seq<Event>, e: Event)
    ensures KeepersOf(log + [e]) ==
            if !e.KeeperUpdated? then KeepersOf(log)
            else if e.allowed then KeepersOf(log) + {e.keeper} else KeepersOf(log) - {e.keeper}
    ensures forall x :: Used(log + [e], x) <==> Used(log, x) || (e.Paused? && e.incident == x)
  {
    var log' := log + [e];
    assert log'[..|log|] == log;
    forall x ensures Used(log', x) <==> Used(log, x) || (e.Paused? && e.incident == x) {
      if Used(log, x) {
        var i :| 0 <= i < |log| && log[i].Paused? && log[i].incident == x;
        assert log'[i] == log[i];
      }
      assert log'[|log|] == e;
    }
  }

  lemma {:induction false} TransactionShowsLog(c: Chain, sender: Address, call: Call)
    requires InRange(c) && ShowsLog(c) && LedgerAgrees(c) && PausesAgree(c)
    ensures ShowsLog(Transact(c, sender, call).0)
  {
    hide KeepersOf, Used, Replayed, PausedNow, LedgerAgrees, PausesAgree;
    var c' := Transact(c, sender, call).0;
    TransactionKeepsLedger(c, sender, call);
    TransactionKeepsPauses(c, sender, call);
    AgreedState(c');
    if c'.log != c.log {
      var e := c'.log[|c.log|];
      assert c'.log == c.log + [e];
      NextEntry(c.log, e);
    }
  }

  lemma AgreedState(c: Chain)
    requires LedgerAgrees(c) && PausesAgree(c)
    ensures InRange(c) && c.credits == Replayed(c.log) && (c.paused <==> PausedNow(c.log))
  {
    hide Replayed, Total, Pauses, Unpauses, Covered, Guarded, PauseShows, IssuedTotal, WithdrawnTotal;
  }

  /** In every state ever reached the owner is the deployed one and all storage is what the log says. */
  lemma {:induction false} StateIsTheLog(owner: Address, keeper: Address, calls: seq<(Address, Call)>)
    requires owner != keeper
    ensures ShowsLog(Reached(owner, keeper, calls)) && Reached(owner, keeper, calls).owner == owner
  {
    hide Transact, ShowsLog, LedgerAgrees, PausesAgree;
    if calls == [] {
      DeploymentShowsLog(owner, keeper);
    } else {
      var most := calls[..|calls| - 1];
      var (sender, call) := calls[|calls| - 1];
      var c := Reached(owner, keeper, most);
      StateIsTheLog(owner, keeper, most);
      RunAgrees(owner, keeper, most);
      TransactionShowsLog(c, sender, call);
      OwnerStays(c, sender, call);
    }
  }

  lemma OwnerStays(c: Chain, sender: Address, call: Call)
    requires InRange(c)
    ensures Transact(c, sender, call).0.owner == c.owner
  {
  }

  lemma DeploymentShowsLog(owner: Address, keeper: Address)
    requires owner != keeper
    ensures ShowsLog(Deployed(owner, keeper))
  {
    hide Credit;
    var log := [KeeperUpdated(keeper, true)];
    assert log == [] + [log[0]];
    NextEntry([], log[0]);
    LogNext([], log[0]);
  }

  /** The log alone decides every transaction: it succeeds if and only if it is allowed, and then adds
      one entry that says what was done; otherwise nothing changes, and the reason given is a
      requirement that was violated. */
  lemma {:induction false} LogDecidesTransaction(
    owner: Address, keeper: Address, calls: seq<(Address, Call)>, sender: Address, call: Call)
    requires owner != keeper
    ensures var c := Reached(owner, keeper, calls); var (c', r) := Transact(c, sender, call);
            if Allowed(owner, c.log, sender, call) then
              r == Success && |c'.log| == |c.log| + 1 && c.log <= c'.log && Logs(c.log, sender, call, c'.log[|c.log|])
            else
              c' == c && r.Reverted? && Violates(owner, c.log, sender, call, r.why)
  {
    hide Reached, KeepersOf, Used, Replayed, Pauses, Unpauses, PausedNow;
    StateIsTheLog(owner, keeper, calls);
  }

  // ---- authority over whole runs ----

  /** Who sent the transaction behind each log entry; the first comes from the deployment. */
  function Senders(owner: Address, keeper: Address, calls: seq<(Address, Call)>): seq<Address> {
    if calls == [] then [owner]
    else
      var most := calls[..|calls| - 1];
      Senders(owner, keeper, most) +
      if Reached(owner, keeper, calls).log == Reached(owner, keeper, most).log then [] else [calls[|calls| - 1].0]
  }

  /** The entry at `i` was sent by somebody entitled to it, and names the sender. */
  predicate Entitled(owner: Address, log: seq<Event>, i: nat, sender: Address)
    requires i < |log|
  {
    match log[i]
    case KeeperUpdated(_, _) => sender == owner
    case Unpaused(_, named) => named == sender == owner
    case Paused(_, _, named) => named == sender && sender in KeepersOf(log[..i])
    case Withdrawn(_, recipient, named, _, _) => recipient == named == sender
    case Issued(_, _) => true
  }

  lemma {:induction false} EntitledNext(owner: Address, log: seq<Event>, e: Event, senders: seq<Address>, sender: Address)
    requires |senders| == |log| && forall i: nat | i < |log| :: Entitled(owner, log, i, senders[i])
    requires Entitled(owner, log + [e], |log|, sender)
    ensures forall i: nat | i < |log| + 1 :: Entitled(owner, log + [e], i, (senders + [sender])[i])
  {
    hide KeepersOf;
    var log' := log + [e];
    forall i: nat | i < |log'| ensures Entitled(owner, log', i, (senders + [sender])[i]) {
      if i < |log| {
        assert log'[..i] == log[..i];
        assert Entitled(owner, log, i, senders[i]);
      }
    }
  }

  /** Over all runs: only the owner sets keepers and unpauses, only an address the log then shows as
      keeper pauses, and whoever triggers a withdrawal receives it. */
  lemma {:induction false} EveryEntryIsEntitled(owner: Address, keeper: Address, calls: seq<(Address, Call)>)
    requires owner != keeper
    ensures var log, senders := Reached(owner, keeper, calls).log, Senders(owner, keeper, calls);
            |senders| == |log| && forall i: nat | i < |log| :: Entitled(owner, log, i, senders[i])
  {
    hide Transact, Allowed, Violates, KeepersOf;
    if calls != [] {
      var most := calls[..|calls| - 1];
      var (sender, call) := calls[|calls| - 1];
      var log, senders := Reached(owner, keeper, most).log, Senders(owner, keeper, most);
      EveryEntryIsEntitled(owner, keeper, most);
      LogDecidesTransaction(owner, keeper, most, sender, call);
      if Allowed(owner, log, sender, call) {
        var e := Reached(owner, keeper, calls).log[|log|];
        assert Reached(owner, keeper, calls).log == log + [e];
        assert (log + [e])[..|log|] == log;
        AllowedIsEntitled(owner, log, sender, call, e);
        EntitledNext(owner, log, e, senders, sender);
      }
    }
  }

  lemma AllowedIsEntitled(owner: Address, log: seq<Event>, sender: Address, call: Call, e: Event)
    requires Allowed(owner, log, sender, call) && Logs(log, sender, call, e)
    ensures Entitled(owner, log + [e], |log|, sender)
  {
    hide KeepersOf, Used, Replayed, PausedNow;
    assert (log + [e])[..|log|] == log;
  }

  /** The keepers are those the log shows; an owner who is no keeper never becomes one. */
  lemma KeepersAreLogged(owner: Address, keeper: Address, calls: seq<(Address, Call)>)
    requires owner != keeper
    ensures var c := Reached(owner, keeper, calls); c.keepers == KeepersOf(c.log) && owner !in KeepersOf(c.log)
  {
    hide Reached, KeepersOf, LedgerAgrees;
    StateIsTheLog(owner, keeper, calls);
    RunAgrees(owner, keeper, calls);
  }
}
