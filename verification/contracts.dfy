/** The two contracts, Guardian and DemoVault, their storage and the event log they share. */
module Contracts {
  import opened Counting

  /** The largest 256-bit unsigned integer. */
  const MAX_UINT256: nat := 0x1_00000000_00000000_00000000_00000000_00000000_00000000_00000000_00000000 - 1

  /** Addresses and 32-byte words as numbers; zero is the zero address and the zero word. */
  type Address = nat
  type Word = nat
  type Uint256 = n: nat | n <= MAX_UINT256

  datatype Event =
    | KeeperUpdated(keeper: Address, allowed: bool)
    | Paused(incident: Word, severity: nat, keeper: Address)
    | Unpaused(reason: Word, owner: Address)
    | Issued(account: Address, amount: Uint256)
    | Withdrawn(account: Address, recipient: Address, triggeredBy: Address, amount: Uint256, remaining: Uint256)

  datatype Revert =
    | AlreadyPaused | DuplicateIncidentReference(incident: Word) | InvalidAddress | InvalidReference
    | InvalidSeverity(severity: nat) | NotPaused | RolesMustDiffer
    | UnauthorizedKeeper(caller: Address) | UnauthorizedOwner(caller: Address)
    | GuardianPaused | InsufficientDemoCredit(available: Uint256, requested: Uint256) | InvalidAmount
    | ArithmeticPanic

  datatype Result = Success | Reverted(why: Revert)

  /** The storage of both contracts and the log. */
  datatype Chain = Chain(
    owner: Address, paused: bool, keepers: set<Address>, used: set<Word>,
    credits: map<Address, nat>, log: seq<Event>)

  datatype Call =
    | SetKeeper(keeper: Address, allowed: bool)
    | Pause(incident: Word, severity: nat)
    | Unpause(reason: Word)
    | FaucetCredit(account: Address, amount: Uint256)
    | Withdraw(amount: Uint256)
    | UnsafeWithdrawFrom(account: Address, amount: Uint256)

  function Credit(credits: map<Address, nat>, account: Address): nat {
    if account in credits then credits[account] else 0
  }

  function Withdrawing(c: Chain, sender: Address, account: Address, amount: Uint256): (Chain, Result)
    requires Credit(c.credits, account) <= MAX_UINT256
  {
    var available := Credit(c.credits, account);
    if c.paused then (c, Reverted(GuardianPaused))
    else if amount == 0 then (c, Reverted(InvalidAmount))
    else if amount > available then (c, Reverted(InsufficientDemoCredit(available, amount)))
    else
      (c.(credits := c.credits[account := available - amount],
          log := c.log + [Withdrawn(account, sender, sender, amount, available - amount)]), Success)
  }

  predicate InRange(c: Chain) {
    forall account | account in c.credits :: c.credits[account] <= MAX_UINT256
  }

  /** One transaction; a reverted one changes nothing. */
  function Transact(c: Chain, sender: Address, call: Call): (Chain, Result)
    requires InRange(c)
  {
    match call
    case SetKeeper(keeper, allowed) =>
      if sender != c.owner then (c, Reverted(UnauthorizedOwner(sender)))
      else if keeper == 0 then (c, Reverted(InvalidAddress))
      else if keeper == c.owner && allowed then (c, Reverted(RolesMustDiffer))
      else
        (c.(keepers := if allowed then c.keepers + {keeper} else c.keepers - {keeper},
            log := c.log + [KeeperUpdated(keeper, allowed)]), Success)
    case Pause(incident, severity) =>
      if sender !in c.keepers then (c, Reverted(UnauthorizedKeeper(sender)))
      else if incident == 0 then (c, Reverted(InvalidReference))
      else if severity == 0 || severity > 3 then (c, Reverted(InvalidSeverity(severity)))
      else if incident in c.used then (c, Reverted(DuplicateIncidentReference(incident)))
      else if c.paused then (c, Reverted(AlreadyPaused))
      else
        (c.(used := c.used + {incident}, paused := true,
            log := c.log + [Paused(incident, severity, sender)]), Success)
    case Unpause(reason) =>
      if sender != c.owner then (c, Reverted(UnauthorizedOwner(sender)))
      else if reason == 0 then (c, Reverted(InvalidReference))
      else if !c.paused then (c, Reverted(NotPaused))
      else (c.(paused := false, log := c.log + [Unpaused(reason, sender)]), Success)
    case FaucetCredit(account, amount) =>
      if account == 0 then (c, Reverted(InvalidAddress))
      else if amount == 0 then (c, Reverted(InvalidAmount))
      else if Credit(c.credits, account) + amount > MAX_UINT256 then (c, Reverted(ArithmeticPanic))
      else
        (c.(credits := c.credits[account := Credit(c.credits, account) + amount],
            log := c.log + [Issued(account, amount)]), Success)
    case Withdraw(amount) => Withdrawing(c, sender, sender, amount)
    case UnsafeWithdrawFrom(account, amount) => Withdrawing(c, sender, account, amount)
  }

  // ---- the contracts as objects ----

  class EventLog {
    var entries: seq<Event>

    constructor ()
      ensures entries == []
    {
      entries := [];
    }

    method Emit(e: Event)
      modifies this
      ensures entries == old(entries) + [e]
    {
      entries := entries + [e];
    }
  }

  class Guardian {
    const owner: Address
    const log: EventLog
    var paused: bool
    var keepers: set<Address>
    var used: set<Word>

    constructor (owner: Address, keeper: Address, log: EventLog)
      requires owner != 0 && keeper != 0 && owner != keeper
      modifies log
      ensures this.owner == owner && this.log == log && !paused && keepers == {keeper} && used == {}
      ensures log.entries == old(log.entries) + [KeeperUpdated(keeper, true)]
      ensures old(log.entries) == [] ==> Storage(map[]) == Deployed(owner, keeper)
    {
      this.owner, this.log, paused, keepers, used := owner, log, false, {keeper}, {};
      new;
      log.Emit(KeeperUpdated(keeper, true));
    }

    function Storage(credits: map<Address, nat>): Chain
      reads this, log
    {
      Chain(owner, paused, keepers, used, credits, log.entries)
    }

    method SetKeeper(sender: Address, keeper: Address, allowed: bool, ghost credits: map<Address, nat>)
      returns (r: Result)
      requires InRange(Storage(credits))
      modifies this`keepers, log
      ensures (Storage(credits), r) == Transact(old(Storage(credits)), sender, Call.SetKeeper(keeper, allowed))
    {
      if sender != owner { return Reverted(UnauthorizedOwner(sender)); }
      if keeper == 0 { return Reverted(InvalidAddress); }
      if keeper == owner && allowed { return Reverted(RolesMustDiffer); }
      keepers := if allowed then keepers + {keeper} else keepers - {keeper};
      log.Emit(KeeperUpdated(keeper, allowed));
      return Success;
    }

    method Pause(sender: Address, incident: Word, severity: nat, ghost credits: map<Address, nat>)
      returns (r: Result)
      requires InRange(Storage(credits))
      modifies this`used, this`paused, log
      ensures (Storage(credits), r) == Transact(old(Storage(credits)), sender, Call.Pause(incident, severity))
    {
      if sender !in keepers { return Reverted(UnauthorizedKeeper(sender)); }
      if incident == 0 { return Reverted(InvalidReference); }
      if severity == 0 || severity > 3 { return Reverted(InvalidSeverity(severity)); }
      if incident in used { return Reverted(DuplicateIncidentReference(incident)); }
      if paused { return Reverted(AlreadyPaused); }
      used := used + {incident};
      paused := true;
      log.Emit(Paused(incident, severity, sender));
      return Success;
    }

    method Unpause(sender: Address, reason: Word, ghost credits: map<Address, nat>)
      returns (r: Result)
      requires InRange(Storage(credits))
      modifies this`paused, log
      ensures (Storage(credits), r) == Transact(old(Storage(credits)), sender, Call.Unpause(reason))
    {
      if sender != owner { return Reverted(UnauthorizedOwner(sender)); }
      if reason == 0 { return Reverted(InvalidReference); }
      if !paused { return Reverted(NotPaused); }
      paused := false;
      log.Emit(Unpaused(reason, sender));
      return Success;
    }
  }

  class DemoVault {
    const guardian: Guardian
    const log: EventLog
    var credits: map<Address, nat>

    constructor (guardian: Guardian)
      ensures this.guardian == guardian && log == guardian.log && credits == map[]
    {
      this.guardian, this.log, credits := guardian, guardian.log, map[];
    }

    function Storage(): Chain
      reads this, guardian, guardian.log
    {
      guardian.Storage(credits)
    }

    method FaucetCredit(sender: Address, account: Address, amount: Uint256) returns (r: Result)
      requires log == guardian.log && InRange(Storage())
      modifies this`credits, log
      ensures (Storage(), r) == Transact(old(Storage()), sender, Call.FaucetCredit(account, amount))
    {
      if account == 0 { return Reverted(InvalidAddress); }
      if amount == 0 { return Reverted(InvalidAmount); }
      var sum := Credit(credits, account) + amount;
      if sum > MAX_UINT256 { return Reverted(ArithmeticPanic); }
      credits := credits[account := sum];
      log.Emit(Issued(account, amount));
      return Success;
    }

    method Withdraw(sender: Address, amount: Uint256) returns (r: Result)
      requires log == guardian.log && InRange(Storage())
      modifies this`credits, log
      ensures (Storage(), r) == Transact(old(Storage()), sender, Call.Withdraw(amount))
    {
      if guardian.paused { return Reverted(GuardianPaused); }
      r := WithdrawFrom(sender, sender, sender, amount);
    }

    method UnsafeWithdrawFrom(sender: Address, account: Address, amount: Uint256) returns (r: Result)
      requires log == guardian.log && InRange(Storage())
      modifies this`credits, log
      ensures (Storage(), r) == Transact(old(Storage()), sender, Call.UnsafeWithdrawFrom(account, amount))
    {
      if guardian.paused { return Reverted(GuardianPaused); }
      r := WithdrawFrom(account, sender, sender, amount);
    }

    method WithdrawFrom(account: Address, recipient: Address, sender: Address, amount: Uint256) returns (r: Result)
      requires log == guardian.log && InRange(Storage()) && !guardian.paused && recipient == sender
      modifies this`credits, log
      ensures (Storage(), r) == Withdrawing(old(Storage()), sender, account, amount)
    {
      if amount == 0 { return Reverted(InvalidAmount); }
      var available: Uint256 := Credit(credits, account);
      if amount > available { return Reverted(InsufficientDemoCredit(available, amount)); }
      var remaining := available - amount;
      credits := credits[account := remaining];
      log.Emit(Withdrawn(account, recipient, sender, amount, remaining));
      return Success;
    }
  }

  // ---- what the log says ----

  /** A ledger after one more log entry. */
  function Entered(ledger: map<Address, nat>, e: Event): map<Address, nat> {
    match e
    case Issued(account, amount) => ledger[account := Credit(ledger, account) + amount]
    case Withdrawn(account, _, _, amount, _) =>
      ledger[account := if amount <= Credit(ledger, account) then Credit(ledger, account) - amount else 0]
    case _ => ledger
  }

  /** The ledger as the log alone tells it. */
  function Replayed(log: seq<Event>): map<Address, nat> {
    if log == [] then map[]
    else Entered(Replayed(log[..|log| - 1]), log[|log| - 1])
  }

  function IssuedTotal(log: seq<Event>): nat {
    if log == [] then 0
    else IssuedTotal(log[..|log| - 1]) + if log[|log| - 1].Issued? then log[|log| - 1].amount else 0
  }

  function WithdrawnTotal(log: seq<Event>): nat {
    if log == [] then 0
    else WithdrawnTotal(log[..|log| - 1]) + if log[|log| - 1].Withdrawn? then log[|log| - 1].amount else 0
  }

  function Pauses(log: seq<Event>): nat {
    if log == [] then 0 else Pauses(log[..|log| - 1]) + if log[|log| - 1].Paused? then 1 else 0
  }

  function Unpauses(log: seq<Event>): nat {
    if log == [] then 0 else Unpauses(log[..|log| - 1]) + if log[|log| - 1].Unpaused? then 1 else 0
  }

  /** The withdrawal logged at `i` was covered, and its remaining credit is the replayed one. */
  predicate Covered(log: seq<Event>, i: nat)
    requires i < |log|
  {
    log[i].Withdrawn? ==>
      && Credit(Replayed(log[..i]), log[i].account) == log[i].amount + log[i].remaining
      && Credit(Replayed(log[..i + 1]), log[i].account) == log[i].remaining
  }

  /** No withdrawal is logged at `j` after a pause at `i` that was not lifted in between. */
  ghost predicate Guarded(log: seq<Event>, i: nat, j: nat)
    requires i < j < |log|
  {
    log[i].Paused? && log[j].Withdrawn? ==> exists k | i < k < j :: log[k].Unpaused?
  }

  /** After a pause that has not been lifted the guardian is paused. */
  ghost predicate PauseShows(log: seq<Event>, paused: bool) {
    forall i | 0 <= i < |log| && log[i].Paused? :: paused || exists k | i < k < |log| :: log[k].Unpaused?
  }

  ghost predicate LedgerAgrees(c: Chain) {
    && InRange(c)
    && c.credits == Replayed(c.log)
    && Total(c.credits) + WithdrawnTotal(c.log) == IssuedTotal(c.log)
    && (forall i: nat | i < |c.log| :: Covered(c.log, i))
  }

  ghost predicate PausesAgree(c: Chain) {
    && Pauses(c.log) == Unpauses(c.log) + (if c.paused then 1 else 0)
    && |c.used| == Pauses(c.log)
    && c.owner !in c.keepers
    && PauseShows(c.log, c.paused)
    && (forall i: nat, j: nat | i < j < |c.log| :: Guarded(c.log, i, j))
  }

  lemma LogNext(log: seq<Event>, e: Event)
    ensures (log + [e])[..|log|] == log && (log + [e])[|log|] == e
    ensures Pauses(log + [e]) == Pauses(log) + if e.Paused? then 1 else 0
    ensures Unpauses(log + [e]) == Unpauses(log) + if e.Unpaused? then 1 else 0
    ensures IssuedTotal(log + [e]) == IssuedTotal(log) + if e.Issued? then e.amount else 0
    ensures WithdrawnTotal(log + [e]) == WithdrawnTotal(log) + if e.Withdrawn? then e.amount else 0
    ensures Replayed(log + [e]) == Entered(Replayed(log), e)
  {
    assert (log + [e])[..|log|] == log;
  }

  lemma {:induction false} CoveredNext(log: seq<Event>, e: Event)
    requires forall i: nat | i < |log| :: Covered(log, i)
    requires e.Withdrawn? ==> Credit(Replayed(log), e.account) == e.amount + e.remaining
    ensures forall i: nat | i < |log| + 1 :: Covered(log + [e], i)
  {
    var log' := log + [e];
    LogNext(log, e);
    forall i: nat | i < |log'| ensures Covered(log', i) {
      if i < |log| {
        assert log'[..i] == log[..i] && log'[..i + 1] == log[..i + 1];
        assert Covered(log, i);
      } else {
        assert log'[..i + 1] == log';
      }
    }
  }

  lemma {:induction false} TransactionKeepsLedger(c: Chain, sender: Address, call: Call)
    requires LedgerAgrees(c)
    ensures LedgerAgrees(Transact(c, sender, call).0)
  {
    hide Total, Replayed, IssuedTotal, WithdrawnTotal, Covered;
    var c' := Transact(c, sender, call).0;
    if c'.log != c.log {
      var e := c'.log[|c.log|];
      assert c'.log == c.log + [e];
      LogNext(c.log, e);
      CoveredNext(c.log, e);
      if e.Issued? || e.Withdrawn? {
        TotalWith(c.credits, e.account, Credit(c'.credits, e.account));
      }
    }
  }

  lemma {:induction false} GuardedNext(log: seq<Event>, paused: bool, e: Event)
    requires PauseShows(log, paused) && (e.Withdrawn? ==> !paused)
    requires forall i: nat, j: nat | i < j < |log| :: Guarded(log, i, j)
    ensures forall i: nat, j: nat | i < j < |log| + 1 :: Guarded(log + [e], i, j)
    ensures PauseShows(log + [e], if e.Paused? then true else if e.Unpaused? then false else paused)
  {
    var log' := log + [e];
    forall i: nat, j: nat | i < j < |log'| ensures Guarded(log', i, j) {
      if j < |log| {
        assert Guarded(log, i, j);
        if log[i].Paused? && log[j].Withdrawn? {
          var k :| i < k < j && log[k].Unpaused?;
          assert log'[k].Unpaused?;
        }
      } else if log'[i].Paused? && e.Withdrawn? {
        var k :| i < k < |log| && log[k].Unpaused?;
        assert log'[k].Unpaused?;
      }
    }
    forall i | 0 <= i < |log'| && log'[i].Paused?
      ensures (if e.Paused? then true else if e.Unpaused? then false else paused)
              || exists k | i < k < |log'| :: log'[k].Unpaused?
    {
      if e.Unpaused? {
        assert log'[|log|].Unpaused?;
      } else if !e.Paused? && !paused {
        var k :| i < k < |log| && log[k].Unpaused?;
        assert log'[k].Unpaused?;
      }
    }
  }

  lemma {:induction false} TransactionKeepsPauses(c: Chain, sender: Address, call: Call)
    requires PausesAgree(c) && InRange(c)
    ensures PausesAgree(Transact(c, sender, call).0)
  {
    hide Pauses, Unpauses, PauseShows, Guarded;
    var c' := Transact(c, sender, call).0;
    if c'.log != c.log {
      var e := c'.log[|c.log|];
      assert c'.log == c.log + [e];
      LogNext(c.log, e);
      GuardedNext(c.log, c.paused, e);
    }
  }

  // ---- runs ----

  /** The deployed contracts; deployment reverts unless both roles are given and differ. */
  function Deployed(owner: Address, keeper: Address): Chain {
    Chain(owner, false, {keeper}, {}, map[], [KeeperUpdated(keeper, true)])
  }

  function Reached(owner: Address, keeper: Address, calls: seq<(Address, Call)>): (c: Chain)
    ensures InRange(c)
  {
    if calls == [] then Deployed(owner, keeper)
    else Transact(Reached(owner, keeper, calls[..|calls| - 1]), calls[|calls| - 1].0, calls[|calls| - 1].1).0
  }

  lemma {:induction false} DeploymentAgrees(owner: Address, keeper: Address)
    requires owner != keeper
    ensures LedgerAgrees(Deployed(owner, keeper)) && PausesAgree(Deployed(owner, keeper))
  {
    var log := [KeeperUpdated(keeper, true)];
    assert log == [] + [log[0]];
    LogNext([], log[0]);
  }

  lemma {:induction false} RunAgrees(owner: Address, keeper: Address, calls: seq<(Address, Call)>)
    requires owner != keeper
    ensures LedgerAgrees(Reached(owner, keeper, calls)) && PausesAgree(Reached(owner, keeper, calls))
  {
    hide Transact, LedgerAgrees, PausesAgree;
    if calls == [] {
      DeploymentAgrees(owner, keeper);
    } else {
      var c := Reached(owner, keeper, calls[..|calls| - 1]);
      RunAgrees(owner, keeper, calls[..|calls| - 1]);
      TransactionKeepsLedger(c, calls[|calls| - 1].0, calls[|calls| - 1].1);
      TransactionKeepsPauses(c, calls[|calls| - 1].0, calls[|calls| - 1].1);
    }
  }

  /** Whatever is called by whomever: replaying the log gives the ledger and every logged remaining
      credit, and the total credit is what was issued less what was withdrawn. */
  lemma LogReplaysToLedger(owner: Address, keeper: Address, calls: seq<(Address, Call)>)
    requires owner != keeper
    ensures var c := Reached(owner, keeper, calls);
            && c.credits == Replayed(c.log)
            && (forall i: nat | i < |c.log| :: Covered(c.log, i))
            && Total(c.credits) == IssuedTotal(c.log) - WithdrawnTotal(c.log)
  {
    hide Reached, Replayed, Covered, PausesAgree;
    RunAgrees(owner, keeper, calls);
  }

  /** No withdrawal is logged between a pause and the next unpause; pauses exceed unpauses by one
      while paused and are otherwise as many; each used its own reference; the owner is no keeper. */
  lemma PauseSafety(owner: Address, keeper: Address, calls: seq<(Address, Call)>)
    requires owner != keeper
    ensures var c := Reached(owner, keeper, calls);
            && (forall i: nat, j: nat | i < j < |c.log| :: Guarded(c.log, i, j))
            && Pauses(c.log) - Unpauses(c.log) == (if c.paused then 1 else 0)
            && |c.used| == Pauses(c.log)
            && c.owner !in c.keepers
  {
    hide Reached, Guarded, LedgerAgrees;
    RunAgrees(owner, keeper, calls);
  }
}
