/** Incidents: one is opened when the run of consecutive failures reaches the threshold, and closed
    by the next success. */
module Incidents {
  import opened PyText

  datatype Incident = Incident(id: string, reason: string, openedAt: int, failures: nat, closedAt: Option<int>)

  /** The counter, the open incident, and the metric that counts the incidents opened. */
  datatype Board = Board(failures: nat, current: Option<Incident>, openings: nat)

  const QUIET := Board(0, None, 0)

  function Failed(b: Board, threshold: nat, reason: string, id: string, now: int): Board {
    var n := b.failures + 1;
    if n != threshold || b.current.Some? then b.(failures := n)
    else Board(n, Some(Incident(id, reason, now, n, None)), b.openings + 1)
  }

  function Succeeded(b: Board): Board {
    b.(failures := 0, current := None)
  }

  class IncidentManager {
    const threshold: nat
    var failures: nat
    var current: Option<Incident>
    var openings: nat

    function Now(): Board
      reads this
    {
      Board(failures, current, openings)
    }

    constructor (threshold: nat)
      requires threshold >= 1
      ensures Now() == QUIET && this.threshold == threshold
    {
      this.threshold := threshold;
      failures, current, openings := 0, None, 0;
    }

    method RecordFailure(reason: string, id: string, now: int) returns (incident: Option<Incident>)
      modifies this
      ensures Now() == Failed(old(Now()), threshold, reason, id, now)
      ensures incident == if openings == old(openings) then None else current
    {
      failures := failures + 1;
      if failures != threshold || current.Some? {
        return None;
      }
      current := Some(Incident(id, reason, now, failures, None));
      openings := openings + 1;
      return current;
    }

    method RecordSuccess(now: int) returns (closed: Option<Incident>)
      modifies this
      ensures Now() == Succeeded(old(Now()))
      ensures closed == if old(current).None? then None else Some(old(current).value.(closedAt := Some(now)))
    {
      failures := 0;
      if current.None? {
        return None;
      }
      closed := Some(current.value.(closedAt := Some(now)));
      current := None;
    }
  }
}
