/** The two throttles of recovery attempts, a sliding window and a cooldown, and the latch that an
    exceeded window sets.  Times are whole microseconds of a clock that never goes back. */
module Throttle {
  import opened PyText

  datatype Limits = Limits(cooldown: int, most: int, window: int)

  predicate ValidLimits(l: Limits) {
    l.cooldown >= 0 && l.most >= 1 && l.window > 0
  }

  /** The state of a recovery manager: whether manual intervention is required, the deque of recent
      attempts, and the last attempt. */
  datatype State = State(manual: bool, attempts: seq<int>, last: Option<int>)

  const READY := State(false, [], None)

  datatype Verdict = Refused | Latched | Deferred | Started

  /** The deque after the attempts older than the window are popped from its left. */
  function Popped(attempts: seq<int>, now: int, window: int): seq<int> {
    if attempts != [] && now - attempts[0] >= window then Popped(attempts[1..], now, window) else attempts
  }

  function Decide(l: Limits, s: State, now: int): (State, Verdict) {
    var live := Popped(s.attempts, now, l.window);
    if s.manual then (State(true, live, s.last), Refused)
    else if |live| >= l.most then (State(true, live, s.last), Latched)
    else if s.last.Some? && now - s.last.value < l.cooldown then (State(false, live, s.last), Deferred)
    else (State(false, live + [now], Some(now)), Started)
  }

  function After(l: Limits, times: seq<int>): State {
    if times == [] then READY else Decide(l, After(l, times[..|times| - 1]), times[|times| - 1]).0
  }

  function VerdictAt(l: Limits, times: seq<int>, k: nat): Verdict
    requires k < |times|
  {
    Decide(l, After(l, times[..k]), times[k]).1
  }

  /** The full history: the times of all attempts ever started, in order. */
  function Starts(l: Limits, times: seq<int>): seq<int> {
    if times == [] then []
    else
      Starts(l, times[..|times| - 1]) +
      if VerdictAt(l, times, |times| - 1) == Started then [times[|times| - 1]] else []
  }

  predicate Ordered(s: seq<int>) {
    forall i, j | 0 <= i < j < |s| :: s[i] <= s[j]
  }

  predicate Apart(h: seq<int>, n: nat, w: int, i: int)
    requires n <= i < |h|
  {
    h[i] - h[i - n] >= w
  }

  /** Any `n + 1` consecutive times span at least `w`. */
  predicate Spaced(h: seq<int>, n: nat, w: int) {
    forall i | n <= i < |h| :: Apart(h, n, w, i)
  }

  /** The deque is the end of the history; what it no longer holds is older than the window. */
  predicate Tracks(l: Limits, s: State, h: seq<int>, clock: int) {
    && Ordered(h)
    && (h != [] ==> h[|h| - 1] <= clock)
    && s.last == (if h == [] then None else Some(h[|h| - 1]))
    && |s.attempts| <= |h|
    && s.attempts == h[|h| - |s.attempts|..]
    && (forall i | 0 <= i < |h| - |s.attempts| :: clock - h[i] >= l.window)
  }

  /** After popping, the deque is exactly the part of the history younger than the window. */
  predicate Live(l: Limits, live: seq<int>, h: seq<int>, now: int) {
    && |live| <= |h| && live == h[|h| - |live|..]
    && (forall i | 0 <= i < |h| :: now - h[i] < l.window <==> i >= |h| - |live|)
  }

  lemma {:induction false} PoppedIsLive(l: Limits, attempts: seq<int>, h: seq<int>, now: int)
    requires Ordered(h) && |attempts| <= |h| && attempts == h[|h| - |attempts|..]
    requires forall i | 0 <= i < |h| - |attempts| :: now - h[i] >= l.window
    ensures Live(l, Popped(attempts, now, l.window), h, now)
  {
    if attempts != [] {
      var k := |h| - |attempts|;
      assert attempts[0] == h[k];
      if now - attempts[0] >= l.window {
        assert attempts[1..] == h[k + 1..];
        PoppedIsLive(l, attempts[1..], h, now);
      } else {
        forall i | k <= i < |h| ensures now - h[i] < l.window { assert h[k] <= h[i]; }
      }
    }
  }

  lemma {:induction false} StillSpaced(h: seq<int>, n: nat, w: int, now: int)
    requires Spaced(h, n, w) && n >= 1
    requires |h| >= n ==> now - h[|h| - n] >= w
    ensures Spaced(h + [now], n, w)
  {
    var h' := h + [now];
    forall i | n <= i < |h'| ensures Apart(h', n, w, i) {
      if i < |h| { assert Apart(h, n, w, i); }
    }
  }

  lemma PoppedTracks(l: Limits, s: State, h: seq<int>, clock: int, now: int, manual: bool)
    requires Tracks(l, s, h, clock) && clock <= now
    ensures Live(l, Popped(s.attempts, now, l.window), h, now)
    ensures Tracks(l, State(manual, Popped(s.attempts, now, l.window), s.last), h, now)
  {
    PoppedIsLive(l, s.attempts, h, now);
  }

  lemma {:induction false} StartTracks(l: Limits, s: State, h: seq<int>, now: int)
    requires ValidLimits(l) && Tracks(l, s, h, now)
    ensures Tracks(l, State(false, s.attempts + [now], Some(now)), h + [now], now)
  {
    var h', attempts' := h + [now], s.attempts + [now];
    assert attempts' == h'[|h| - |s.attempts|..];
  }

  lemma {:induction false} DecideTracks(l: Limits, s: State, h: seq<int>, clock: int, now: int)
    requires ValidLimits(l) && Tracks(l, s, h, clock) && clock <= now
    requires Spaced(h, l.most, l.window) && Spaced(h, 1, l.cooldown)
    ensures var (s', v) := Decide(l, s, now); var h' := if v == Started then h + [now] else h;
            && Live(l, Popped(s.attempts, now, l.window), h, now)
            && Tracks(l, s', h', now)
            && Spaced(h', l.most, l.window) && Spaced(h', 1, l.cooldown)
  {
    hide Popped, Spaced, Tracks, Live;
    PoppedTracks(l, s, h, clock, now, s.manual);
    PoppedTracks(l, s, h, clock, now, true);
    var live := Popped(s.attempts, now, l.window);
    if Decide(l, s, now).1 == Started {
      StartTracks(l, State(s.manual, live, s.last), h, now);
      RoomMeansSpaced(l, State(s.manual, live, s.last), h, now);
      StillSpaced(h, l.most, l.window, now);
      StillSpaced(h, 1, l.cooldown, now);
    }
  }

  lemma RoomMeansSpaced(l: Limits, s: State, h: seq<int>, now: int)
    requires ValidLimits(l) && Tracks(l, s, h, now) && |s.attempts| < l.most
    ensures |h| >= l.most ==> now - h[|h| - l.most] >= l.window
    ensures h != [] ==> s.last == Some(h[|h| - 1])
    ensures h == [] ==> s.last == None
  {
  }

  lemma OrderedMost(times: seq<int>)
    requires times != [] && Ordered(times)
    ensures Ordered(times[..|times| - 1])
    ensures |times| > 1 ==> times[|times| - 2] <= times[|times| - 1]
  {
  }

  /** After these calls the state follows the history of starts, and the history keeps both throttles. */
  predicate RunIsTracked(l: Limits, times: seq<int>, clock: int)
    requires ValidLimits(l)
  {
    && Tracks(l, After(l, times), Starts(l, times), clock)
    && Spaced(Starts(l, times), l.most, l.window) && Spaced(Starts(l, times), 1, l.cooldown)
  }

  lemma {:induction false} OneMoreIsTracked(l: Limits, most: seq<int>, clock: int, now: int)
    requires ValidLimits(l) && RunIsTracked(l, most, clock) && clock <= now
    ensures RunIsTracked(l, most + [now], now)
  {
    hide Decide, Spaced, Popped, After, Starts, Tracks, Live;
    DecideTracks(l, After(l, most), Starts(l, most), clock, now);
    OneMore(l, most, now);
  }

  lemma {:induction false} RunTracks(l: Limits, times: seq<int>)
    requires ValidLimits(l) && Ordered(times)
    ensures RunIsTracked(l, times, if times == [] then 0 else times[|times| - 1])
    ensures Ordered(Starts(l, times))
  {
    hide Decide, Spaced, Popped, Ordered, After, Starts, Tracks;
    NothingIsTracked(l, 0);
    if times != [] {
      var most, now := times[..|times| - 1], times[|times| - 1];
      OrderedMost(times);
      RunTracks(l, most);
      NothingIsTracked(l, now);
      OneMoreIsTracked(l, most, if most == [] then now else most[|most| - 1], now);
      assert times == most + [now];
      TracksOrdered(l, After(l, times), Starts(l, times), now);
    }
  }

  lemma NothingIsTracked(l: Limits, clock: int)
    requires ValidLimits(l)
    ensures RunIsTracked(l, [], clock) && After(l, []) == READY && Starts(l, []) == [] && Ordered([])
  {
  }

  lemma TracksOrdered(l: Limits, s: State, h: seq<int>, clock: int)
    requires Tracks(l, s, h, clock)
    ensures Ordered(h)
  {
  }

  lemma OneMore(l: Limits, most: seq<int>, now: int)
    ensures var (s', v) := Decide(l, After(l, most), now);
            && After(l, most + [now]) == s'
            && Starts(l, most + [now]) == if v == Started then Starts(l, most) + [now] else Starts(l, most)
  {
    hide Decide;
    assert (most + [now])[..|most|] == most;
  }

  /** Before every decision of every run the popped deque is exactly the live part of the history. */
  lemma DequeIsLiveHistory(l: Limits, times: seq<int>, now: int)
    requires ValidLimits(l) && Ordered(times + [now])
    ensures Live(l, Popped(After(l, times).attempts, now, l.window), Starts(l, times), now)
  {
    forall i, j | 0 <= i < j < |times| ensures times[i] <= times[j] {
      assert (times + [now])[i] <= (times + [now])[j];
    }
    RunTracks(l, times);
    if times != [] {
      assert (times + [now])[|times| - 1] <= (times + [now])[|times|];
      DecideTracks(l, After(l, times), Starts(l, times), times[|times| - 1], now);
    }
  }

  // ---- how many attempts an interval can hold ----

  function Within(h: seq<int>, from: int, to: int): set<nat> {
    set i: nat | i < |h| && from <= h[i] < to
  }

  lemma {:induction false} SpacedFar(h: seq<int>, n: nat, w: int, a: nat, k: nat)
    requires Spaced(h, n, w) && a + n * k < |h|
    ensures h[a + n * k] - h[a] >= k * w
  {
    if k > 0 {
      assert n * k == n * (k - 1) + n;
      SpacedFar(h, n, w, a, k - 1);
      var i := a + n * k;
      assert Apart(h, n, w, i) && i - n == a + n * (k - 1);
      assert k * w == (k - 1) * w + w;
    }
  }

  lemma {:induction false} RangeSize(s: set<nat>, a: nat, n: nat)
    requires forall i | i in s :: a <= i < a + n
    ensures |s| <= n
  {
    if n == 0 {
      assert s == {};
    } else {
      RangeSize(s - {a + n - 1}, a, n - 1);
      assert |s| <= |s - {a + n - 1}| + 1;
    }
  }

  lemma {:induction false} FirstFrom(h: seq<int>, from: int) returns (a: nat)
    ensures a <= |h| && (forall i | 0 <= i < a :: h[i] < from) && (a < |h| ==> h[a] >= from)
  {
    a := 0;
    while a < |h| && h[a] < from
      invariant a <= |h| && forall i | 0 <= i < a :: h[i] < from
    {
      a := a + 1;
    }
  }

  /** An interval of length `k * w` holds at most `n * k` of the times. */
  lemma {:induction false} IntervalHolds(h: seq<int>, n: nat, w: int, from: int, k: nat)
    requires Ordered(h) && Spaced(h, n, w)
    ensures |Within(h, from, from + k * w)| <= n * k
  {
    var a := FirstFrom(h, from);
    var s := Within(h, from, from + k * w);
    var far := a + n * k;
    if far < |h| {
      SpacedFar(h, n, w, a, k);
      forall i | far <= i < |h| ensures h[i] >= from + k * w { assert h[far] <= h[i]; }
    }
    RangeSize(s, a, n * k);
  }

  lemma {:induction false} ClosedSpanHolds(h: seq<int>, n: nat, w: int, from: int, span: nat)
    requires Ordered(h) && Spaced(h, n, w) && w > 0
    ensures |Within(h, from, from + span + 1)| <= n * (span / w + 1)
  {
    var k := span / w + 1;
    assert span < k * w by { assert span == w * (span / w) + span % w; assert k * w == w * (span / w) + w; }
    IntervalHolds(h, n, w, from, k);
    var inner, outer := Within(h, from, from + span + 1), Within(h, from, from + k * w);
    assert inner <= outer;
    assert outer == inner + (outer - inner);
    assert |outer| == |inner| + |outer - inner|;
  }

  /** Every half-open interval as long as the window holds at most the permitted number of attempt
      starts, whatever the calls. */
  lemma SlidingWindowSafety(l: Limits, times: seq<int>, from: int)
    requires ValidLimits(l) && Ordered(times)
    ensures |Within(Starts(l, times), from, from + l.window)| <= l.most
  {
    RunTracks(l, times);
    IntervalHolds(Starts(l, times), l.most, l.window, from, 1);
  }

  /** The rate bounds of the two throttles for a closed span of any length. */
  lemma RateBounds(l: Limits, times: seq<int>, from: int, span: nat)
    requires ValidLimits(l) && Ordered(times)
    ensures var started := |Within(Starts(l, times), from, from + span + 1)|;
            && started <= l.most * (span / l.window + 1)
            && (l.cooldown > 0 ==> started <= span / l.cooldown + 1)
  {
    hide Within, Spaced, Tracks, After, Starts;
    RunTracks(l, times);
    ClosedSpanHolds(Starts(l, times), l.most, l.window, from, span);
    if l.cooldown > 0 {
      ClosedSpanHolds(Starts(l, times), 1, l.cooldown, from, span);
    }
  }

  // ---- the latch ----

  lemma {:induction false} ManualStays(l: Limits, times: seq<int>, more: seq<int>)
    requires After(l, times).manual
    ensures After(l, times + more).manual && Starts(l, times + more) == Starts(l, times)
  {
    if more == [] {
      assert times + more == times;
    } else {
      var all := times + more;
      assert all[..|all| - 1] == times + more[..|more| - 1];
      ManualStays(l, times, more[..|more| - 1]);
    }
  }

  /** Call `k` finds the window full and the manager not yet latched. */
  predicate FindsFull(l: Limits, times: seq<int>, k: nat)
    requires k < |times|
  {
    !After(l, times[..k]).manual && |Popped(After(l, times[..k]).attempts, times[k], l.window)| >= l.most
  }

  /** Manual intervention is required exactly when some call found the window full; the window is
      looked at before the cooldown, so a full window latches even while the cooldown is active. */
  lemma {:induction false} ManualIff(l: Limits, times: seq<int>)
    ensures After(l, times).manual <==> exists k: nat | k < |times| :: FindsFull(l, times, k)
  {
    hide Popped;
    if times != [] {
      var most, n := times[..|times| - 1], |times| - 1;
      ManualIff(l, most);
      forall k: nat | k < n ensures FindsFull(l, times, k) == FindsFull(l, most, k) {
        assert times[..k] == most[..k];
      }
      if After(l, most).manual {
        var k: nat :| k < n && FindsFull(l, most, k);
        assert FindsFull(l, times, k);
      } else {
        assert times[..n] == most;
        assert After(l, times).manual <==> FindsFull(l, times, n);
      }
    }
  }

  // ---- the decision, read off the history of attempts alone ----

  /** The attempts younger than the window. */
  function Younger(h: seq<int>, now: int, window: int): set<nat> {
    set i: nat | i < |h| && now - h[i] < window
  }

  lemma {:induction false} RangeCount(s: set<nat>, a: nat, n: nat)
    requires forall i: nat :: i in s <==> a <= i < a + n
    ensures |s| == n
  {
    if n == 0 {
      assert s == {};
    } else {
      RangeCount(s - {a + n - 1}, a, n - 1);
      assert s == (s - {a + n - 1}) + {a + n - 1};
    }
  }

  lemma LiveIsYounger(l: Limits, live: seq<int>, h: seq<int>, now: int)
    requires Live(l, live, h, now)
    ensures |live| == |Younger(h, now, l.window)|
  {
    RangeCount(Younger(h, now, l.window), |h| - |live|, |live|);
  }

  /** The popped deque is as long as there are attempts younger than the window. */
  lemma {:induction false} DequeCountsYounger(l: Limits, times: seq<int>, now: int)
    requires ValidLimits(l) && Ordered(times + [now])
    ensures |Popped(After(l, times).attempts, now, l.window)| == |Younger(Starts(l, times), now, l.window)|
  {
    hide Popped, After, Starts, Ordered;
    DequeIsLiveHistory(l, times, now);
    LiveIsYounger(l, Popped(After(l, times).attempts, now, l.window), Starts(l, times), now);
  }

  /** The last attempt is younger than the cooldown. */
  predicate Cooling(l: Limits, h: seq<int>, now: int) {
    h != [] && now - h[|h| - 1] < l.cooldown
  }

  /** A state that follows a history decides by the history. */
  lemma {:induction false} DecideByHistory(l: Limits, s: State, h: seq<int>, clock: int, now: int)
    requires Tracks(l, s, h, clock) && clock <= now
    ensures Decide(l, s, now).1 ==
            if s.manual then Refused
            else if |Younger(h, now, l.window)| >= l.most then Latched
            else if Cooling(l, h, now) then Deferred
            else Started
    ensures Decide(l, s, now).0.manual <==> s.manual || |Younger(h, now, l.window)| >= l.most
  {
    hide Popped, Younger;
    PoppedTracks(l, s, h, clock, now, s.manual);
    LiveIsYounger(l, Popped(s.attempts, now, l.window), h, now);
  }

  /** At call `k` the attempts started so far fill the window. */
  predicate WindowFull(l: Limits, times: seq<int>, k: nat)
    requires k < |times|
  {
    |Younger(Starts(l, times[..k]), times[k], l.window)| >= l.most
  }

  lemma {:induction false} FullIsFound(l: Limits, times: seq<int>, k: nat)
    requires ValidLimits(l) && Ordered(times) && k < |times|
    ensures FindsFull(l, times, k) <==> WindowFull(l, times, k) && !After(l, times[..k]).manual
    ensures After(l, times[..k]).manual ==> After(l, times).manual
  {
    hide Younger, Popped, After, Starts;
    assert times[..k] + [times[k]] == times[..k + 1];
    DequeCountsYounger(l, times[..k], times[k]);
    if After(l, times[..k]).manual {
      ManualStays(l, times[..k], times[k..]);
      assert times[..k] + times[k..] == times;
    }
  }

  /** Manual intervention is required if and only if the started attempts ever filled the window at
      a call. */
  lemma {:induction false} ManualByHistory(l: Limits, times: seq<int>)
    requires ValidLimits(l) && Ordered(times)
    ensures After(l, times).manual <==> exists k: nat | k < |times| :: WindowFull(l, times, k)
  {
    hide WindowFull, FindsFull, After, Ordered;
    ManualIff(l, times);
    forall k: nat | k < |times|
      ensures FindsFull(l, times, k) <==> WindowFull(l, times, k) && !After(l, times[..k]).manual
      ensures After(l, times[..k]).manual ==> After(l, times).manual
    {
      FullIsFound(l, times, k);
    }
  }

  /** The verdict on the next call follows from the attempts started before, and each of the four is
      given exactly in its case. */
  lemma {:induction false} VerdictByHistory(l: Limits, times: seq<int>, now: int)
    requires ValidLimits(l) && Ordered(times + [now])
    ensures var h := Starts(l, times);
            var manual := exists k: nat | k < |times| :: WindowFull(l, times, k);
            var full := |Younger(h, now, l.window)| >= l.most;
            VerdictAt(l, times + [now], |times|) ==
            if manual then Refused else if full then Latched else if Cooling(l, h, now) then Deferred else Started
  {
    hide After, Starts, Popped, WindowFull, Younger, Tracks;
    OrderedMost(times + [now]);
    assert (times + [now])[..|times|] == times;
    ManualByHistory(l, times);
    DequeCountsYounger(l, times, now);
    LastIsLatest(l, times);
  }

  lemma {:induction false} LastIsLatest(l: Limits, times: seq<int>)
    requires ValidLimits(l) && Ordered(times)
    ensures var h := Starts(l, times); After(l, times).last == if h == [] then None else Some(h[|h| - 1])
  {
    hide After, Starts;
    RunTracks(l, times);
  }

  /** An attempt starts if and only if manual intervention is not required, fewer attempts than the
      limit are younger than the window, and the last one is at least as old as the cooldown; otherwise
      the history stays as it is. */
  lemma {:induction false} StartsIff(l: Limits, times: seq<int>, now: int)
    requires ValidLimits(l) && Ordered(times + [now])
    ensures var h := Starts(l, times);
            Starts(l, times + [now]) ==
            if !After(l, times).manual && |Younger(h, now, l.window)| < l.most
               && (h == [] || now - h[|h| - 1] >= l.cooldown)
            then h + [now] else h
  {
    hide After, WindowFull, Younger, Decide;
    OrderedMost(times + [now]);
    assert (times + [now])[..|times|] == times;
    ManualByHistory(l, times);
    VerdictByHistory(l, times, now);
  }
}
