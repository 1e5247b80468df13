// The request governor: a sliding-window budget per endpoint class, with
// provider-directed backoff.

module RateLimiting {
  import opened Wrappers

  datatype Limit = Policy(requests: int, window: int)

  /** Requests permitted per window, for one endpoint class; the original refuses fewer than one. */
  type Policy = p: Limit | p.requests >= 1 witness Policy(1, 0)

  datatype WindowState = WindowState(hits: seq<int>, backoffUntil: Option<int>)

  const FRESH := WindowState([], None)

  datatype Reason = Backoff | WindowExhausted

  datatype Decision = Granted(remaining: int) | Refused(wait: int, reason: Reason)

  /** Drop the hits that have left the window. */
  function Live(hits: seq<int>, cutoff: int): seq<int> {
    if hits != [] && hits[0] <= cutoff then Live(hits[1..], cutoff) else hits
  }

  predicate InBackoff(s: WindowState, now: int) {
    s.backoffUntil.Some? && now < s.backoffUntil.value
  }

  /** One `acquire` at `now`. */
  function Acquire(p: Policy, s: WindowState, now: int): (WindowState, Decision)
  {
    if InBackoff(s, now) then (s, Refused(s.backoffUntil.value - now, Backoff)) else
      var hits := Live(s.hits, now - p.window);
      if |hits| >= p.requests then
        (s.(hits := hits), Refused(hits[0] + p.window - now, WindowExhausted))
      else
        (s.(hits := hits + [now]), Granted(p.requests - (|hits| + 1)))
  }

  function Penalise(s: WindowState, now: int, retryAfter: int): WindowState {
    s.(backoffUntil := Some(now + retryAfter))
  }

  // ------------------------------------------------------------------- a run

  datatype Call = AcquireAt(now: int) | PenaliseAt(now: int, retryAfter: int)

  /** An endpoint's state with the times of every grant so far. */
  datatype History = History(state: WindowState, grants: seq<int>)

  function Apply(p: Policy, h: History, call: Call): History
  {
    match call
    case AcquireAt(now) =>
      var (s, d) := Acquire(p, h.state, now);
      History(s, if d.Granted? then h.grants + [now] else h.grants)
    case PenaliseAt(now, retryAfter) => h.(state := Penalise(h.state, now, retryAfter))
  }

  function Run(p: Policy, calls: seq<Call>): History
  {
    if calls == [] then History(FRESH, [])
    else Apply(p, Run(p, calls[..|calls| - 1]), calls[|calls| - 1])
  }

  ghost predicate Ordered(calls: seq<Call>) {
    forall i, j | 0 <= i <= j < |calls| :: calls[i].now <= calls[j].now
  }

  ghost predicate Rising(times: seq<int>) {
    forall i, j | 0 <= i <= j < |times| :: times[i] <= times[j]
  }

  /** What holds after calls up to `now`: the hits are the latest grants, at most a window's worth; any others
      have left the window; grants a window's worth apart are at least a window apart. */
  ghost predicate HistoryOk(p: Policy, h: History, now: int) {
    && Rising(h.grants)
    && (forall i | 0 <= i < |h.grants| :: h.grants[i] <= now)
    && |h.state.hits| <= |h.grants|
    && |h.state.hits| <= p.requests
    && h.state.hits == h.grants[|h.grants| - |h.state.hits|..]
    && (forall i | 0 <= i < |h.grants| - |h.state.hits| :: h.grants[i] <= now - p.window)
    && forall i | 0 <= i < |h.grants| - p.requests :: h.grants[i + p.requests] - h.grants[i] >= p.window
  }

  lemma {:induction false} LiveIsSuffix(hits: seq<int>, cutoff: int)
    ensures var live := Live(hits, cutoff);
            && |live| <= |hits| && live == hits[|hits| - |live|..]
            && (forall i | 0 <= i < |hits| - |live| :: hits[i] <= cutoff)
            && (live != [] ==> live[0] > cutoff)
  {
    if hits != [] && hits[0] <= cutoff {
      LiveIsSuffix(hits[1..], cutoff);
      var live := Live(hits, cutoff);
      assert hits[1..][|hits| - 1 - |live|..] == hits[|hits| - |live|..];
      forall i | 0 <= i < |hits| - |live| ensures hits[i] <= cutoff {
        if i > 0 { assert hits[i] == hits[1..][i - 1]; }
      }
    }
  }

  lemma TrimOk(p: Policy, h: History, before: int, now: int)
    requires HistoryOk(p, h, before) && before <= now
    ensures HistoryOk(p, h.(state := h.state.(hits := Live(h.state.hits, now - p.window))), now)
  {
    hide Live, Rising;
    var hits, cutoff := h.state.hits, now - p.window;
    var live := Live(hits, cutoff);
    LiveIsSuffix(hits, cutoff);
    var kept, dropped := |h.grants| - |hits|, |hits| - |live|;
    forall i | 0 <= i < kept + dropped ensures h.grants[i] <= cutoff {
      if i >= kept {
        assert h.grants[i] == hits[i - kept];
      }
    }
    assert live == h.grants[kept + dropped..];
  }

  lemma RisingMore(times: seq<int>, t: int)
    requires Rising(times) && forall i | 0 <= i < |times| :: times[i] <= t
    ensures Rising(times + [t])
  {
  }

  lemma GrantOk(p: Policy, h: History, now: int)
    requires HistoryOk(p, h, now) && |h.state.hits| < p.requests
    ensures HistoryOk(p, History(h.state.(hits := h.state.hits + [now]), h.grants + [now]), now)
  {
    hide Rising;
    RisingMore(h.grants, now);
  }

  lemma LaterOk(p: Policy, h: History, before: int, now: int, backoff: Option<int>)
    ensures HistoryOk(p, h, before) && before <= now ==>
              HistoryOk(p, h.(state := h.state.(backoffUntil := backoff)), now)
  {
  }

  lemma AcquireOk(p: Policy, h: History, before: int, now: int)
    requires HistoryOk(p, h, before) && before <= now
    ensures HistoryOk(p, Apply(p, h, AcquireAt(now)), now)
  {
    hide Live, HistoryOk;
    LaterOk(p, h, before, now, h.state.backoffUntil);
    if !InBackoff(h.state, now) {
      TrimOk(p, h, before, now);
      var trimmed := h.(state := h.state.(hits := Live(h.state.hits, now - p.window)));
      if |trimmed.state.hits| < p.requests {
        GrantOk(p, trimmed, now);
      }
    }
  }

  lemma ApplyOk(p: Policy, h: History, before: int, call: Call)
    requires HistoryOk(p, h, before) && before <= call.now
    ensures HistoryOk(p, Apply(p, h, call), call.now)
  {
    hide HistoryOk, Acquire;
    match call
    case AcquireAt(now) => AcquireOk(p, h, before, now);
    case PenaliseAt(now, retryAfter) => LaterOk(p, h, before, now, Some(now + retryAfter));
  }

  lemma StartOk(p: Policy, now: int)
    ensures HistoryOk(p, History(FRESH, []), now)
  {
  }

  /** The quota's invariant, after any run with a clock that does not go back. */
  lemma {:induction false} RunOk(p: Policy, calls: seq<Call>, now: int)
    requires Ordered(calls) && (calls != [] ==> calls[|calls| - 1].now <= now)
    ensures HistoryOk(p, Run(p, calls), now)
  {
    hide HistoryOk, Apply;
    if calls == [] {
      StartOk(p, now);
    } else {
      var before, last := calls[..|calls| - 1], calls[|calls| - 1];
      RunOk(p, before, last.now);
      ApplyOk(p, Run(p, before), last.now, last);
      var after := Run(p, calls);
      LaterOk(p, after, last.now, now, after.state.backoffUntil);
    }
  }

  // ------------------------------------------------------------------ the quota

  lemma LiveFixed(hits: seq<int>, cutoff: int)
    ensures (hits != [] ==> hits[0] > cutoff) ==> Live(hits, cutoff) == hits
  {
  }

  /** How many of the times lie in `[from, to)`. */
  function Count(times: seq<int>, from: int, to: int): nat {
    if times == [] then 0 else
      Count(times[..|times| - 1], from, to) + if from <= times[|times| - 1] < to then 1 else 0
  }

  /** In a rising list, those in an interval are neighbours. */
  lemma {:induction false} CountedAreNeighbours(times: seq<int>, from: int, to: int)
    requires Rising(times) && Count(times, from, to) > 0
    ensures exists k | 0 <= k && k + Count(times, from, to) <= |times| ::
              times[k] >= from && times[k + Count(times, from, to) - 1] < to
  {
    var n, before := |times| - 1, times[..|times| - 1];
    var c := Count(before, from, to);
    if c > 0 {
      CountedAreNeighbours(before, from, to);
      var k :| 0 <= k && k + c <= n && before[k] >= from && before[k + c - 1] < to;
      if from <= times[n] < to {
        var j := n - c;
        assert times[j] >= times[k];
        assert j + (c + 1) <= |times| && times[j + (c + 1) - 1] < to;
      } else {
        assert times[k + c - 1] < to;
      }
    } else {
      assert times[n + 1 - 1] < to;
    }
  }

  /** More than `quota` times in one window puts two of them, `quota` places apart, less than a window apart. */
  lemma CrowdedWindow(times: seq<int>, quota: nat, from: int, window: int)
    requires Rising(times) && Count(times, from, from + window) > quota
    ensures exists k | 0 <= k < |times| - quota :: times[k + quota] - times[k] < window
  {
    var c := Count(times, from, from + window);
    CountedAreNeighbours(times, from, from + window);
    var k :| 0 <= k && k + c <= |times| && times[k] >= from && times[k + c - 1] < from + window;
    assert times[k + quota] <= times[k + c - 1];
  }

  /** Over any run with a clock that does not go back, no interval of one window holds more than the quota. */
  lemma QuotaHolds(p: Policy, calls: seq<Call>, from: int)
    requires Ordered(calls)
    ensures Count(Run(p, calls).grants, from, from + p.window) <= p.requests
  {
    hide Run, Rising, Count, Ordered;
    RunOk(p, calls, if calls == [] then 0 else calls[|calls| - 1].now);
    if Count(Run(p, calls).grants, from, from + p.window) > p.requests {
      CrowdedWindow(Run(p, calls).grants, p.requests, from, p.window);
    }
  }

  ghost predicate KeepsQuota(p: Policy, calls: seq<Call>)
  {
    forall from :: InWindow(Run(p, calls).grants, from, p.window) <= p.requests
  }

  /** How many of the times lie in the window that opens at `from`. */
  function InWindow(times: seq<int>, from: int, window: int): nat {
    Count(times, from, from + window)
  }

  /** With a quota of one the next grant waits for the last to leave the window, whatever the clock does. */
  ghost predicate LoneOk(p: Policy, h: History) {
    && (h.grants == [] ==> h.state.hits == [])
    && (h.grants != [] ==> h.state.hits == [h.grants[|h.grants| - 1]])
    && forall i, j | 0 <= i < j < |h.grants| :: h.grants[j] - h.grants[i] >= p.window
  }

  lemma LoneGrant(p: Policy, h: History, now: int)
    requires LoneOk(p, h) && (h.grants != [] ==> now - h.grants[|h.grants| - 1] >= p.window) && p.window > 0
    ensures LoneOk(p, History(h.state.(hits := [now]), h.grants + [now]))
  {
    var n, grants := |h.grants|, h.grants + [now];
    forall i, j | 0 <= i < j < |grants| ensures grants[j] - grants[i] >= p.window {
      if j == n && i < n - 1 {
        assert h.grants[n - 1] - h.grants[i] >= p.window;
      }
    }
  }

  lemma LiveOfOne(hit: int, cutoff: int)
    ensures Live([hit], cutoff) == if hit <= cutoff then [] else [hit]
  {
    assert [hit][1..] == [];
  }

  lemma LoneAcquire(p: Policy, h: History, now: int)
    requires p.requests == 1 && p.window > 0 && LoneOk(p, h)
    ensures var after := Apply(p, h, AcquireAt(now));
            || (after.grants == h.grants && after.state.hits == h.state.hits)
            || (after.grants == h.grants + [now] && after.state.hits == [now]
                  && (h.grants != [] ==> now - h.grants[|h.grants| - 1] >= p.window))
  {
    hide Live;
    if h.grants == [] {
      LiveOfNone(now - p.window);
    } else {
      LiveOfOne(h.grants[|h.grants| - 1], now - p.window);
    }
  }

  lemma LiveOfNone(cutoff: int)
    ensures Live([], cutoff) == []
  {
  }

  lemma LoneSame(p: Policy, h: History, after: History)
    ensures LoneOk(p, h) && after.grants == h.grants && after.state.hits == h.state.hits ==> LoneOk(p, after)
  {
  }

  lemma LoneStep(p: Policy, h: History, call: Call)
    requires p.requests == 1 && p.window > 0 && LoneOk(p, h)
    ensures LoneOk(p, Apply(p, h, call))
  {
    hide LoneOk, Acquire;
    var after := Apply(p, h, call);
    if call.AcquireAt? {
      LoneAcquire(p, h, call.now);
    }
    if after.grants == h.grants {
      LoneSame(p, h, after);
    } else {
      LoneGrant(p, h, call.now);
      LoneSame(p, History(h.state.(hits := [call.now]), h.grants + [call.now]), after);
    }
  }

  lemma {:induction false} LoneRun(p: Policy, calls: seq<Call>)
    requires p.requests == 1 && p.window > 0
    ensures LoneOk(p, Run(p, calls))
  {
    hide LoneOk, Apply;
    if calls == [] {
      LoneStart(p);
    } else {
      LoneRun(p, calls[..|calls| - 1]);
      LoneStep(p, Run(p, calls[..|calls| - 1]), calls[|calls| - 1]);
    }
  }

  lemma LoneStart(p: Policy)
    ensures LoneOk(p, History(FRESH, []))
  {
  }

  lemma LoneKeepsQuota(p: Policy, calls: seq<Call>)
    requires p.requests == 1 && p.window > 0
    ensures KeepsQuota(p, calls)
  {
    hide Run, Count;
    LoneRun(p, calls);
    var grants := Run(p, calls).grants;
    forall from ensures InWindow(grants, from, p.window) <= 1 {
      if Count(grants, from, from + p.window) > 1 {
        CrowdedWindow(grants, 1, from, p.window);
      }
    }
  }

  lemma {:induction false} NoneInEmpty(times: seq<int>, from: int, to: int)
    requires to <= from
    ensures Count(times, from, to) == 0
  {
    if times != [] {
      NoneInEmpty(times[..|times| - 1], from, to);
    }
  }

  function Zeros(n: nat): seq<int> {
    if n == 0 then [] else Zeros(n - 1) + [0]
  }

  /** `n` attempts at time 0. */
  function Burst(n: nat): seq<Call> {
    if n == 0 then [] else Burst(n - 1) + [AcquireAt(0)]
  }

  lemma {:induction false} ZerosAre(n: nat)
    ensures |Zeros(n)| == n && forall i | 0 <= i < n :: Zeros(n)[i] == 0
  {
    if n > 0 {
      ZerosAre(n - 1);
    }
  }

  lemma NextGranted(p: Policy, n: nat)
    requires p.window > 0 && n < p.requests
    ensures Apply(p, History(WindowState(Zeros(n), None), Zeros(n)), AcquireAt(0))
              == History(WindowState(Zeros(n + 1), None), Zeros(n + 1))
  {
    hide Live;
    ZerosAre(n);
    LiveFixed(Zeros(n), -p.window);
  }

  /** All are granted, up to the quota. */
  lemma {:induction false} BurstGranted(p: Policy, n: nat)
    requires p.window > 0 && n <= p.requests
    ensures Run(p, Burst(n)) == History(WindowState(Zeros(n), None), Zeros(n))
  {
    hide Apply;
    if n > 0 {
      BurstGranted(p, n - 1);
      RunMore(p, Burst(n - 1), AcquireAt(0));
      NextGranted(p, n - 1);
    }
  }

  lemma RunMore(p: Policy, calls: seq<Call>, call: Call)
    ensures Run(p, calls + [call]) == Apply(p, Run(p, calls), call)
  {
    assert (calls + [call])[..|calls|] == calls;
  }

  lemma {:induction false} AllLeave(hits: seq<int>, cutoff: int)
    requires forall i | 0 <= i < |hits| :: hits[i] <= cutoff
    ensures Live(hits, cutoff) == []
  {
    if hits != [] {
      AllLeave(hits[1..], cutoff);
    }
  }

  /** One attempt a window later drops the burst from the record; with the clock back at 0 another is granted. */
  lemma StepBackGranted(p: Policy)
    requires p.requests >= 2 && p.window > 0
    ensures Run(p, Burst(p.requests) + [AcquireAt(p.window)] + [AcquireAt(0)]).grants
              == Zeros(p.requests) + [p.window] + [0]
  {
    hide Run, Zeros, Burst;
    var n := p.requests;
    BurstGranted(p, n);
    ZerosAre(n);
    AllLeave(Zeros(n), 0);
    RunMore(p, Burst(n), AcquireAt(p.window));
    LiveFixed([p.window], -p.window);
    RunMore(p, Burst(n) + [AcquireAt(p.window)], AcquireAt(0));
  }

  lemma CountMore(times: seq<int>, t: int, from: int, to: int)
    ensures Count(times + [t], from, to) == Count(times, from, to) + if from <= t < to then 1 else 0
  {
    assert (times + [t])[..|times|] == times;
  }

  lemma {:induction false} CountZeros(n: nat, to: int)
    requires to > 0
    ensures Count(Zeros(n), 0, to) == n
  {
    if n > 0 {
      CountZeros(n - 1, to);
      CountMore(Zeros(n - 1), 0, 0, to);
    }
  }

  lemma StepBackBreaksQuota(p: Policy)
    requires p.requests >= 2 && p.window > 0
    ensures !KeepsQuota(p, Burst(p.requests) + [AcquireAt(p.window)] + [AcquireAt(0)])
  {
    hide Run, Count, Zeros, Burst;
    var n, w := p.requests, p.window;
    StepBackGranted(p);
    CountZeros(n, w);
    CountMore(Zeros(n), w, 0, w);
    CountMore(Zeros(n) + [w], 0, 0, w);
    assert InWindow(Run(p, Burst(n) + [AcquireAt(w)] + [AcquireAt(0)]).grants, 0, w) == n + 1;
  }

  /** Exactly the policies that keep their quota on every clock, one that steps back included: a quota of one, and a
      window that spans nothing. */
  lemma QuotaOnEveryClockExactly(p: Policy)
    ensures (forall calls :: KeepsQuota(p, calls)) <==> p.requests == 1 || p.window <= 0
  {
    hide KeepsQuota, Run;
    if p.window <= 0 {
      forall calls ensures KeepsQuota(p, calls) {
        EmptyWindow(p, calls);
      }
    } else if p.requests == 1 {
      forall calls ensures KeepsQuota(p, calls) {
        LoneKeepsQuota(p, calls);
      }
    } else {
      StepBackBreaksQuota(p);
    }
  }

  lemma EmptyWindow(p: Policy, calls: seq<Call>)
    requires p.window <= 0
    ensures KeepsQuota(p, calls)
  {
    hide Run, Count;
    forall from ensures InWindow(Run(p, calls).grants, from, p.window) == 0 {
      NoneInEmpty(Run(p, calls).grants, from, from + p.window);
    }
  }

  // ------------------------------------------------------------- waits, backoff

  /** Only refusals: the attempts at `times`, in order. */
  function Attempts(p: Policy, s: WindowState, times: seq<int>): WindowState
  {
    if times == [] then s
    else Acquire(p, Attempts(p, s, times[..|times| - 1]), times[|times| - 1]).0
  }

  lemma TooEarly(p: Policy, s: WindowState, now: int)
    requires |s.hits| == p.requests && !InBackoff(s, now) && now < s.hits[0] + p.window
    ensures Acquire(p, s, now) == (s, Refused(s.hits[0] + p.window - now, WindowExhausted))
  {
  }

  lemma {:induction false} EarlyAttemptsChangeNothing(p: Policy, s: WindowState, times: seq<int>)
    requires |s.hits| == p.requests
    requires forall t | t in times :: !InBackoff(s, t) && t < s.hits[0] + p.window
    ensures Attempts(p, s, times) == s
  {
    if times != [] {
      EarlyAttemptsChangeNothing(p, s, times[..|times| - 1]);
      TooEarly(p, s, times[|times| - 1]);
    }
  }

  /** What a window refusal leaves: a full window, of which the oldest hit is `wait` from leaving. */
  lemma WindowRefusal(p: Policy, s: WindowState, now: int)
    requires |s.hits| <= p.requests
    requires Acquire(p, s, now).1.Refused? && Acquire(p, s, now).1.reason.WindowExhausted?
    ensures var (after, refusal) := Acquire(p, s, now);
            && |after.hits| == p.requests && after.backoffUntil == s.backoffUntil
            && refusal.wait == after.hits[0] + p.window - now > 0
  {
    hide Live;
    LiveIsSuffix(s.hits, now - p.window);
  }

  /** From a full window, an attempt is granted exactly once the oldest hit has left. */
  lemma GrantedOnceLeft(p: Policy, s: WindowState, later: int)
    requires |s.hits| == p.requests && !InBackoff(s, later)
    ensures Acquire(p, s, later).1.Granted? <==> later >= s.hits[0] + p.window
  {
    hide Live;
    if later < s.hits[0] + p.window {
      TooEarly(p, s, later);
    } else {
      LiveIsSuffix(s.hits, later - p.window);
    }
  }

  /** A window refusal's wait is positive and exact: after any number of attempts made before it has passed, all
      of them refused, the next attempt is granted exactly if it comes at or after `now + wait`. */
  lemma WaitIsExact(p: Policy, s: WindowState, now: int, retries: seq<int>, later: int)
    requires |s.hits| <= p.requests
    requires Acquire(p, s, now).1.Refused? && Acquire(p, s, now).1.reason.WindowExhausted?
    requires forall t | t in retries + [later] :: now <= t && !InBackoff(s, t)
    requires forall t | t in retries :: t < now + Acquire(p, s, now).1.wait
    ensures var (after, refusal) := Acquire(p, s, now);
            && refusal.wait > 0
            && (forall t | t in retries :: Acquire(p, after, t).1.Refused?)
            && Attempts(p, after, retries) == after
            && (Acquire(p, Attempts(p, after, retries), later).1.Granted? <==> later >= now + refusal.wait)
  {
    hide Acquire, Attempts, Live;
    var (after, refusal) := Acquire(p, s, now);
    WindowRefusal(p, s, now);
    forall t | t in retries
      ensures !InBackoff(after, t) && t < after.hits[0] + p.window
      ensures Acquire(p, after, t).1.Refused?
    {
      assert t in retries + [later];
      TooEarly(p, after, t);
    }
    EarlyAttemptsChangeNothing(p, after, retries);
    assert later in retries + [later];
    GrantedOnceLeft(p, after, later);
  }

  lemma BackoffRefuses(p: Policy, s: WindowState, now: int)
    requires s.backoffUntil.Some?
    ensures var (after, d) := Acquire(p, s, now);
            && after.backoffUntil == s.backoffUntil
            && (now < s.backoffUntil.value <==> d.Refused? && d.reason.Backoff?)
            && (now < s.backoffUntil.value ==> d.wait == s.backoffUntil.value - now)
  {
  }

  /** Until the next penalty, the last one's end stands. */
  lemma {:induction false} BackoffStands(p: Policy, calls: seq<Call>, i: nat)
    requires i < |calls| && calls[i].PenaliseAt?
    requires forall j | i < j < |calls| :: calls[j].AcquireAt?
    ensures Run(p, calls).state.backoffUntil == Some(calls[i].now + calls[i].retryAfter)
  {
    hide Live;
    if i < |calls| - 1 {
      BackoffStands(p, calls[..|calls| - 1], i);
    }
  }

  /** Over any run, whatever the clock does, an attempt after a penalty and before the next one is refused for backoff
      exactly while the penalty lasts, and is told to wait for exactly its end. */
  lemma BackoffIsKept(p: Policy, calls: seq<Call>, i: nat, now: int)
    requires i < |calls| && calls[i].PenaliseAt?
    requires forall j | i < j < |calls| :: calls[j].AcquireAt?
    ensures var until, d := calls[i].now + calls[i].retryAfter, Acquire(p, Run(p, calls).state, now).1;
            && (now < until <==> d.Refused? && d.reason.Backoff?)
            && (now < until ==> now + d.wait == until)
  {
    hide Run, Acquire;
    BackoffStands(p, calls, i);
    BackoffRefuses(p, Run(p, calls).state, now);
  }

  /** `remaining`: the budget left in the window at `now`. */
  function Remaining(p: Policy, s: WindowState, now: int): int {
    var left := p.requests - LiveCount(s.hits, now - p.window);
    if left > 0 then left else 0
  }

  function LiveCount(hits: seq<int>, cutoff: int): nat {
    if hits == [] then 0 else
      LiveCount(hits[..|hits| - 1], cutoff) + if hits[|hits| - 1] > cutoff then 1 else 0
  }

  lemma {:induction false} LiveCountSplit(hits: seq<int>, cutoff: int)
    requires hits != []
    ensures LiveCount(hits, cutoff) == (if hits[0] > cutoff then 1 else 0) + LiveCount(hits[1..], cutoff)
  {
    if |hits| > 1 {
      LiveCountSplit(hits[..|hits| - 1], cutoff);
      assert hits[..|hits| - 1][1..] == hits[1..][..|hits| - 2];
    }
  }

  lemma {:induction false} LiveCountIsLive(hits: seq<int>, cutoff: int)
    requires Rising(hits)
    ensures LiveCount(hits, cutoff) == |Live(hits, cutoff)|
  {
    if hits != [] {
      LiveCountSplit(hits, cutoff);
      if hits[0] <= cutoff {
        LiveCountIsLive(hits[1..], cutoff);
      } else {
        AllLive(hits, cutoff);
      }
    }
  }

  lemma {:induction false} AllLive(hits: seq<int>, cutoff: int)
    requires forall i | 0 <= i < |hits| :: hits[i] > cutoff
    ensures LiveCount(hits, cutoff) == |hits|
  {
    if hits != [] {
      AllLive(hits[..|hits| - 1], cutoff);
    }
  }

  /** The reported remaining budget is the one `acquire` uses: outside a backoff a request is granted exactly
      when some is left, and then one less is. */
  lemma RemainingAgreesWithAcquire(p: Policy, s: WindowState, now: int)
    requires Rising(s.hits) && !InBackoff(s, now)
    ensures Acquire(p, s, now).1.Granted? <==> Remaining(p, s, now) > 0
    ensures Acquire(p, s, now).1.Granted? ==> Acquire(p, s, now).1.remaining == Remaining(p, s, now) - 1
  {
    LiveCountIsLive(s.hits, now - p.window);
  }

  // ------------------------------------------------------- every attempt of a run

  ghost predicate LastPenalty(calls: seq<Call>, i: nat) {
    i < |calls| && calls[i].PenaliseAt? && forall j | i < j < |calls| :: calls[j].AcquireAt?
  }

  /** The last penalty, if there was one, still lasts. */
  ghost predicate BackingOff(calls: seq<Call>, now: int) {
    exists i: nat :: LastPenalty(calls, i) && now < calls[i].now + calls[i].retryAfter
  }

  lemma {:induction false} NeverPenalised(p: Policy, calls: seq<Call>)
    ensures Run(p, calls).state.backoffUntil.None? || exists i: nat :: LastPenalty(calls, i)
  {
    hide Live;
    if calls != [] {
      var before, last := calls[..|calls| - 1], calls[|calls| - 1];
      NeverPenalised(p, before);
      if last.PenaliseAt? {
        assert LastPenalty(calls, |calls| - 1);
      } else if i: nat :| LastPenalty(before, i) {
        assert LastPenalty(calls, i);
      }
    }
  }

  lemma BackingOffIs(p: Policy, calls: seq<Call>, now: int)
    ensures InBackoff(Run(p, calls).state, now) <==> BackingOff(calls, now)
  {
    hide Run;
    NeverPenalised(p, calls);
    forall i: nat | LastPenalty(calls, i)
      ensures Run(p, calls).state.backoffUntil == Some(calls[i].now + calls[i].retryAfter)
    {
      BackoffStands(p, calls, i);
    }
  }

  lemma {:induction false} LiveDrops(times: seq<int>, k: nat, cutoff: int)
    requires k <= |times| && forall i | 0 <= i < k :: times[i] <= cutoff
    ensures Live(times, cutoff) == Live(times[k..], cutoff)
  {
    if k > 0 {
      LiveDrops(times[1..], k - 1, cutoff);
      assert times[1..][k - 1..] == times[k..];
    } else {
      assert times[0..] == times;
    }
  }

  lemma {:induction false} CountIsLiveCount(times: seq<int>, cutoff: int, now: int)
    requires forall i | 0 <= i < |times| :: times[i] <= now
    ensures Count(times, cutoff + 1, now + 1) == LiveCount(times, cutoff)
  {
    if times != [] {
      CountIsLiveCount(times[..|times| - 1], cutoff, now);
    }
  }

  lemma UsedIsLive(p: Policy, h: History, now: int)
    requires HistoryOk(p, h, now)
    ensures Count(h.grants, now - p.window + 1, now + 1) == |Live(h.state.hits, now - p.window)|
    ensures Rising(h.state.hits)
  {
    hide Live, LiveCount, Count;
    CountIsLiveCount(h.grants, now - p.window, now);
    LiveCountIsLive(h.grants, now - p.window);
    LiveDrops(h.grants, |h.grants| - |h.state.hits|, now - p.window);
  }

  lemma AcquireByUse(p: Policy, s: WindowState, now: int, used: nat)
    requires Rising(s.hits) && used == |Live(s.hits, now - p.window)|
    ensures var d := Acquire(p, s, now).1;
            && (d.Granted? <==> !InBackoff(s, now) && used < p.requests)
            && (d.Granted? ==> d.remaining == p.requests - used - 1)
            && (d.Refused? ==> (d.reason.Backoff? <==> InBackoff(s, now)))
            && Remaining(p, s, now) == if used < p.requests then p.requests - used else 0
  {
    hide Live, LiveCount, Rising;
    LiveCountIsLive(s.hits, now - p.window);
  }

  /** On a clock that does not go back, an attempt is granted exactly when no penalty lasts and fewer than the quota were
      granted in the window that ends with it; it is told what is then left. It is refused for backoff exactly while a
      penalty lasts, and otherwise for the window. */
  lemma GrantedExactly(p: Policy, calls: seq<Call>, now: int)
    requires Ordered(calls) && (calls != [] ==> calls[|calls| - 1].now <= now)
    ensures var h, d := Run(p, calls), Acquire(p, Run(p, calls).state, now).1;
            var used := Count(h.grants, now - p.window + 1, now + 1);
            && (d.Granted? <==> !BackingOff(calls, now) && used < p.requests)
            && (d.Granted? ==> d.remaining == p.requests - used - 1)
            && (d.Refused? ==> (d.reason.Backoff? <==> BackingOff(calls, now)))
            && Remaining(p, h.state, now) == (if used < p.requests then p.requests - used else 0)
            && Run(p, calls + [AcquireAt(now)]).grants == h.grants + if d.Granted? then [now] else []
  {
    hide Run, Live, Count, BackingOff, HistoryOk, InBackoff, Acquire, Remaining, Rising;
    var h := Run(p, calls);
    RunOk(p, calls, now);
    BackingOffIs(p, calls, now);
    UsedIsLive(p, h, now);
    AcquireByUse(p, h.state, now, Count(h.grants, now - p.window + 1, now + 1));
    RunMore(p, calls, AcquireAt(now));
  }

  // ---------------------------------------------------------------- the governor

  datatype Endpoint = Discovery | OptionChain | Quote | Historical | Order

  class RateLimitGovernor {
    const policies: map<Endpoint, Policy>
    var state: map<Endpoint, WindowState>

    function StateOf(endpoint: Endpoint): WindowState
      reads this
    {
      if endpoint in state then state[endpoint] else FRESH
    }

    constructor (policies: map<Endpoint, Policy>)
      ensures this.policies == policies
      ensures forall e :: StateOf(e) == FRESH
    {
      this.policies := policies;
      state := map[];
    }

    /** Attempt to consume one unit of budget; an endpoint without a policy is an error. */
    method TryAcquire(endpoint: Endpoint, now: int) returns (decision: Option<Decision>)
      modifies this
      ensures decision.Some? <==> endpoint in policies
      ensures decision.Some? ==> (StateOf(endpoint), decision.value) == Acquire(policies[endpoint], old(StateOf(endpoint)), now)
      ensures forall e | e != endpoint :: StateOf(e) == old(StateOf(e))
      ensures decision.None? ==> state == old(state)
    {
      if endpoint !in policies {
        return None;
      }
      var policy, current := policies[endpoint], StateOf(endpoint);
      if InBackoff(current, now) {
        state := state[endpoint := current];
        return Some(Refused(current.backoffUntil.value - now, Backoff));
      }
      var hits, cutoff := current.hits, now - policy.window;
      while hits != [] && hits[0] <= cutoff
        invariant Live(hits, cutoff) == Live(current.hits, cutoff)
        decreases |hits|
      {
        hits := hits[1..];
      }
      if |hits| >= policy.requests {
        state := state[endpoint := current.(hits := hits)];
        return Some(Refused(hits[0] + policy.window - now, WindowExhausted));
      }
      hits := hits + [now];
      state := state[endpoint := current.(hits := hits)];
      return Some(Granted(policy.requests - |hits|));
    }

    /** Record a provider refusal: the whole endpoint class backs off. */
    method Penalised(endpoint: Endpoint, now: int, retryAfter: int)
      modifies this
      ensures StateOf(endpoint) == Penalise(old(StateOf(endpoint)), now, retryAfter)
      ensures forall e | e != endpoint :: StateOf(e) == old(StateOf(e))
    {
      state := state[endpoint := StateOf(endpoint).(backoffUntil := Some(now + retryAfter))];
    }

    method BudgetLeft(endpoint: Endpoint, now: int) returns (left: Option<int>)
      ensures left == if endpoint in policies then Some(Remaining(policies[endpoint], StateOf(endpoint), now)) else None
    {
      if endpoint !in policies {
        return None;
      }
      var policy, hits, live := policies[endpoint], StateOf(endpoint).hits, 0;
      for i := 0 to |hits|
        invariant live == LiveCount(hits[..i], now - policy.window)
      {
        assert hits[..i + 1][..i] == hits[..i];
        if hits[i] > now - policy.window {
          live := live + 1;
        }
      }
      assert hits[..|hits|] == hits;
      return Some(if policy.requests - live > 0 then policy.requests - live else 0);
    }
  }
}
