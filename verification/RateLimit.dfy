/** Sliding-window rate limiter over a Redis sorted set (app/common/rate_limit.py).

    A member of the sorted set is the printed timestamp and its score is that
    timestamp, so the set is modelled by the set of its scores: two calls with
    the same timestamp share one entry.  The client reads `now`, and the server
    executes the pipeline atomically at a later time `at`. */
module RateLimit {
  import opened Sets

  /** What the limiter's key holds: the scores, and the time at which it expires. */
  datatype Window = Window(entries: set<real>, deadline: real)

  datatype Limit = Limit(maxCalls: nat, seconds: nat)

  /** `executed`: the pipeline took effect.  `answered`: the client saw its result. */
  datatype Call = Call(now: real, at: real, executed: bool, answered: bool)

  datatype Outcome = Admitted | Refused | FailedOpen

  const EMPTY := Window({}, 0.0)

  /** The entries still there at time `at`: a key is gone once its deadline is reached. */
  function Live(w: Window, at: real): set<real> {
    if at >= w.deadline then {} else w.entries
  }

  function Pruned(w: Window, l: Limit, c: Call): set<real> {
    set t | t in Live(w, c.at) && t > c.now - l.seconds as real
  }

  function After(w: Window, l: Limit, c: Call): Window {
    if c.executed then Window(Pruned(w, l, c) + {c.now}, c.at + l.seconds as real + 1.0) else w
  }

  function Decide(w: Window, l: Limit, c: Call): Outcome {
    if !(c.executed && c.answered) then FailedOpen
    else if |Pruned(w, l, c)| >= l.maxCalls then Refused
    else Admitted
  }

  /** The key in Redis.  One `Check` is one request. */
  class SlidingWindow {
    const limit: Limit
    var entries: set<real>
    var deadline: real

    constructor (limit: Limit)
      ensures this.limit == limit && View() == EMPTY
    {
      this.limit := limit;
      entries, deadline := {}, 0.0;
    }

    function View(): Window
      reads this
    {
      Window(entries, deadline)
    }

    method Check(c: Call) returns (outcome: Outcome)
      modifies this
      ensures View() == After(old(View()), limit, c)
      ensures outcome == Decide(old(View()), limit, c)
    {
      if !c.executed {
        return FailedOpen;
      }
      var windowStart := c.now - limit.seconds as real;
      if c.at >= deadline {
        entries := {};
      }
      entries := set t | t in entries && !(t <= windowStart);   // zremrangebyscore
      var count := |entries|;                                    // zcard
      entries := entries + {c.now};                              // zadd
      deadline := c.at + limit.seconds as real + 1.0;            // expire
      assert old(Pruned(View(), limit, c)) == set t | t in Live(old(View()), c.at) && !(t <= windowStart);
      if !c.answered {
        return FailedOpen;
      }
      return if count >= limit.maxCalls then Refused else Admitted;
    }
  }

  // ---------------------------------------------------------------- runs

  function Run(l: Limit, h: seq<Call>): Window {
    if h == [] then EMPTY else After(Run(l, h[..|h| - 1]), l, h[|h| - 1])
  }

  function OutcomeAt(l: Limit, h: seq<Call>, i: nat): Outcome
    requires i < |h|
  {
    Decide(Run(l, h[..i]), l, h[i])
  }

  /** The distinct timestamps ever recorded, by admitted and refused calls alike. */
  function Arrivals(h: seq<Call>): set<real> {
    set i | 0 <= i < |h| && h[i].executed :: h[i].now
  }

  /** The distinct timestamps in [lo, hi) of calls admitted through Redis. */
  function AdmittedIn(l: Limit, h: seq<Call>, lo: real, hi: real): set<real> {
    set i | 0 <= i < |h| && OutcomeAt(l, h, i) == Admitted && lo <= h[i].now < hi :: h[i].now
  }

  /** Pipelines execute in order of `at`, each at most `lag` after its timestamp was read. */
  ghost predicate Lagging(h: seq<Call>, lag: real) {
    && (forall i :: 0 <= i < |h| ==> 0.0 <= h[i].now <= h[i].at <= h[i].now + lag)
    && (forall i, j :: 0 <= i < j < |h| ==> h[i].at <= h[j].at)
  }

  lemma {:induction false} DeadlineAfter(l: Limit, h: seq<Call>, lag: real, i: nat)
    requires Lagging(h, lag) && i < |h| && h[i].executed
    ensures Run(l, h).deadline >= h[i].at + l.seconds as real + 1.0
  {
    var p := h[..|h| - 1];
    if i < |p| && !h[|p|].executed {
      DeadlineAfter(l, p, lag, i);
    }
  }

  /** A recorded timestamp survives every later pruning and expiry while the clock is below it plus the window. */
  lemma {:induction false} Retained(l: Limit, h: seq<Call>, lag: real, i: nat, clock: real)
    requires Lagging(h, lag) && i < |h| && h[i].executed
    requires forall j :: 0 <= j < |h| ==> h[j].at <= clock
    requires clock < h[i].now + l.seconds as real
    ensures h[i].now in Run(l, h).entries
  {
    var p := h[..|h| - 1];
    if i < |p| {
      Retained(l, p, lag, i, clock);
      DeadlineAfter(l, p, lag, i);
      assert p[i] == h[i];
    }
  }

  function ArrivedIn(h: seq<Call>, lo: real, hi: real): set<real> {
    set t | t in Arrivals(h) && lo <= t < hi
  }

  /** An admitted call found fewer than `maxCalls` recorded timestamps in the interval it lies in. */
  lemma FewBefore(l: Limit, h: seq<Call>, c: Call, lag: real, lo: real, hi: real)
    requires Lagging(h + [c], lag) && hi == lo + l.seconds as real - lag
    requires Decide(Run(l, h), l, c) == Admitted
    requires lo <= c.now < hi
    ensures |ArrivedIn(h, lo, hi)| < l.maxCalls
  {
    var g := h + [c];
    assert g[|h|] == c && forall i :: 0 <= i < |h| ==> g[i] == h[i];
    forall t | t in ArrivedIn(h, lo, hi)
      ensures t in Pruned(Run(l, h), l, c)
    {
      var i: nat :| i < |h| && h[i].executed && h[i].now == t;
      Retained(l, h, lag, i, c.at);
      DeadlineAfter(l, h, lag, i);
    }
    Smaller(ArrivedIn(h, lo, hi), Pruned(Run(l, h), l, c));
  }

  lemma PrefixOutcome(l: Limit, p: seq<Call>, c: Call, i: nat)
    requires i < |p|
    ensures OutcomeAt(l, p + [c], i) == OutcomeAt(l, p, i)
  {
    assert (p + [c])[..i] == p[..i];
  }

  /** Only the last call can add a timestamp to those admitted before. */
  lemma AdmittedStep(l: Limit, p: seq<Call>, c: Call, lo: real, hi: real)
    ensures AdmittedIn(l, p + [c], lo, hi) ==
      AdmittedIn(l, p, lo, hi) + if Decide(Run(l, p), l, c) == Admitted && lo <= c.now < hi then {c.now} else {}
  {
    var h := p + [c];
    assert h[..|p|] == p && h[|p|] == c;
    assert OutcomeAt(l, h, |p|) == Decide(Run(l, p), l, c);
    forall i: nat | i < |p| ensures OutcomeAt(l, h, i) == OutcomeAt(l, p, i) && h[i] == p[i] {
      PrefixOutcome(l, p, c, i);
    }
  }

  lemma AdmittedArrived(l: Limit, h: seq<Call>, lo: real, hi: real)
    ensures |AdmittedIn(l, h, lo, hi)| <= |ArrivedIn(h, lo, hi)|
  {
    Smaller(AdmittedIn(l, h, lo, hi), ArrivedIn(h, lo, hi));
  }

  lemma BoundedStep(l: Limit, p: seq<Call>, c: Call, lag: real, lo: real, hi: real)
    requires Lagging(p + [c], lag) && hi == lo + l.seconds as real - lag
    requires |AdmittedIn(l, p, lo, hi)| <= l.maxCalls
    ensures |AdmittedIn(l, p + [c], lo, hi)| <= l.maxCalls
  {
    AdmittedStep(l, p, c, lo, hi);
    if Decide(Run(l, p), l, c) == Admitted && lo <= c.now < hi {
      FewBefore(l, p, c, lag, lo, hi);
      AdmittedArrived(l, p, lo, hi);
      Changed(AdmittedIn(l, p, lo, hi), c.now);
    } else {
      assert AdmittedIn(l, p, lo, hi) + {} == AdmittedIn(l, p, lo, hi);
    }
  }

  /** Safety of every run: no half-open interval of length window - lag holds more
      than `maxCalls` distinct timestamps of admitted calls, whatever the order in
      which the pipelines execute and whenever the key expires. */
  lemma {:induction false} BoundedAdmissions(l: Limit, h: seq<Call>, lag: real, lo: real)
    requires Lagging(h, lag)
    ensures |AdmittedIn(l, h, lo, lo + l.seconds as real - lag)| <= l.maxCalls
  {
    if h == [] {
      assert AdmittedIn(l, h, lo, lo + l.seconds as real - lag) == {};
    } else {
      var p, c := h[..|h| - 1], h[|h| - 1];
      assert h == p + [c];
      BoundedAdmissions(l, p, lag, lo);
      BoundedStep(l, p, c, lag, lo, lo + l.seconds as real - lag);
    }
  }

  ghost predicate BoundedOn(l: Limit, h: seq<Call>, lag: real, extra: real, lo: real) {
    |AdmittedIn(l, h, lo, lo + l.seconds as real - lag + extra)| <= l.maxCalls
  }

  /** Does the bound hold in every run of a limit for intervals of length window - lag + extra? */
  ghost predicate BoundHolds(l: Limit, lag: real, extra: real) {
    forall h, lo :: Lagging(h, lag) ==> BoundedOn(l, h, lag, extra, lo)
  }

  lemma RunStep(l: Limit, h: seq<Call>, c: Call)
    ensures Run(l, h + [c]) == After(Run(l, h), l, c)
  {
    assert (h + [c])[..|h|] == h;
  }

  function Prompt(now: real): Call { Call(now, now, true, true) }

  function Tick(gap: real, k: nat): real { if k == 0 then 0.0 else Tick(gap, k - 1) + gap }

  /** `n` prompt calls, one after every gap. */
  function Burst(gap: real, n: nat): seq<Call> {
    if n == 0 then [] else Burst(gap, n - 1) + [Prompt(Tick(gap, n - 1))]
  }

  lemma {:induction false} TickIs(gap: real, k: nat)
    ensures Tick(gap, k) == k as real * gap
  {
    if k > 0 {
      TickIs(gap, k - 1);
    }
  }

  /** A burst of up to `maxCalls` calls is admitted as a whole. */
  lemma {:induction false} BurstAdmitted(l: Limit, gap: real, n: nat, hi: real)
    requires gap > 0.0 && n <= l.maxCalls && Tick(gap, n) <= hi
    ensures Tick(gap, n) >= 0.0 && |Run(l, Burst(gap, n)).entries| <= n
    ensures forall t :: t in Run(l, Burst(gap, n)).entries ==> t < Tick(gap, n)
    ensures |AdmittedIn(l, Burst(gap, n), 0.0, hi)| == n
    ensures forall t :: t in AdmittedIn(l, Burst(gap, n), 0.0, hi) ==> t < Tick(gap, n)
  {
    hide AdmittedIn, Tick;
    TickStep(gap, n);
    if n == 0 {
      NoneAdmitted(l, 0.0, hi);
    } else {
      var p, c := Burst(gap, n - 1), Prompt(Tick(gap, n - 1));
      BurstAdmitted(l, gap, n - 1, hi);
      BurstCall(l, p, c);
      AdmittedStep(l, p, c, 0.0, hi);
    }
  }

  lemma TickStep(gap: real, k: nat)
    ensures Tick(gap, k) == if k == 0 then 0.0 else Tick(gap, k - 1) + gap
  {
  }

  lemma NoneAdmitted(l: Limit, lo: real, hi: real)
    ensures AdmittedIn(l, [], lo, hi) == {}
  {
  }

  /** A prompt call after fewer than `maxCalls` entries, all earlier, is admitted and recorded. */
  lemma BurstCall(l: Limit, p: seq<Call>, c: Call)
    requires c == Prompt(c.now) && |Run(l, p).entries| < l.maxCalls
    ensures Decide(Run(l, p), l, c) == Admitted
    ensures |Run(l, p + [c]).entries| <= |Run(l, p).entries| + 1
    ensures forall t :: t in Run(l, p + [c]).entries ==> t in Run(l, p).entries || t == c.now
  {
    RunStep(l, p, c);
    Smaller(Pruned(Run(l, p), l, c), Run(l, p).entries);
    Changed(Pruned(Run(l, p), l, c), c.now);
  }

  lemma {:induction false} BurstLags(gap: real, n: nat, lag: real)
    requires gap > 0.0 && lag >= 0.0
    ensures |Burst(gap, n)| == n && Lagging(Burst(gap, n), lag) && Tick(gap, n) >= 0.0
    ensures forall i :: 0 <= i < n ==> Burst(gap, n)[i].at < Tick(gap, n)
  {
    if n > 0 {
      BurstLags(gap, n - 1, lag);
    }
  }

  /** A burst fills the window; a call one window later prunes it; a last call whose
      timestamp was read `lag` before that one executes. */
  function Overtaking(l: Limit, gap: real, lag: real): seq<Call> {
    var last := l.seconds as real + Tick(gap, l.maxCalls);
    Burst(gap, l.maxCalls) + [Prompt(last)] + [Call(last - lag, last, true, true)]
  }

  lemma OvertakingLags(l: Limit, gap: real, lag: real)
    requires gap > 0.0 && 0.0 <= lag < l.seconds as real
    ensures Lagging(Overtaking(l, gap, lag), lag)
  {
    BurstLags(gap, l.maxCalls, lag);
  }

  lemma TooMany(l: Limit, gap: real, lag: real, hi: real)
    requires l.maxCalls >= 2 && gap > 0.0 && 0.0 <= lag < l.seconds as real
    requires l.seconds as real + Tick(gap, l.maxCalls) - lag < hi
    ensures |AdmittedIn(l, Overtaking(l, gap, lag), 0.0, hi)| > l.maxCalls
  {
    hide AdmittedIn, Tick, Decide, Run;
    var burst, e := Burst(gap, l.maxCalls), Tick(gap, l.maxCalls);
    var w := l.seconds as real;
    var pruning, late := Prompt(w + e), Call(w + e - lag, w + e, true, true);
    BurstLags(gap, l.maxCalls, lag);
    BurstAdmitted(l, gap, l.maxCalls, hi);
    LateAdmitted(l, burst, pruning, late);
    AdmittedStep(l, burst, pruning, 0.0, hi);
    AdmittedStep(l, burst + [pruning], late, 0.0, hi);
    var admitted := AdmittedIn(l, burst, 0.0, hi);
    assert late.now !in admitted;
    Smaller(admitted + {late.now}, AdmittedIn(l, Overtaking(l, gap, lag), 0.0, hi));
  }

  lemma LateAdmitted(l: Limit, p: seq<Call>, pruning: Call, late: Call)
    requires l.maxCalls >= 2 && pruning == Prompt(pruning.now) && late.executed && late.answered
    requires forall t :: t in Run(l, p).entries ==> t <= pruning.now - l.seconds as real
    ensures Decide(Run(l, p + [pruning]), l, late) == Admitted
  {
    RunStep(l, p, pruning);
    assert Pruned(Run(l, p), l, pruning) == {};
    Singleton(Pruned(Run(l, p + [pruning]), l, late), pruning.now);
  }

  lemma ShorterHolds(l: Limit, h: seq<Call>, lag: real, extra: real, lo: real)
    requires Lagging(h, lag) && extra <= 0.0
    ensures BoundedOn(l, h, lag, extra, lo)
  {
    BoundedAdmissions(l, h, lag, lo);
    Smaller(AdmittedIn(l, h, lo, lo + l.seconds as real - lag + extra),
            AdmittedIn(l, h, lo, lo + l.seconds as real - lag));
  }

  lemma ManyCallsSharp(l: Limit, lag: real, extra: real)
    requires l.maxCalls >= 2 && 0.0 <= lag < l.seconds as real
    ensures BoundHolds(l, lag, extra) <==> extra <= 0.0
  {
    if extra <= 0.0 {
      forall h, lo | Lagging(h, lag) ensures BoundedOn(l, h, lag, extra, lo) {
        ShorterHolds(l, h, lag, extra, lo);
      }
    } else {
      var m := l.maxCalls as real;
      var gap := extra / (m + 1.0);
      TickIs(gap, l.maxCalls);
      assert m * gap + gap == extra;
      OvertakingLags(l, gap, lag);
      TooMany(l, gap, lag, 0.0 + l.seconds as real - lag + extra);
      assert !BoundedOn(l, Overtaking(l, gap, lag), lag, extra, 0.0);
    }
  }

  /** Some entry is never older than a recorded call: only newer calls prune it, and a call
      that finds the key expired is newer too. */
  lemma {:induction false} NewestStays(l: Limit, h: seq<Call>, lag: real, i: nat)
    requires Lagging(h, lag) && lag < l.seconds as real && i < |h| && h[i].executed
    ensures exists t :: t in Run(l, h).entries && t >= h[i].now
  {
    var p, q := h[..|h| - 1], h[|h| - 1];
    assert h == p + [q];
    RunStep(l, p, q);
    if q.executed {
      assert q.now in Run(l, h).entries;
    }
    if i < |p| {
      NewestStays(l, p, lag, i);
      DeadlineAfter(l, p, lag, i);
      var t :| t in Run(l, p).entries && t >= p[i].now;
      assert t in Run(l, h).entries || q.now >= h[i].now;
    }
  }

  /** With a limit of one call, an admitted call is a window, or all but the lag of the time to
      live, away from every call recorded before it. */
  lemma Apart(l: Limit, h: seq<Call>, c: Call, lag: real, i: nat)
    requires l.maxCalls == 1 && Lagging(h + [c], lag) && lag < l.seconds as real && i < |h| && h[i].executed
    requires Decide(Run(l, h), l, c) == Admitted
    ensures c.now - h[i].now >= l.seconds as real - lag + Slack(l, lag)
  {
    var g := h + [c];
    assert g[|h|] == c && forall j :: 0 <= j < |h| ==> g[j] == h[j];
    NewestStays(l, h, lag, i);
    DeadlineAfter(l, h, lag, i);
    assert Pruned(Run(l, h), l, c) == {};
    var t :| t in Run(l, h).entries && t >= h[i].now;
    assert t !in Pruned(Run(l, h), l, c);
  }

  lemma Alone(l: Limit, p: seq<Call>, c: Call, lag: real, lo: real, hi: real)
    requires l.maxCalls == 1 && Lagging(p + [c], lag) && lag < l.seconds as real
    requires hi - lo <= l.seconds as real - lag + Slack(l, lag)
    requires Decide(Run(l, p), l, c) == Admitted && lo <= c.now < hi
    ensures AdmittedIn(l, p, lo, hi) == {}
  {
    hide Run;
    forall t | t in AdmittedIn(l, p, lo, hi) ensures false {
      var i: nat :| i < |p| && OutcomeAt(l, p, i) == Admitted && p[i].now == t;
      Apart(l, p, c, lag, i);
    }
  }

  lemma {:induction false} OneCallHolds(l: Limit, h: seq<Call>, lag: real, lo: real, hi: real)
    requires l.maxCalls == 1 && Lagging(h, lag) && lag < l.seconds as real
    requires hi - lo <= l.seconds as real - lag + Slack(l, lag)
    ensures |AdmittedIn(l, h, lo, hi)| <= 1
  {
    hide AdmittedIn, Run;
    if h == [] {
      NoneAdmitted(l, lo, hi);
    } else {
      var p, c := h[..|h| - 1], h[|h| - 1];
      assert h == p + [c];
      OneCallHolds(l, p, lag, lo, hi);
      AdmittedStep(l, p, c, lo, hi);
      if Decide(Run(l, p), l, c) == Admitted && lo <= c.now < hi {
        Alone(l, p, c, lag, lo, hi);
      }
    }
  }

  function TwoCalls(l: Limit, lag: real): seq<Call> {
    var w := l.seconds as real;
    [Prompt(0.0)] + [if lag <= 1.0 then Prompt(w) else Call(w + 1.0 - lag, w + 1.0, true, true)]
  }

  lemma OneCallFails(l: Limit, lag: real, extra: real)
    requires l.maxCalls == 1 && 0.0 <= lag < l.seconds as real && extra > Slack(l, lag)
    ensures Lagging(TwoCalls(l, lag), lag) && !BoundedOn(l, TwoCalls(l, lag), lag, extra, 0.0)
  {
    hide AdmittedIn, Lagging;
    var h, hi := TwoCalls(l, lag), 0.0 + l.seconds as real - lag + extra;
    TwoCallsLag(l, lag);
    var first := [Prompt(0.0)];
    assert [] + first == first;
    RunStep(l, [], Prompt(0.0));
    assert Pruned(Run(l, []), l, Prompt(0.0)) == {} == Pruned(Run(l, first), l, h[1]);
    AdmittedStep(l, [], Prompt(0.0), 0.0, hi);
    AdmittedStep(l, first, h[1], 0.0, hi);
    Smaller({0.0, h[1].now}, AdmittedIn(l, h, 0.0, hi));
  }

  lemma TwoCallsLag(l: Limit, lag: real)
    requires 0.0 <= lag < l.seconds as real
    ensures Lagging(TwoCalls(l, lag), lag)
  {
  }

  /** By how much an interval may exceed window - lag. */
  function Slack(l: Limit, lag: real): real {
    if l.maxCalls != 1 then 0.0 else if lag <= 1.0 then lag else 1.0
  }

  /** The exact interval length, for every limit and every lag below its window: two or more
      calls are bounded exactly up to window - lag, one call exactly up to the window or, with
      a lag of more than a second, to the time to live less the lag. */
  lemma BoundIsSharp(l: Limit, lag: real, extra: real)
    requires 0.0 <= lag < l.seconds as real
    ensures BoundHolds(l, lag, extra) <==> l.maxCalls == 0 || extra <= Slack(l, lag)
  {
    if l.maxCalls == 0 {
      forall h, lo ensures BoundedOn(l, h, lag, extra, lo) {
        assert AdmittedIn(l, h, lo, lo + l.seconds as real - lag + extra) == {};
      }
    } else if l.maxCalls >= 2 {
      ManyCallsSharp(l, lag, extra);
    } else if extra <= Slack(l, lag) {
      forall h, lo | Lagging(h, lag) ensures BoundedOn(l, h, lag, extra, lo) {
        OneCallHolds(l, h, lag, lo, lo + l.seconds as real - lag + extra);
      }
    } else {
      OneCallFails(l, lag, extra);
    }
  }

  // ---------------------------------------------------------------- the unbounded log

  ghost predicate InOrder(h: seq<Call>, lag: real) {
    Lagging(h, lag) && forall i, j :: 0 <= i < j < |h| ==> h[i].now <= h[j].now
  }

  /** The textbook sliding window: count every earlier arrival in (now - window, now]. */
  function Recent(l: Limit, h: seq<Call>, c: Call): set<real> {
    set t | t in Arrivals(h) && c.now - l.seconds as real < t <= c.now
  }

  function IdealDecide(l: Limit, h: seq<Call>, c: Call): Outcome {
    if !(c.executed && c.answered) then FailedOpen
    else if |Recent(l, h, c)| < l.maxCalls then Admitted
    else Refused
  }

  lemma {:induction false} OnlyArrivals(l: Limit, h: seq<Call>)
    ensures Run(l, h).entries <= Arrivals(h)
  {
    if h != [] {
      var p := h[..|h| - 1];
      OnlyArrivals(l, p);
      assert h == p + [h[|p|]];
      assert Arrivals(p) <= Arrivals(h);
    }
  }

  lemma {:induction false} RecentIsLive(l: Limit, h: seq<Call>, c: Call, lag: real, i: nat)
    requires InOrder(h + [c], lag) && lag <= 1.0
    requires i < |h| && h[i].executed && c.now - l.seconds as real < h[i].now
    ensures h[i].now in Live(Run(l, h), c.at)
  {
    var g, p, q := h + [c], h[..|h| - 1], h[|h| - 1];
    assert g[|h|] == c && g[i] == h[i] && g[|p|] == q;
    if i < |p| {
      var d := if q.executed then q else c;
      assert forall k :: 0 <= k < |p| ==> (p + [d])[k] == g[k];
      RecentIsLive(l, p, d, lag, i);
    }
  }

  /** Refinement: with prompt, in-order pipelines the pruned and expiring set
      decides as an unbounded log of all arrivals does. */
  lemma RefinesFullLog(l: Limit, h: seq<Call>, c: Call, lag: real)
    requires InOrder(h + [c], lag) && lag <= 1.0
    ensures Pruned(Run(l, h), l, c) == Recent(l, h, c)
    ensures Decide(Run(l, h), l, c) == IdealDecide(l, h, c)
  {
    OnlyArrivals(l, h);
    var g := h + [c];
    assert g[|h|] == c && forall i :: 0 <= i < |h| ==> g[i] == h[i];
    forall t | t in Recent(l, h, c) ensures t in Live(Run(l, h), c.at) {
      var i: nat :| i < |h| && h[i].executed && h[i].now == t;
      RecentIsLive(l, h, c, lag, i);
    }
  }

  /** Does the pruned and expiring set of a limit decide as the log does in every in-order run? */
  ghost predicate TtlIsHarmless(l: Limit, lag: real) {
    forall h: seq<Call>, c: Call :: InOrder(h + [c], lag) ==> Decide(Run(l, h), l, c) == IdealDecide(l, h, c)
  }

  lemma BurstDeadline(l: Limit, gap: real, n: nat)
    requires n > 0
    ensures Run(l, Burst(gap, n)).deadline == Tick(gap, n - 1) + l.seconds as real + 1.0
  {
    RunStep(l, Burst(gap, n - 1), Prompt(Tick(gap, n - 1)));
  }

  lemma BurstInOrder(gap: real, n: nat, c: Call, lag: real)
    requires gap > 0.0 && lag >= 0.0 && Tick(gap, n) <= c.now <= c.at <= c.now + lag
    ensures InOrder(Burst(gap, n) + [c], lag)
  {
    BurstLags(gap, n, lag);
    var h := Burst(gap, n);
    BurstSorted(gap, n);
    assert forall i :: 0 <= i < n ==> (h + [c])[i] == h[i];
  }

  lemma {:induction false} BurstSorted(gap: real, n: nat)
    requires gap > 0.0
    ensures |Burst(gap, n)| == n
    ensures forall i :: 0 <= i < n ==> Burst(gap, n)[i].now < Tick(gap, n)
    ensures forall i, j :: 0 <= i < j < n ==> Burst(gap, n)[i].now <= Burst(gap, n)[j].now
  {
    if n > 0 {
      BurstSorted(gap, n - 1);
    }
  }

  /** A burst fills the window; a further call executes when the key has just expired although
      its timestamp is less than a window after the first call. */
  lemma ExpiredTooEarly(l: Limit, gap: real, c: Call)
    requires l.maxCalls >= 1 && gap > 0.0 && c.executed && c.answered
    requires Tick(gap, l.maxCalls) <= c.now < l.seconds as real
    requires c.at >= Tick(gap, l.maxCalls - 1) + l.seconds as real + 1.0
    ensures Decide(Run(l, Burst(gap, l.maxCalls)), l, c) == Admitted
    ensures IdealDecide(l, Burst(gap, l.maxCalls), c) == Refused
  {
    hide Tick, Burst, Run, AdmittedIn, Arrivals;
    var h, e := Burst(gap, l.maxCalls), Tick(gap, l.maxCalls);
    BurstDeadline(l, gap, l.maxCalls);
    assert Pruned(Run(l, h), l, c) == {};
    BurstAdmitted(l, gap, l.maxCalls, e);
    forall t | t in AdmittedIn(l, h, 0.0, e) ensures t in Recent(l, h, c) {
      AdmittedAreArrivals(l, h, 0.0, e);
    }
    Smaller(AdmittedIn(l, h, 0.0, e), Recent(l, h, c));
  }

  lemma AdmittedAreArrivals(l: Limit, h: seq<Call>, lo: real, hi: real)
    ensures forall t :: t in AdmittedIn(l, h, lo, hi) ==> t in Arrivals(h) && lo <= t < hi
  {
  }

  /** The one second added to the time to live is exactly the lag it can absorb, for every
      limit that admits calls and has a window. */
  lemma TtlAbsorbsOneSecond(l: Limit, lag: real)
    requires 0.0 <= lag
    ensures TtlIsHarmless(l, lag) <==> l.maxCalls == 0 || l.seconds == 0 || lag <= 1.0
  {
    if l.maxCalls == 0 || l.seconds == 0 || lag <= 1.0 {
      forall h: seq<Call>, c: Call | InOrder(h + [c], lag)
        ensures Decide(Run(l, h), l, c) == IdealDecide(l, h, c)
      {
        if lag <= 1.0 {
          RefinesFullLog(l, h, c, lag);
        } else if l.seconds == 0 {
          NoWindow(l, h, c, lag);
        }
      }
    } else {
      var gap, c := LateCall(l, lag);
      hide Tick, Decide, IdealDecide, InOrder;
      ExpiredTooEarly(l, gap, c);
      BurstInOrder(gap, l.maxCalls, c, lag);
    }
  }

  /** A burst and a last call as `ExpiredTooEarly` needs them. */
  lemma LateCall(l: Limit, lag: real) returns (gap: real, c: Call)
    requires l.maxCalls >= 1 && l.seconds >= 1 && lag > 1.0
    ensures gap > 0.0 && c.executed && c.answered && c.now <= c.at <= c.now + lag
    ensures Tick(gap, l.maxCalls) <= c.now < l.seconds as real
    ensures c.at >= Tick(gap, l.maxCalls - 1) + l.seconds as real + 1.0
  {
    var w, m := l.seconds as real, l.maxCalls as real;
    var room := if lag - 1.0 < w then lag - 1.0 else w;
    gap := room / (m + 1.0);
    assert m * gap + gap == room;
    TickIs(gap, l.maxCalls);
    TickStep(gap, l.maxCalls);
    hide Tick;
    var e := Tick(gap, l.maxCalls);
    var at := e - gap + w + 1.0;
    c := Call(if at - lag < e then e else at - lag, at, true, true);
  }

  /** Without a window neither the set nor the log counts anything. */
  lemma NoWindow(l: Limit, h: seq<Call>, c: Call, lag: real)
    requires l.seconds == 0 && InOrder(h + [c], lag)
    ensures Pruned(Run(l, h), l, c) == Recent(l, h, c) == {}
  {
    OnlyArrivals(l, h);
    var g := h + [c];
    assert g[|h|] == c && forall i :: 0 <= i < |h| ==> g[i] == h[i];
  }

  lemma {:induction false} FewArrivals(h: seq<Call>)
    ensures |Arrivals(h)| <= |h|
  {
    if h == [] {
      assert Arrivals(h) == {};
    } else {
      var p, c := h[..|h| - 1], h[|h| - 1];
      FewArrivals(p);
      assert h == p + [c];
      Smaller(Arrivals(h), Arrivals(p) + {c.now});
      Changed(Arrivals(p), c.now);
    }
  }

  /** A window of silence restores the full allowance: the next `maxCalls` calls are
      admitted in whatever order they execute, after any history. */
  lemma SilenceRestores(l: Limit, h: seq<Call>, next: seq<Call>, i: nat)
    requires forall t, j :: t in Arrivals(h) && 0 <= j < |next| ==> t <= next[j].now - l.seconds as real
    requires i < |next| <= l.maxCalls && next[i].executed && next[i].answered
    ensures OutcomeAt(l, h + next, |h| + i) == Admitted
  {
    var g := h + next;
    var p, q := g[..|h| + i], next[..i];
    assert p == h + q && g[|h| + i] == next[i];
    OnlyArrivals(l, p);
    forall j | 0 <= j < |h| && p[j].executed ensures p[j].now <= next[i].now - l.seconds as real {
      assert h[j].now in Arrivals(h);
    }
    forall t | t in Pruned(Run(l, p), l, next[i]) ensures t in Arrivals(q) {
      var j: nat :| j < |p| && p[j].executed && p[j].now == t;
      assert q[j - |h|] == p[j];
    }
    Smaller(Pruned(Run(l, p), l, next[i]), Arrivals(q));
    FewArrivals(q);
  }
}
