/** The in-process sliding-window limiter (backend/app/core/rate_limit.py). */
module RateLimit {
  import opened Common

  const WINDOW := 60.0

  /** A principal and a command. */
  type Bucket = (string, string)

  /** The registered rate: none, `<limit>/min`, or text that does not parse. */
  datatype Rate = Unmetered | PerMinute(limit: int) | Malformed

  /** Passed calls are let through without being recorded. */
  datatype Verdict = Admitted | Refused | Passed

  type Calls = map<Bucket, seq<real>>

  function CallsOf(calls: Calls, bucket: Bucket): seq<real> {
    if bucket in calls then calls[bucket] else []
  }

  /** Drops the calls a window ending now has left behind, from the front, up to the first recent one. */
  function Trim(times: seq<real>, now: real): seq<real> {
    if times != [] && times[0] <= now - WINDOW then Trim(times[1..], now) else times
  }

  /** A request under its bucket's rate; no clock reading stands for a clock that failed. */
  datatype Request = Request(bucket: Bucket, rate: Rate, clock: Option<real>)

  predicate Metered(r: Request) {
    r.rate.PerMinute? && r.clock.Some?
  }

  function Checked(calls: Calls, r: Request): (Calls, Verdict) {
    if !Metered(r) then (calls, Passed)
    else
      var recent := Trim(CallsOf(calls, r.bucket), r.clock.value);
      if |recent| >= r.rate.limit then (calls[r.bucket := recent], Refused)
      else (calls[r.bucket := recent + [r.clock.value]], Admitted)
  }

  class InProcessRateLimiter {
    var calls: Calls

    constructor ()
      ensures calls == map[]
    {
      calls := map[];
    }

    method Check(r: Request) returns (verdict: Verdict)
      modifies this
      ensures (calls, verdict) == Checked(old(calls), r)
    {
      if r.rate.Unmetered? { return Passed; }
      if r.rate.Malformed? { return Passed; }
      var limit := r.rate.limit;
      if r.clock.None? { return Passed; }
      var now := r.clock.value;
      var times := CallsOf(calls, r.bucket);
      while times != [] && times[0] <= now - WINDOW
        invariant Trim(times, now) == Trim(CallsOf(calls, r.bucket), now)
        decreases |times|
      {
        times := times[1..];
      }
      calls := calls[r.bucket := times];
      if |times| >= limit { return Refused; }
      calls := calls[r.bucket := times + [now]];
      assert calls == old(calls)[r.bucket := times + [now]];
      return Admitted;
    }
  }

  // ---------------------------------------------------------------- runs

  function After(run: seq<Request>): Calls {
    if run == [] then map[] else Checked(After(run[..|run| - 1]), run[|run| - 1]).0
  }

  /** What the limiter answered to the request at position i. */
  function Answer(run: seq<Request>, i: nat): Verdict
    requires i < |run|
  {
    Checked(After(run[..i]), run[i]).1
  }

  /** The times of the bucket's admitted calls. */
  function Log(run: seq<Request>, bucket: Bucket): seq<real> {
    if run == [] then []
    else
      var last := run[|run| - 1];
      Log(run[..|run| - 1], bucket)
      + if last.bucket == bucket && Answer(run, |run| - 1) == Admitted then [last.clock.value] else []
  }

  /** How many of these times lie in (t - 60, t]. */
  function InWindow(times: seq<real>, t: real): nat {
    if times == [] then 0
    else InWindow(times[..|times| - 1], t) + if t - WINDOW < times[|times| - 1] <= t then 1 else 0
  }

  predicate MonotoneClock(run: seq<Request>) {
    forall i, j | 0 <= i < j < |run| && run[i].clock.Some? && run[j].clock.Some? ::
        run[i].clock.value <= run[j].clock.value
  }

  /** Every metered request of the bucket carries this limit. */
  predicate FixedLimit(run: seq<Request>, bucket: Bucket, limit: int) {
    forall r | r in run && r.bucket == bucket && Metered(r) :: r.rate.limit == limit
  }

  predicate Ascending(times: seq<real>) {
    forall i, j | 0 <= i < j < |times| :: times[i] <= times[j]
  }

  predicate AllAtMost(times: seq<real>, bound: real) {
    forall i | 0 <= i < |times| :: times[i] <= bound
  }

  predicate AllAfter(times: seq<real>, bound: real) {
    forall i | 0 <= i < |times| :: bound < times[i]
  }

  /**
   A call without a rate, with one that does not parse, or without a clock always passes and leaves no trace; no
   other does.
   */
  lemma UnmeteredPasses(calls: Calls, r: Request)
    ensures Checked(calls, r).1 == Passed <==> r.rate.Unmetered? || r.rate.Malformed? || r.clock.None?
    ensures Checked(calls, r).1 == Passed ==> Checked(calls, r).0 == calls
  {
  }

  // ---------------------------------------------------------------- windows and trimming

  lemma {:induction false} WindowSplits(a: seq<real>, b: seq<real>, t: real)
    ensures InWindow(a + b, t) == InWindow(a, t) + InWindow(b, t)
  {
    if b == [] {
      assert a + b == a;
    } else {
      assert (a + b)[..|a + b| - 1] == a + b[..|b| - 1];
      WindowSplits(a, b[..|b| - 1], t);
    }
  }

  lemma {:induction false} OldCallsAreOutside(times: seq<real>, t: real)
    requires AllAtMost(times, t - WINDOW)
    ensures InWindow(times, t) == 0
  {
    if times != [] { OldCallsAreOutside(times[..|times| - 1], t); }
  }

  lemma {:induction false} RecentCallsAreInside(times: seq<real>, t: real)
    requires AllAfter(times, t - WINDOW) && AllAtMost(times, t)
    ensures InWindow(times, t) == |times|
  {
    if times != [] { RecentCallsAreInside(times[..|times| - 1], t); }
  }

  /** A later window that ends after every call holds no more of them than an earlier such window. */
  lemma {:induction false} LaterWindowHoldsFewer(times: seq<real>, now: real, t: real)
    requires now <= t && AllAtMost(times, now)
    ensures InWindow(times, t) <= InWindow(times, now)
  {
    if times != [] { LaterWindowHoldsFewer(times[..|times| - 1], now, t); }
  }

  lemma {:induction false} TrimIsSuffix(times: seq<real>, now: real)
    requires Ascending(times)
    ensures var kept := Trim(times, now);
            && |kept| <= |times|
            && times[|times| - |kept|..] == kept
            && AllAtMost(times[..|times| - |kept|], now - WINDOW)
            && AllAfter(kept, now - WINDOW)
  {
    if times != [] && times[0] <= now - WINDOW {
      TrimIsSuffix(times[1..], now);
      var kept := Trim(times, now);
      assert times[..|times| - |kept|] == [times[0]] + times[1..][..|times| - 1 - |kept|];
    }
  }

  // ---------------------------------------------------------------- what the deque holds

  /** The deque is the end of the log, and what it lacks is older than a window ending at `last`. */
  ghost predicate Holds(log: seq<real>, deque: seq<real>, last: real) {
    && Ascending(log)
    && AllAtMost(log, last)
    && |deque| <= |log|
    && log[|log| - |deque|..] == deque
    && AllAtMost(log[..|log| - |deque|], last - WINDOW)
  }

  lemma HoldsLater(log: seq<real>, deque: seq<real>, last: real, now: real)
    requires Holds(log, deque, last) && last <= now
    ensures Holds(log, deque, now)
  {
  }

  lemma TrimmedHolds(log: seq<real>, deque: seq<real>, now: real)
    requires Holds(log, deque, now)
    ensures Holds(log, Trim(deque, now), now) && AllAfter(Trim(deque, now), now - WINDOW)
  {
    var kept := Trim(deque, now);
    assert Ascending(deque);
    TrimIsSuffix(deque, now);
    assert log[|log| - |kept|..] == kept;
    var stale := log[..|log| - |kept|];
    forall i | 0 <= i < |stale| ensures stale[i] <= now - WINDOW {
      if i < |log| - |deque| {
        assert stale[i] == log[..|log| - |deque|][i];
      } else {
        assert stale[i] == deque[..|deque| - |kept|][i - (|log| - |deque|)];
      }
    }
  }

  lemma RecentEndIsWindow(log: seq<real>, recent: seq<real>, now: real)
    requires Holds(log, recent, now) && AllAfter(recent, now - WINDOW)
    ensures |recent| == InWindow(log, now)
  {
    var stale := log[..|log| - |recent|];
    assert log == stale + recent;
    WindowSplits(stale, recent, now);
    OldCallsAreOutside(stale, now);
    RecentCallsAreInside(recent, now);
  }

  /** Trimming at `now` leaves exactly the calls of the window ending there. */
  lemma TrimmedIsWindow(log: seq<real>, deque: seq<real>, now: real)
    requires Holds(log, deque, now)
    ensures Holds(log, Trim(deque, now), now)
    ensures |Trim(deque, now)| == InWindow(log, now)
  {
    TrimmedHolds(log, deque, now);
    RecentEndIsWindow(log, Trim(deque, now), now);
  }

  lemma HoldsNewCall(log: seq<real>, deque: seq<real>, now: real)
    requires Holds(log, deque, now)
    ensures Holds(log + [now], deque + [now], now)
  {
    var log', deque' := log + [now], deque + [now];
    assert log'[..|log'| - |deque'|] == log[..|log| - |deque|];
    assert log'[|log'| - |deque'|..] == log[|log| - |deque|..] + [now];
  }

  predicate ReadingsAtMost(run: seq<Request>, now: real) {
    forall i | 0 <= i < |run| && run[i].clock.Some? :: run[i].clock.value <= now
  }

  lemma MeteredStepHolds(log: seq<real>, calls: Calls, r: Request)
    requires Metered(r) && Holds(log, CallsOf(calls, r.bucket), r.clock.value)
    ensures var (after, verdict) := Checked(calls, r);
            Holds(log + (if verdict == Admitted then [r.clock.value] else []), CallsOf(after, r.bucket), r.clock.value)
  {
    var now := r.clock.value;
    var kept := Trim(CallsOf(calls, r.bucket), now);
    TrimmedIsWindow(log, CallsOf(calls, r.bucket), now);
    HoldsNewCall(log, kept, now);
    assert log + [] == log;
  }

  /** After a run, at any reading not before its last one, the deque holds the log's recent end. */
  lemma {:induction false} DequeHoldsLog(run: seq<Request>, bucket: Bucket, now: real)
    requires MonotoneClock(run) && ReadingsAtMost(run, now)
    ensures Holds(Log(run, bucket), CallsOf(After(run), bucket), now)
    decreases |run|
  {
    if run != [] {
      var before, last := run[..|run| - 1], run[|run| - 1];
      if Metered(last) && last.bucket == bucket {
        var t := last.clock.value;
        DequeHoldsLog(before, bucket, t);
        MeteredStepHolds(Log(before, bucket), After(before), last);
        HoldsLater(Log(run, bucket), CallsOf(After(run), bucket), t, now);
      } else {
        DequeHoldsLog(before, bucket, now);
        assert Log(run, bucket) == Log(before, bucket);
      }
    }
  }

  // ---------------------------------------------------------------- the two bounds

  /** A metered request is refused exactly when its bucket's limit is already used up in (now - 60, now]. */
  lemma RefusedIffWindowFull(run: seq<Request>, i: nat)
    requires MonotoneClock(run) && i < |run| && Metered(run[i])
    ensures Answer(run, i) == Refused
        <==> InWindow(Log(run[..i], run[i].bucket), run[i].clock.value) >= run[i].rate.limit
    ensures Answer(run, i) != Passed
  {
    var before, r := run[..i], run[i];
    DequeHoldsLog(before, r.bucket, r.clock.value);
    TrimmedIsWindow(Log(before, r.bucket), CallsOf(After(before), r.bucket), r.clock.value);
  }

  /** No minute, wherever it starts, holds more admitted calls of a bucket than its limit. */
  lemma {:induction false} EveryWindowIsBounded(run: seq<Request>, bucket: Bucket, limit: int, t: real)
    requires MonotoneClock(run) && FixedLimit(run, bucket, limit)
    ensures InWindow(Log(run, bucket), t) <= if limit < 0 then 0 else limit
    decreases |run|
  {
    if run != [] {
      var before, last := run[..|run| - 1], run[|run| - 1];
      EveryWindowIsBounded(before, bucket, limit, t);
      if last.bucket == bucket && Answer(run, |run| - 1) == Admitted {
        var now := last.clock.value;
        assert run[..|run| - 1] == before;
        RefusedIffWindowFull(run, |run| - 1);
        WindowSplits(Log(before, bucket), [now], t);
        DequeHoldsLog(before, bucket, now);
        if now <= t { LaterWindowHoldsFewer(Log(before, bucket), now, t); }
        assert InWindow([now], t) <= 1 && (t < now ==> InWindow([now], t) == 0);
      } else {
        assert Log(run, bucket) == Log(before, bucket);
      }
    }
  }

  // ---------------------------------------------------------------- buckets never affect each other

  function Only(run: seq<Request>, bucket: Bucket): seq<Request> {
    if run == [] then []
    else Only(run[..|run| - 1], bucket) + if run[|run| - 1].bucket == bucket then [run[|run| - 1]] else []
  }

  /** A bucket's deque and log are those of the run of its own requests alone. */
  lemma {:induction false} BucketsAreIndependent(run: seq<Request>, bucket: Bucket)
    ensures CallsOf(After(run), bucket) == CallsOf(After(Only(run, bucket)), bucket)
    ensures Log(run, bucket) == Log(Only(run, bucket), bucket)
    decreases |run|
  {
    if run != [] {
      var before, last := run[..|run| - 1], run[|run| - 1];
      BucketsAreIndependent(before, bucket);
      var own := Only(run, bucket);
      if last.bucket == bucket {
        assert own[..|own| - 1] == Only(before, bucket) && own[|own| - 1] == last;
        SameCallsSameAnswer(After(before), After(Only(before, bucket)), last);
      } else {
        assert own == Only(before, bucket);
      }
    }
  }

  lemma SameCallsSameAnswer(a: Calls, b: Calls, r: Request)
    requires CallsOf(a, r.bucket) == CallsOf(b, r.bucket)
    ensures Checked(a, r).1 == Checked(b, r).1
    ensures CallsOf(Checked(a, r).0, r.bucket) == CallsOf(Checked(b, r).0, r.bucket)
  {
  }
}
