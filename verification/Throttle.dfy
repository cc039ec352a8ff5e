/** The rate-limited copy of children's progress lines: at most one line per
    interval, decided under a lock by a clock read there. */
module Throttle {

  /** Instants in nanoseconds from the zero time; the zero time is 0. */
  type Instant = int

  const MAX_DURATION: int := 0x7FFF_FFFF_FFFF_FFFF
  const MIN_DURATION: int := -0x8000_0000_0000_0000

  /** Nanoseconds, as wide as a duration is. */
  type Duration = d: int | MIN_DURATION <= d <= MAX_DURATION

  /** The difference of two instants, held to what a duration can say. */
  function Sub(a: Instant, b: Instant): Duration {
    if a - b > MAX_DURATION then MAX_DURATION
    else if a - b < MIN_DURATION then MIN_DURATION
    else a - b
  }

  predicate Passes(last: Instant, now: Instant, interval: Duration) {
    last == 0 || Sub(now, last) >= interval
  }

  /** What the writer underneath answers to one write. */
  datatype Written = Written(n: nat, failed: bool)

  class ThrottledLines {
    const interval: Duration
    var last: Instant
    /** The lines handed to the writer underneath. */
    var out: seq<string>

    constructor (interval: Duration)
      ensures this.interval == interval && last == 0 && out == []
    {
      this.interval, last, out := interval, 0, [];
    }

    /** A suppressed line is reported as written in full. */
    method Write(p: string, now: Instant, under: Written) returns (r: Written)
      modifies this
      ensures var pass := Passes(old(last), now, interval);
              && last == (if pass then now else old(last))
              && out == (if pass then old(out) + [p] else old(out))
              && r == (if pass && under.failed then under else Written(|p|, false))
      ensures old(last) == 0 || now - old(last) >= interval ==> last == now && out == old(out) + [p]
    {
      var pass := last == 0 || Sub(now, last) >= interval;
      if pass {
        last := now;
      }
      if !pass {
        return Written(|p|, false);
      }
      out := out + [p];
      if under.failed {
        return under;
      }
      r := Written(|p|, false);
    }

    /** Any number of writes, in the order they took the lock. */
    method WriteAll(lines: seq<string>, times: seq<Instant>, under: seq<Written>)
      requires |lines| == |times| == |under|
      modifies this
      ensures last == Last(old(last), interval, times)
      ensures out == old(out) + PassedLines(old(last), interval, lines, times)
      ensures |out| == |old(out)| + |PassTimes(old(last), interval, times)|
    {
      for i := 0 to |lines|
        invariant last == Last(old(last), interval, times[..i])
        invariant out == old(out) + PassedLines(old(last), interval, lines[..i], times[..i])
      {
        assert times[..i + 1][..i] == times[..i] && lines[..i + 1][..i] == lines[..i];
        var _ := Write(lines[i], times[i], under[i]);
      }
      assert times[..|times|] == times && lines[..|lines|] == lines;
    }
  }

  /** The lines written at the times that pass, in order. */
  function PassedLines(start: Instant, interval: Duration, lines: seq<string>, times: seq<Instant>): (passed: seq<string>)
    requires |lines| == |times|
    ensures |passed| == |PassTimes(start, interval, times)|
  {
    if times == [] then []
    else
      var n := |times| - 1;
      PassedLines(start, interval, lines[..n], times[..n])
      + if Passes(Last(start, interval, times[..n]), times[n], interval) then [lines[n]] else []
  }

  function Last(start: Instant, interval: Duration, times: seq<Instant>): Instant {
    if times == [] then start
    else
      var n := |times| - 1;
      var last := Last(start, interval, times[..n]);
      if Passes(last, times[n], interval) then times[n] else last
  }

  /** When lines passed. */
  function PassTimes(start: Instant, interval: Duration, times: seq<Instant>): seq<Instant> {
    if times == [] then []
    else
      var n := |times| - 1;
      PassTimes(start, interval, times[..n])
      + if Passes(Last(start, interval, times[..n]), times[n], interval) then [times[n]] else []
  }

  predicate NonZero(times: seq<Instant>) {
    forall i :: 0 <= i < |times| ==> times[i] != 0
  }

  /** The first write passes, and the field holds the last time one did. */
  lemma {:induction false} LastIsTheLastPass(interval: Duration, times: seq<Instant>)
    requires NonZero(times)
    ensures var p := PassTimes(0, interval, times);
            && (times != [] ==> p != [] && p[0] == times[0])
            && Last(0, interval, times) == (if p == [] then 0 else p[|p| - 1])
            && (forall t :: t in p ==> t in times)
  {
    if times != [] {
      var n := |times| - 1;
      LastIsTheLastPass(interval, times[..n]);
      assert times == times[..n] + [times[n]];
    }
  }

  /** Two passes, with k in all from the one to the other, are k - 1 intervals
      apart, whether or not the clock ran forward. */
  lemma {:induction false} RateBound(interval: Duration, times: seq<Instant>, i: nat, j: nat)
    requires interval > MIN_DURATION
    requires NonZero(times) && i <= j < |PassTimes(0, interval, times)|
    ensures (j - i) * interval <= PassTimes(0, interval, times)[j] - PassTimes(0, interval, times)[i]
  {
    var n := |times| - 1;
    var before := PassTimes(0, interval, times[..n]);
    LastIsTheLastPass(interval, times[..n]);
    if j < |before| {
      RateBound(interval, times[..n], i, j);
    } else if i < j {
      RateBound(interval, times[..n], i, j - 1);
      assert before[j - 1] in times[..n];
      assert times[n] - before[j - 1] >= interval;
      OneMore(j - i, interval);
    }
  }

  lemma OneMore(k: nat, interval: int)
    requires k > 0
    ensures k * interval == (k - 1) * interval + interval
  {
  }

  /** A clock stuck at the zero time is not limited: every write passes. */
  lemma {:induction false} ZeroClockPassesAll(interval: Duration, times: seq<Instant>)
    requires forall i :: 0 <= i < |times| ==> times[i] == 0
    ensures |PassTimes(0, interval, times)| == |times| && Last(0, interval, times) == 0
  {
    if times != [] {
      ZeroClockPassesAll(interval, times[..|times| - 1]);
    }
  }

  // ---- no limiter passes more ----

  predicate Forward(times: seq<Instant>) {
    forall i, j :: 0 <= i <= j < |times| ==> times[i] <= times[j]
  }

  /** Writes some limiter passed: in order, any two an interval or more apart. */
  predicate Limited(chosen: seq<nat>, times: seq<Instant>, interval: Duration) {
    && (forall k :: 0 <= k < |chosen| ==> chosen[k] < |times|)
    && (forall i, j :: 0 <= i < j < |chosen| ==> chosen[i] < chosen[j])
    && (forall i, j :: 0 <= i < j < |chosen| ==> times[chosen[j]] - times[chosen[i]] >= interval)
  }

  /** The limiter is never behind: it has passed as many as chosen, and where as
      many, not later. */
  predicate Ahead(interval: Duration, times: seq<Instant>, chosen: seq<nat>)
    requires forall k :: 0 <= k < |chosen| ==> chosen[k] < |times|
  {
    && |chosen| <= |PassTimes(0, interval, times)|
    && (chosen != [] && |chosen| == |PassTimes(0, interval, times)| ==>
          Last(0, interval, times) <= times[chosen[|chosen| - 1]])
  }

  /** Where the newest write is not chosen. */
  lemma StaysAhead(interval: Duration, times: seq<Instant>, chosen: seq<nat>)
    requires times != [] && forall k :: 0 <= k < |chosen| ==> chosen[k] < |times| - 1
    requires Ahead(interval, times[..|times| - 1], chosen)
    ensures Ahead(interval, times, chosen)
  {
  }

  /** Where the newest write is chosen. */
  lemma KeepsAhead(interval: Duration, times: seq<Instant>, fore: seq<nat>)
    requires times != [] && NonZero(times) && Forward(times)
    requires forall k :: 0 <= k < |fore| ==> fore[k] < |times| - 1
    requires fore != [] ==> times[|times| - 1] - times[fore[|fore| - 1]] >= interval
    requires Ahead(interval, times[..|times| - 1], fore)
    ensures Ahead(interval, times, fore + [|times| - 1])
  {
    var n := |times| - 1;
    var before := PassTimes(0, interval, times[..n]);
    LastIsTheLastPass(interval, times[..n]);
    if |fore| == |before| {
      assert Passes(Last(0, interval, times[..n]), times[n], interval);
    } else {
      assert before[|before| - 1] in times[..n];
      assert Last(0, interval, times[..n]) <= times[n];
    }
  }

  lemma LimitedBefore(interval: Duration, times: seq<Instant>, chosen: seq<nat>, m: nat, n: nat)
    requires NonZero(times) && Forward(times) && Limited(chosen, times, interval)
    requires n <= |times| && m <= |chosen| && forall k :: 0 <= k < m ==> chosen[k] < n
    ensures NonZero(times[..n]) && Forward(times[..n]) && Limited(chosen[..m], times[..n], interval)
  {
  }

  /** Over a clock that runs forward, no way of keeping the interval passes more
      lines; one that passes as many does not finish earlier. */
  lemma {:induction false} NoneDoesBetter(interval: Duration, times: seq<Instant>, chosen: seq<nat>)
    requires NonZero(times) && Forward(times) && Limited(chosen, times, interval)
    ensures Ahead(interval, times, chosen)
  {
    if chosen != [] {
      var n, m := |times| - 1, |chosen| - 1;
      var fore := chosen[..m];
      assert chosen[m] <= n;
      if chosen[m] == n {
        LimitedBefore(interval, times, chosen, m, n);
        NoneDoesBetter(interval, times[..n], fore);
        KeepsAhead(interval, times, fore);
        assert chosen == fore + [n];
      } else {
        LimitedBefore(interval, times, chosen, |chosen|, n);
        assert chosen[..|chosen|] == chosen;
        NoneDoesBetter(interval, times[..n], chosen);
        StaysAhead(interval, times, chosen);
      }
    }
  }
}
