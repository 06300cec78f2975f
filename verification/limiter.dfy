/** The token bucket that limits incoming connections. */
module Limiter {
  import opened Base

  /** tokens, max and interval as in the code; times are in clock ticks. */
  datatype Bucket = Bucket(tokens: int, max: nat, interval: nat, last: int)

  predicate Wf(b: Bucket) {
    b.interval > 0 && 0 <= b.tokens <= b.max
  }

  /** The tokens earned in a span of time, rounded down. */
  function Earned(b: Bucket, elapsed: nat): nat
    requires b.interval > 0
  {
    Quotient(b.max * elapsed, b.interval)
  }

  function Quotient(p: nat, i: nat): nat
    requires i > 0
  {
    p / i
  }

  /** The code divides real numbers and truncates; that is the integer quotient. */
  lemma TruncatedQuotient(p: nat, i: nat)
    requires i > 0
    ensures (p as real / i as real).Floor == Quotient(p, i)
  {
    var q := p / i;
    var (x, k, j) := (p as real / i as real, q as real, i as real);
    assert q * i <= p < q * i + i;
    assert x * j == p as real && k * j == (q * i) as real && (k + 1.0) * j == (q * i + i) as real;
    if x < k {
      MulLess(x, k, j);
    } else if x >= k + 1.0 {
      MulAtMost(k + 1.0, x, j);
    }
    assert k <= x < k + 1.0;
  }

  lemma MulLess(x: real, y: real, i: real)
    requires x < y && i > 0.0
    ensures x * i < y * i
  {
  }

  lemma MulAtMost(x: real, y: real, i: real)
    requires x <= y && i > 0.0
    ensures x * i <= y * i
  {
  }

  function Capped(b: Bucket, n: int): int {
    if n > b.max then b.max else n
  }

  /** allow at a given time. */
  function Allow(b: Bucket, now: int): (Bucket, bool)
    requires b.interval > 0 && now >= b.last
  {
    var t := Capped(b, b.tokens + Earned(b, now - b.last));
    if t > 0 then (b.(tokens := t - 1, last := now), true) else (b.(tokens := t, last := now), false)
  }

  class RateLimiter {
    var tokens: int
    const max: nat
    const interval: nat
    var last: int

    ghost predicate Valid()
      reads this
    {
      Wf(Value())
    }

    function Value(): Bucket
      reads this
    {
      Bucket(tokens, max, interval, last)
    }

    constructor (max: nat, interval: nat, now: int)
      requires interval > 0
      ensures Valid() && Value() == Bucket(max, max, interval, now)
    {
      this.max, this.interval, tokens, last := max, interval, max, now;
    }

    method TryAllow(now: int) returns (ok: bool)
      requires Valid() && now >= last
      modifies this
      ensures Valid() && (Value(), ok) == Allow(old(Value()), now)
    {
      var elapsed := now - last;
      last := now;
      var quotient := (max * elapsed) as real / interval as real;
      TruncatedQuotient(max * elapsed, interval);
      tokens := tokens + quotient.Floor;
      if tokens > max {
        tokens := max;
      }
      if tokens > 0 {
        tokens := tokens - 1;
        return true;
      }
      return false;
    }
  }

  // ---- Runs ----

  /** Calls at these times, from a bucket. */
  predicate Clocked(b: Bucket, times: seq<int>) {
    (times != [] ==> times[0] >= b.last) && forall i, j :: 0 <= i < j < |times| ==> times[i] <= times[j]
  }

  lemma ClockedRest(b: Bucket, times: seq<int>)
    requires b.interval > 0 && Clocked(b, times) && times != []
    ensures Clocked(Allow(b, times[0]).0, times[1..])
  {
  }

  function After(b: Bucket, times: seq<int>): (e: Bucket)
    requires b.interval > 0 && Clocked(b, times)
    ensures e.interval == b.interval && e.max == b.max
    decreases |times|
  {
    if times == [] then b
    else
      ClockedRest(b, times);
      After(Allow(b, times[0]).0, times[1..])
  }

  function Accepted(b: Bucket, times: seq<int>): nat
    requires b.interval > 0 && Clocked(b, times)
    decreases |times|
  {
    if times == [] then 0
    else
      ClockedRest(b, times);
      (if Allow(b, times[0]).1 then 1 else 0) + Accepted(Allow(b, times[0]).0, times[1..])
  }

  lemma QuotientSum(p: nat, q: nat, i: nat)
    requires i > 0
    ensures Quotient(p, i) + Quotient(q, i) <= Quotient(p + q, i)
  {
    var (a, b, c) := (p / i, q / i, (p + q) / i);
    assert p == a * i + p % i && q == b * i + q % i && p + q == c * i + (p + q) % i;
    if a + b > c {
      assert (a + b) * i >= (c + 1) * i by {
        MulNat(c + 1, a + b, i);
      }
    }
  }

  lemma MulNat(x: nat, y: nat, i: nat)
    requires x <= y
    ensures x * i <= y * i
  {
  }

  /** Truncating each refill loses tokens, it never gains any. */
  lemma EarnedSum(b: Bucket, d: nat, e: nat)
    requires b.interval > 0
    ensures Earned(b, d) + Earned(b, e) <= Earned(b, d + e)
  {
    assert b.max * (d + e) == b.max * d + b.max * e;
    QuotientSum(b.max * d, b.max * e, b.interval);
  }

  /** One call: the bucket stays within its bounds. */
  lemma AllowKeepsBounds(b: Bucket, now: int)
    requires Wf(b) && now >= b.last
    ensures Wf(Allow(b, now).0) && Allow(b, now).0.last == now
    ensures Allow(b, now).0.max == b.max && Allow(b, now).0.interval == b.interval
    ensures Earned(Allow(b, now).0, 0) == 0
  {
  }

  lemma {:induction false} RunKeepsBounds(b: Bucket, times: seq<int>)
    requires Wf(b) && Clocked(b, times)
    ensures var e := After(b, times);
            Wf(e) && e.last == if times == [] then b.last else times[|times| - 1]
    decreases |times|
  {
    if times != [] {
      AllowKeepsBounds(b, times[0]);
      ClockedRest(b, times);
      RunKeepsBounds(Allow(b, times[0]).0, times[1..]);
    }
  }

  lemma {:induction false} AcceptedBound(b: Bucket, times: seq<int>)
    requires Wf(b) && Clocked(b, times) && times != []
    ensures Accepted(b, times) <= Capped(b, b.tokens + Earned(b, times[0] - b.last))
                                  + Earned(b, times[|times| - 1] - times[0])
    decreases |times|
  {
    var c := Allow(b, times[0]).0;
    AllowKeepsBounds(b, times[0]);
    ClockedRest(b, times);
    if |times| > 1 {
      var rest := times[1..];
      AcceptedBound(c, rest);
      EarnedSum(b, times[1] - times[0], times[|times| - 1] - times[1]);
      assert Earned(c, times[1] - times[0]) == Earned(b, times[1] - times[0]);
    }
  }

  /** The guarantee: in every run, whatever came before, the calls made from time s to time
      t are accepted at most max + floor(max * (t - s) / interval) times. */
  lemma WindowBound(b: Bucket, earlier: seq<int>, window: seq<int>, s: int, t: int)
    requires Wf(b) && Clocked(b, earlier) && Clocked(After(b, earlier), window) && s <= t
    requires forall x :: x in window ==> s <= x <= t
    ensures Accepted(After(b, earlier), window) <= b.max + Earned(b, t - s)
  {
    RunKeepsBounds(b, earlier);
    var c := After(b, earlier);
    if window != [] {
      var first, last := window[0], window[|window| - 1];
      assert first in window && last in window;
      AcceptedBound(c, window);
      EarnedSum(b, last - first, (t - s) - (last - first));
    }
  }

  function Gap(b: Bucket, times: seq<int>, i: nat): int
    requires i < |times|
  {
    times[i] - if i == 0 then b.last else times[i - 1]
  }

  predicate TooShort(b: Bucket, gap: int) {
    b.max * gap < b.interval
  }

  /** The other side of truncation: calls that follow each other so closely that no gap
      earns a whole token are never refilled. Of such a run exactly the first tokens calls
      are accepted, however long it lasts. */
  lemma {:induction false} CloseCallsStarve(b: Bucket, times: seq<int>)
    requires Wf(b) && Clocked(b, times)
    requires forall i :: 0 <= i < |times| ==> TooShort(b, Gap(b, times, i))
    ensures Accepted(b, times) == if |times| < b.tokens then |times| else b.tokens
    decreases |times|
  {
    if times != [] {
      var c := Allow(b, times[0]).0;
      assert TooShort(b, Gap(b, times, 0));
      NoWholeToken(b, times[0] - b.last);
      ClockedRest(b, times);
      forall i | 0 <= i < |times[1..]| ensures TooShort(c, Gap(c, times[1..], i)) {
        assert TooShort(b, Gap(b, times, i + 1));
      }
      CloseCallsStarve(c, times[1..]);
    }
  }

  lemma TooShortRest(b: Bucket, times: seq<int>)
    requires Wf(b) && Clocked(b, times) && times != [] && Clocked(Allow(b, times[0]).0, times[1..])
    ensures var c := Allow(b, times[0]).0;
            (forall i :: 0 <= i < |times| ==> TooShort(b, Gap(b, times, i)))
            <==> TooShort(b, Gap(b, times, 0))
                 && forall i :: 0 <= i < |times[1..]| ==> TooShort(c, Gap(c, times[1..], i))
  {
    var c := Allow(b, times[0]).0;
    forall i | 0 <= i < |times[1..]|
      ensures TooShort(c, Gap(c, times[1..], i)) <==> TooShort(b, Gap(b, times, i + 1))
    {
    }
    if forall i :: 0 <= i < |times[1..]| ==> TooShort(c, Gap(c, times[1..], i)) {
      forall i | 1 <= i < |times| ensures TooShort(b, Gap(b, times, i)) {
        assert TooShort(c, Gap(c, times[1..], i - 1));
      }
    }
  }

  /** From an empty bucket a run of calls is refused altogether if and only if none of the
      gaps between them earns a whole token. */
  lemma {:induction false} StarvesIff(b: Bucket, times: seq<int>)
    requires Wf(b) && Clocked(b, times) && b.tokens == 0
    ensures Accepted(b, times) == 0 <==> forall i :: 0 <= i < |times| ==> TooShort(b, Gap(b, times, i))
    decreases |times|
  {
    if times != [] {
      NoWholeToken(b, times[0] - b.last);
      ClockedRest(b, times);
      TooShortRest(b, times);
      if !Allow(b, times[0]).1 {
        StarvesIff(Allow(b, times[0]).0, times[1..]);
      }
    }
  }

  // ---- What is certain to be accepted ----

  lemma {:induction false} AtOnce(b: Bucket, times: seq<int>, t: int)
    requires Wf(b) && b.last == t && forall i :: 0 <= i < |times| ==> times[i] == t
    ensures Clocked(b, times) && Accepted(b, times) == Min(|times|, b.tokens)
    decreases |times|
  {
    if times != [] {
      assert Earned(b, 0) == 0;
      ClockedRest(b, times);
      AtOnce(Allow(b, times[0]).0, times[1..], t);
    }
  }

  function Min(x: int, y: int): int {
    if x < y then x else y
  }

  /** A burst: of calls made at one instant exactly as many are accepted as the bucket holds
      by then, its tokens and all that the time since the last call has earned, but no more
      than its maximum. */
  lemma BurstAccepted(b: Bucket, times: seq<int>, t: int)
    requires Wf(b) && t >= b.last && forall i :: 0 <= i < |times| ==> times[i] == t
    ensures Clocked(b, times)
    ensures Accepted(b, times) == Min(|times|, Min(b.max, b.tokens + (b.max * (t - b.last)) / b.interval))
  {
    if times != [] {
      var c := Allow(b, t).0;
      ClockedRest(b, times);
      AllowKeepsBounds(b, t);
      AtOnce(c, times[1..], t);
    } else {
      AllowKeepsBounds(b, t);
    }
  }

  /** After a pause of a whole interval a burst of max calls is accepted, whatever was called
      before the pause, and every call beyond these is refused. */
  lemma FullAfterPause(b: Bucket, earlier: seq<int>, times: seq<int>, t: int)
    requires Wf(b) && Clocked(b, earlier) && t >= After(b, earlier).last + b.interval
    requires forall i :: 0 <= i < |times| ==> times[i] == t
    ensures Clocked(After(b, earlier), times)
    ensures Accepted(After(b, earlier), times) == Min(|times|, b.max)
  {
    var e := After(b, earlier);
    RunKeepsBounds(b, earlier);
    BurstAccepted(e, times, t);
    PauseEarns(e.max, e.interval, t - e.last);
  }

  /** A whole interval earns the maximum. */
  lemma PauseEarns(max: nat, interval: nat, elapsed: nat)
    requires interval > 0 && elapsed >= interval
    ensures (max * elapsed) / interval >= max
  {
    var (q, p) := ((max * elapsed) / interval, max * elapsed);
    MulNat(interval, elapsed, max);
    assert p == q * interval + p % interval;
    if q < max {
      MulNat(q + 1, max, interval);
    }
  }

  /** The partner of starvation: calls far enough apart for each gap to earn a whole token
      are all accepted, from any bucket. */
  lemma {:induction false} SpacedCallsPass(b: Bucket, times: seq<int>)
    requires Wf(b) && Clocked(b, times)
    requires forall i :: 0 <= i < |times| ==> !TooShort(b, Gap(b, times, i))
    ensures Accepted(b, times) == |times|
    decreases |times|
  {
    if times != [] {
      var c := Allow(b, times[0]).0;
      assert !TooShort(b, Gap(b, times, 0));
      NoWholeToken(b, times[0] - b.last);
      ClockedRest(b, times);
      AllowKeepsBounds(b, times[0]);
      forall i | 0 <= i < |times[1..]| ensures !TooShort(c, Gap(c, times[1..], i)) {
        assert !TooShort(b, Gap(b, times, i + 1));
      }
      SpacedCallsPass(c, times[1..]);
    }
  }

  lemma NoWholeToken(b: Bucket, elapsed: nat)
    requires b.interval > 0
    ensures Earned(b, elapsed) == 0 <==> b.max * elapsed < b.interval
  {
    SmallQuotient(b.max * elapsed, b.interval);
  }

  lemma SmallQuotient(p: nat, i: nat)
    requires i > 0
    ensures Quotient(p, i) == 0 <==> p < i
  {
    assert p == (p / i) * i + p % i;
    if p / i > 0 {
      MulNat(1, p / i, i);
    }
  }
}
