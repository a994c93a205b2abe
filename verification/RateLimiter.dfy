/**
  The token bucket that admits a session's signals. Times are nanoseconds of one clock;
  `Allow` reads the clock, so the model passes the reading in.
*/
module RateLimiter {
  datatype Bucket = Bucket(limit: int, window: int, tokens: int, last: int)

  function Abs(n: int): nat {
    if n < 0 then -n else n
  }

  /** Go's integer division, which truncates toward zero. */
  function TruncDiv(a: int, b: int): int
    requires b != 0
  {
    if (a < 0) == (b < 0) then Abs(a) / Abs(b) else -(Abs(a) / Abs(b))
  }

  function Interval(limit: int, window: int): (i: int)
    requires limit != 0
    ensures i != 0
    ensures limit > 0 && window >= 0 ==> i == if window < limit then 1 else window / limit
    ensures limit > 0 && window >= 0 ==> i >= 1
  {
    var i := TruncDiv(window, limit);
    if limit > 0 && window >= 0 then
      QuotientPositive(window, limit);
      if i == 0 then 1 else i
    else
      if i == 0 then 1 else i
  }

  lemma QuotientPositive(a: nat, b: int)
    requires b > 0
    ensures a / b >= 1 <==> a >= b
    ensures a / b >= 0
  {
    if a >= b { QuotientAtLeast(a, b, 1); }
  }

  lemma QuotientAtLeast(a: int, b: int, k: int)
    requires b > 0 && k * b <= a
    ensures k <= a / b
  {
    var q := a / b;
    assert a == q * b + a % b;
    if k > q {
      MulMonotone(q + 1, k, b);
    }
  }

  lemma MulMonotone(a: int, b: int, d: int)
    requires a <= b && d >= 0
    ensures a * d <= b * d
  {
  }

  function New(limit: int, window: int, now: int): Bucket {
    Bucket(limit, window, limit, now)
  }

  function Min(a: int, b: int): int {
    if a < b then a else b
  }

  /** The first half of `Allow`: whole intervals since `last` become tokens, up to the limit. */
  function Refill(b: Bucket, now: int): Bucket
    requires b.limit != 0
  {
    var i := Interval(b.limit, b.window);
    var n := TruncDiv(now - b.last, i);
    if n > 0 then b.(last := b.last + n * i, tokens := Min(b.limit, b.tokens + n)) else b
  }

  /** One call of `Allow` on a bucket with a non-zero limit. */
  function Allow(b: Bucket, now: int): (Bucket, bool)
    requires b.limit != 0
  {
    var r := Refill(b, now);
    if r.tokens > 0 then (r.(tokens := r.tokens - 1), true) else (r, false)
  }

  /** The limiter object of a session. */
  class MsgLimiter {
    var limit: int
    var window: int
    var tokens: int
    var last: int

    ghost function State(): Bucket
      reads this
    {
      Bucket(limit, window, tokens, last)
    }

    constructor (limit: int, window: int, now: int)
      ensures State() == New(limit, window, now)
    {
      this.limit, this.window, tokens, last := limit, window, limit, now;
    }

    /** The division by a zero limit panics in the source. */
    method TryAllow(now: int) returns (panicked: bool, allowed: bool)
      modifies this`tokens, this`last
      ensures panicked <==> limit == 0
      ensures panicked ==> State() == old(State())
      ensures !panicked ==> (State(), allowed) == Allow(old(State()), now)
    {
      if limit == 0 {
        return true, false;
      }
      panicked := false;
      var elapsed := now - last;
      var interval := TruncDiv(window, limit);
      if interval == 0 {
        interval := 1;
      }
      var refill := TruncDiv(elapsed, interval);
      if refill > 0 {
        last := last + refill * interval;
        tokens := tokens + refill;
        if tokens > limit {
          tokens := limit;
        }
      }
      allowed := tokens > 0;
      if allowed {
        tokens := tokens - 1;
      }
    }
  }

  /* ---------- runs ---------- */

  /** The bucket after calls at the given times, and how many of them were allowed. */
  function Calls(b: Bucket, times: seq<int>): (Bucket, nat)
    requires b.limit != 0
    decreases |times|
  {
    if times == [] then (b, 0) else
    var (c, ok) := Allow(b, times[0]);
    var (d, n) := Calls(c, times[1..]);
    (d, n + if ok then 1 else 0)
  }

  ghost predicate NonDecreasing(times: seq<int>) {
    forall i, j :: 0 <= i <= j < |times| ==> times[i] <= times[j]
  }

  ghost predicate InBounds(b: Bucket) {
    b.limit > 0 && 0 <= b.tokens <= b.limit
  }

  /** How many whole intervals fit between the bucket's refill mark and `t`. */
  function Whole(b: Bucket, t: int): int
    requires b.limit != 0
  {
    var i := Interval(b.limit, b.window);
    if i > 0 then (t - b.last) / i else 0
  }

  /** The tokens after a refill, in closed form; the mark moves by whole intervals and never past `t`. */
  lemma RefillClosedForm(b: Bucket, t: int)
    requires InBounds(b) && b.last <= t
    ensures var r, n := Refill(b, t), Whole(b, t);
      && n >= 0
      && r == b.(tokens := Min(b.limit, b.tokens + n), last := b.last + n * Interval(b.limit, b.window))
      && InBounds(r) && b.last <= r.last <= t
  {
    hide TruncDiv, Interval;
    ElapsedQuotient(t - b.last, Interval(b.limit, b.window));
  }

  lemma ElapsedQuotient(e: nat, i: int)
    requires i != 0
    ensures i > 0 ==> TruncDiv(e, i) == e / i && 0 <= e / i && 0 <= e / i * i <= e
    ensures i < 0 ==> TruncDiv(e, i) <= 0
  {
    if i > 0 {
      QuotientBounds(e, i);
    } else {
      QuotientBounds(e, -i);
    }
  }

  lemma QuotientBounds(e: nat, d: int)
    requires d > 0
    ensures 0 <= e / d && 0 <= e / d * d <= e
  {
    var q := e / d;
    assert e == q * d + e % d;
    if q < 0 {
      MulMonotone(q, -1, d);
    } else {
      MulMonotone(0, q, d);
    }
  }

  /** Splitting the elapsed time at an earlier refill loses no interval. */
  lemma WholeSplits(b: Bucket, t1: int, t2: int)
    requires InBounds(b) && b.last <= t1 <= t2
    ensures Whole(b, t2) == Whole(b, t1) + Whole(Refill(b, t1), t2)
  {
    RefillClosedForm(b, t1);
    var i := Interval(b.limit, b.window);
    if i > 0 {
      var n := Whole(b, t1);
      var e := t2 - b.last;
      assert e == (e - n * i) + n * i;
      DivShift(e - n * i, n, i);
    }
  }

  lemma DivShift(a: int, n: int, d: int)
    requires d > 0
    ensures (a + n * d) / d == a / d + n
  {
    var q, r := a / d, a % d;
    assert a == q * d + r;
    var p := (a + n * d) / d;
    assert a + n * d == p * d + (a + n * d) % d;
    assert (p - q - n) * d == r - (a + n * d) % d;
    if p - q - n >= 1 {
      MulMonotone(1, p - q - n, d);
    } else if p - q - n <= -1 {
      MulMonotone(p - q - n, -1, d);
    }
  }

  /** Refilling at `t1` and then at `t2` is refilling once at `t2`. */
  lemma RefillComposes(b: Bucket, t1: int, t2: int)
    requires InBounds(b) && b.last <= t1 <= t2
    ensures Refill(Refill(b, t1), t2) == Refill(b, t2)
  {
    hide Refill, Whole, Interval;
    var c := Refill(b, t1);
    RefillClosedForm(b, t1);
    RefillClosedForm(c, t2);
    RefillClosedForm(b, t2);
    WholeSplits(b, t1, t2);
    var i := Interval(b.limit, b.window);
    var n1, n2 := Whole(b, t1), Whole(c, t2);
    assert n1 * i + n2 * i == (n1 + n2) * i;
  }

  function RefillAll(b: Bucket, times: seq<int>): Bucket
    requires b.limit != 0
    decreases |times|
  {
    if times == [] then b else RefillAll(Refill(b, times[0]), times[1..])
  }

  /** However often the bucket is observed, only the last observation matters. */
  lemma {:induction false} RefillAllClosedForm(b: Bucket, times: seq<int>)
    requires InBounds(b) && NonDecreasing(times) && times != [] && b.last <= times[0]
    ensures RefillAll(b, times) == Refill(b, times[|times| - 1])
    decreases |times|
  {
    hide Refill;
    RefillClosedForm(b, times[0]);
    if |times| > 1 {
      RefillAllClosedForm(Refill(b, times[0]), times[1..]);
      RefillComposes(b, times[0], times[|times| - 1]);
    } else {
      assert RefillAll(b, times) == RefillAll(Refill(b, times[0]), times[1..]) && times[1..] == [];
    }
  }

  /**
    From any state, calls at non-decreasing times up to `t` are allowed at most as often as
    there are tokens now plus whole intervals until `t`, and tokens stay within bounds.
  */
  lemma {:induction false} AllowedBound(b: Bucket, times: seq<int>, t: int)
    requires InBounds(b) && NonDecreasing(times) && b.last <= t
    requires forall i :: 0 <= i < |times| ==> b.last <= times[i] <= t
    ensures var (c, n) := Calls(b, times);
      InBounds(c) && b.last <= c.last <= t && n + c.tokens + Whole(c, t) <= b.tokens + Whole(b, t)
    decreases |times|
  {
    hide Refill, Whole;
    if times != [] {
      var r := Refill(b, times[0]);
      RefillClosedForm(b, times[0]);
      WholeSplits(b, times[0], t);
      var (c, ok) := Allow(b, times[0]);
      assert Whole(c, t) == Whole(r, t) by { WholeIgnoresTokens(r, c, t); }
      var rest := times[1..];
      assert forall i :: 0 <= i < |rest| ==> rest[i] == times[i + 1];
      AllowedBound(c, rest, t);
    }
  }

  lemma WholeIgnoresTokens(b: Bucket, c: Bucket, t: int)
    requires b.limit != 0 && c == b.(tokens := c.tokens)
    ensures Whole(c, t) == Whole(b, t)
  {
  }

  /** A fresh bucket allows at most `limit + floor(elapsed / interval)` calls in any run. */
  lemma FreshBound(limit: int, window: int, start: int, times: seq<int>, t: int)
    requires limit > 0 && start <= t && NonDecreasing(times)
    requires forall i :: 0 <= i < |times| ==> start <= times[i] <= t
    ensures Calls(New(limit, window, start), times).1 <= limit + Whole(New(limit, window, start), t)
  {
    var b := New(limit, window, start);
    AllowedBound(b, times, t);
    RefillClosedForm(Calls(b, times).0, t);
  }

  /**
    Within the first window the truncated interval still admits fewer than three limits,
    and at most two when the limit divides the window.
  */
  lemma FirstWindowBound(limit: int, window: int, start: int, times: seq<int>)
    requires limit > 0 && window >= 0 && NonDecreasing(times)
    requires forall i :: 0 <= i < |times| ==> start <= times[i] <= start + window
    ensures Calls(New(limit, window, start), times).1 <= 3 * limit - 1
    ensures window % limit == 0 ==> Calls(New(limit, window, start), times).1 <= 2 * limit
  {
    FreshBound(limit, window, start, times, start + window);
    FirstWindowIntervals(limit, window);
  }

  lemma FirstWindowIntervals(limit: int, window: int)
    requires limit > 0 && window >= 0
    ensures window / Interval(limit, window) <= 2 * limit - 1
    ensures window % limit == 0 ==> window / Interval(limit, window) <= limit
  {
    if window < limit {
      assert Interval(limit, window) == 1;
    } else {
      var q, r := window / limit, window % limit;
      QuotientPositive(window, limit);
      assert window == r + limit * q;
      DivShift(r, limit, q);
      QuotientAtMost(r, q);
      if r == 0 { assert r / q == 0; }
    }
  }

  lemma QuotientAtMost(r: nat, q: int)
    requires q >= 1
    ensures 0 <= r / q <= r
  {
    var k := r / q;
    assert r == k * q + r % q;
    if k < 0 {
      MulMonotone(k, -1, q);
    } else {
      MulMonotone(1, q, k);
    }
  }

  /* ---------- denials lose nothing ---------- */

  /**
    One call, in closed form: it is allowed iff a token is there or a whole interval has passed
    since the mark; then one token goes, and the mark moves by whole intervals. A denied call
    leaves the bucket exactly as it was.
  */
  lemma AllowIff(b: Bucket, t: int)
    requires InBounds(b) && b.last <= t
    ensures var (c, ok) := Allow(b, t);
      var n, i := Whole(b, t), Interval(b.limit, b.window);
      && (ok <==> b.tokens > 0 || n >= 1)
      && (ok ==> c == b.(tokens := Min(b.limit, b.tokens + n) - 1, last := b.last + n * i))
      && (!ok ==> c == b)
  {
    hide Refill, Interval, Whole;
    RefillClosedForm(b, t);
  }

  lemma WholeIsPositive(b: Bucket, t: int)
    requires InBounds(b) && b.last <= t && Interval(b.limit, b.window) > 0
    ensures Whole(b, t) >= 1 <==> t >= b.last + Interval(b.limit, b.window)
    ensures Whole(b, t) >= 0
  {
    hide Interval;
    QuotientPositive(t - b.last, Interval(b.limit, b.window));
  }

  /** A denied call does not put off the next token. */
  lemma DenialLosesNothing(b: Bucket, t1: int, t2: int)
    requires InBounds(b) && b.last <= t1 <= t2 && !Allow(b, t1).1
    ensures Allow(b, t1).0 == b && Refill(Allow(b, t1).0, t2) == Refill(b, t2)
  {
    hide Refill, Interval, Whole, Allow;
    AllowIff(b, t1);
  }

  /** From an empty bucket, whatever calls were denied before: the first call an interval after the mark is allowed. */
  lemma {:induction false} NextTokenComes(b: Bucket, times: seq<int>, t: int)
    requires InBounds(b) && b.tokens == 0 && b.window >= 0
    requires forall i :: 0 <= i < |times| ==> b.last <= times[i] < b.last + Interval(b.limit, b.window)
    ensures Calls(b, times) == (b, 0)
    ensures t >= b.last + Interval(b.limit, b.window) ==> Allow(Calls(b, times).0, t).1
    decreases |times|
  {
    hide Refill, Interval, Whole, Allow;
    IntervalPositive(b);
    if t >= b.last + Interval(b.limit, b.window) {
      WholeIsPositive(b, t);
      AllowIff(b, t);
    }
    if times != [] {
      WholeIsPositive(b, times[0]);
      AllowIff(b, times[0]);
      NextTokenComes(b, times[1..], t);
    }
  }

  lemma IntervalPositive(b: Bucket)
    requires b.limit > 0
    ensures b.window >= 0 ==> Interval(b.limit, b.window) > 0
  {
  }

  /** From `from` whole intervals on, no whole interval passes without a call. */
  predicate Gapless(b: Bucket, from: int, times: seq<int>)
    requires b.limit != 0
    decreases |times|
  {
    times == [] || (Whole(b, times[0]) <= from + 1 && Gapless(b, Whole(b, times[0]), times[1..]))
  }

  /** A bucket is emptied and then called often enough: exactly one call is allowed for every whole interval. */
  lemma {:induction false} GaplessCount(b: Bucket, times: seq<int>)
    requires InBounds(b) && b.tokens == 0 && b.window >= 0 && NonDecreasing(times) && Gapless(b, 0, times)
    requires times != [] && b.last <= times[0]
    ensures Calls(b, times).1 == Whole(b, times[|times| - 1])
    decreases |times|
  {
    hide Refill, Interval, Whole, Allow;
    var t, rest, last := times[0], times[1..], times[|times| - 1];
    var (c, ok) := Allow(b, t);
    IntervalPositive(b);
    AllowIff(b, t);
    WholeIsPositive(b, t);
    if rest == [] {
      assert Calls(b, times).1 == (if ok then 1 else 0) + Calls(c, rest).1;
    } else {
      assert rest[|rest| - 1] == last;
      if ok {
        assert Whole(b, t) == 1;
        assert c == b.(last := b.last + Interval(b.limit, b.window));
        MarkMoved(b, c, t, rest);
        WholeFromMark(b, c, t);
        WholeFromMark(b, c, last);
      }
      GaplessCount(c, rest);
    }
  }

  /** Seen from a mark one interval later, every later time is one whole interval less away. */
  lemma WholeFromMark(b: Bucket, c: Bucket, t: int)
    requires InBounds(b) && b.window >= 0 && c == b.(last := b.last + Interval(b.limit, b.window))
    requires c.last <= t
    ensures Whole(c, t) == Whole(b, t) - 1
  {
    hide Interval;
    IntervalPositive(b);
    var i := Interval(b.limit, b.window);
    DivShift(t - b.last - i, 1, i);
    assert t - b.last - i + 1 * i == t - b.last;
    assert t - c.last == t - b.last - i;
  }

  lemma {:induction false} MarkMoved(b: Bucket, c: Bucket, from: int, times: seq<int>)
    requires InBounds(b) && b.window >= 0 && c == b.(last := b.last + Interval(b.limit, b.window))
    requires c.last <= from && NonDecreasing(times) && (times != [] ==> from <= times[0])
    requires Gapless(b, Whole(b, from), times)
    ensures Gapless(c, Whole(c, from), times)
    decreases |times|
  {
    hide Interval, Whole;
    IntervalPositive(b);
    WholeFromMark(b, c, from);
    if times != [] {
      WholeFromMark(b, c, times[0]);
      MarkMoved(b, c, times[0], times[1..]);
    }
  }

  /**
    The bound of `FreshBound` is reached, for every limit and window: a burst of `limit` calls,
    then calls that leave no whole interval out, with any number of denied ones among them.
  */
  lemma FrequentCallsReachBound(limit: int, window: int, times: seq<int>)
    requires limit > 0 && window >= 0 && NonDecreasing(times) && times != [] && 0 <= times[0]
    requires Gapless(New(limit, window, 0), 0, times)
    ensures Calls(New(limit, window, 0), Burst(limit) + times).1
         == limit + Whole(New(limit, window, 0), times[|times| - 1])
  {
    hide Calls, Whole, Interval;
    var b := New(limit, window, 0);
    var c := b.(tokens := 0);
    BurstSpends(b, limit);
    CallsAppend(b, Burst(limit), times);
    GaplessIgnoresTokens(b, c, 0, times);
    GaplessCount(c, times);
    WholeIgnoresTokens(b, c, times[|times| - 1]);
  }

  lemma {:induction false} GaplessIgnoresTokens(b: Bucket, c: Bucket, from: int, times: seq<int>)
    requires b.limit != 0 && c == b.(tokens := c.tokens) && Gapless(b, from, times)
    ensures Gapless(c, from, times)
    decreases |times|
  {
    hide Whole;
    if times != [] {
      WholeIgnoresTokens(b, c, times[0]);
      GaplessIgnoresTokens(b, c, Whole(b, times[0]), times[1..]);
    }
  }

  /* ---------- the bound is reached, for every limit ---------- */

  /** The times `a`, `a` + 1, .., `b` - 1. */
  function Ticks(a: int, b: int): (s: seq<int>)
    requires a <= b
    ensures |s| == b - a && forall i :: 0 <= i < |s| ==> s[i] == a + i
  {
    seq(b - a, i requires 0 <= i < b - a => a + i)
  }

  function Burst(n: nat): (s: seq<int>)
    ensures |s| == n && forall i :: 0 <= i < n ==> s[i] == 0
  {
    seq(n, _ => 0)
  }

  lemma {:induction false} CallsAppend(b: Bucket, x: seq<int>, y: seq<int>)
    requires b.limit != 0
    ensures Calls(b, x).0.limit == b.limit
    ensures Calls(b, x + y).1 == Calls(b, x).1 + Calls(Calls(b, x).0, y).1
    decreases |x|
  {
    if x == [] {
      assert x + y == y;
    } else {
      assert (x + y)[1..] == x[1..] + y;
      CallsAppend(Allow(b, x[0]).0, x[1..], y);
    }
  }

  /** A burst at the time of the mark spends a token a call. */
  lemma {:induction false} BurstSpends(b: Bucket, n: nat)
    requires b.limit > 0 && b.last == 0 && n <= b.tokens
    ensures Calls(b, Burst(n)) == (b.(tokens := b.tokens - n), n)
    decreases n
  {
    if n > 0 {
      NoTimeNoRefill(b);
      assert Burst(n)[1..] == Burst(n - 1);
      BurstSpends(b.(tokens := b.tokens - 1), n - 1);
    }
  }

  lemma NoTimeNoRefill(b: Bucket)
    requires b.limit > 0
    ensures Refill(b, b.last) == b
  {
    var i := Interval(b.limit, b.window);
    assert 0 / Abs(i) == 0;
  }

  /** With an interval of one nanosecond an empty bucket allows one call each nanosecond. */
  lemma {:induction false} TicksAllowed(b: Bucket, end: int)
    requires b.limit > 0 && Interval(b.limit, b.window) == 1 && b.tokens == 0 && b.last < end
    ensures Calls(b, Ticks(b.last + 1, end)).1 == end - b.last - 1
    decreases end - b.last
  {
    var t := b.last + 1;
    if t == end {
      assert Ticks(t, end) == [];
    } else {
      var c := b.(last := t);
      OneTick(b);
      assert Ticks(t, end)[0] == t && Ticks(t, end)[1..] == Ticks(t + 1, end);
      TicksAllowed(c, end);
    }
  }

  lemma OneTick(b: Bucket)
    requires b.limit > 0 && Interval(b.limit, b.window) == 1 && b.tokens == 0
    ensures Allow(b, b.last + 1) == (b.(last := b.last + 1), true)
  {
    hide Interval;
  }

  /** The bound is reached for every limit: with window 2 * limit - 1, a burst and then a call each nanosecond. */
  lemma FirstWindowBoundIsTight(limit: int)
    requires limit >= 1
    ensures var window := 2 * limit - 1;
      var times := Burst(limit) + Ticks(1, window + 1);
      && NonDecreasing(times) && (forall i :: 0 <= i < |times| ==> 0 <= times[i] <= window)
      && Calls(New(limit, window, 0), times).1 == 3 * limit - 1
  {
    hide Calls;
    var window := 2 * limit - 1;
    var b := New(limit, window, 0);
    IntervalIsOne(limit);
    BurstSpends(b, limit);
    TicksAllowed(b.(tokens := 0), window + 1);
    CallsAppend(b, Burst(limit), Ticks(1, window + 1));
  }

  lemma IntervalIsOne(limit: int)
    requires limit >= 1
    ensures Interval(limit, 2 * limit - 1) == 1
  {
    var q := (2 * limit - 1) / limit;
    assert 2 * limit - 1 == q * limit + (2 * limit - 1) % limit;
    QuotientPositive(2 * limit - 1, limit);
    if q >= 2 { MulMonotone(2, q, limit); }
  }

  /** The limiter allows every one of the calls. */
  predicate AllAllowed(b: Bucket, times: seq<int>)
    decreases |times|
  {
    times == [] || (b.limit != 0 && Allow(b, times[0]).1 && AllAllowed(Allow(b, times[0]).0, times[1..]))
  }

  /** That is: the number of allowed calls is the number of calls. */
  lemma {:induction false} AllAllowedIff(b: Bucket, times: seq<int>)
    requires b.limit != 0
    ensures Calls(b, times).1 <= |times|
    ensures AllAllowed(b, times) <==> Calls(b, times).1 == |times|
    decreases |times|
  {
    if times != [] {
      AllAllowedIff(Allow(b, times[0]).0, times[1..]);
    }
  }

  /** A negative limit never admits anything. */
  lemma {:induction false} NegativeLimitDeniesAll(b: Bucket, times: seq<int>)
    requires b.limit < 0 && b.tokens <= b.limit
    ensures Calls(b, times).1 == 0
    decreases |times|
  {
    if times != [] {
      NegativeLimitDeniesAll(Allow(b, times[0]).0, times[1..]);
    }
  }
}
