/**
 * The token-bucket limiters: internal/fakerelay/ratelimit.go, which keeps every
 * bucket, and internal/relay/ratelimit.go, which sweeps idle ones. Times are real
 * seconds and token counts are reals.
 */
module TokenBucket {
  import opened Common

  datatype Bucket = Bucket(tokens: real, last: real)

  datatype Limit = Limit(rate: real, burst: real)

  /** Bursts below one count as one. */
  function Capacity(l: Limit): real { if l.burst < 1.0 then 1.0 else l.burst }

  function Min(x: real, y: real): real { if x > y then y else x }

  /** The tokens a stretch of time is worth. */
  function Earned(time: real, rate: real): real { time * rate }

  /** Refill for the time elapsed; nothing happens when the clock stalls or goes back. */
  function Refill(b: Bucket, now: real, l: Limit): Bucket {
    if now > b.last then Bucket(Min(b.tokens + Earned(now - b.last, l.rate), Capacity(l)), now) else b
  }

  datatype Taken = Taken(bucket: Bucket, ok: bool)

  /** One call on a bucket that may not exist yet. */
  function Take(ob: Option<Bucket>, now: real, l: Limit): Taken {
    var b := Refill(if ob.Some? then ob.value else Bucket(Capacity(l), now), now, l);
    if b.tokens >= 1.0 then Taken(b.(tokens := b.tokens - 1.0), true) else Taken(b, false)
  }

  predicate Sound(b: Bucket, l: Limit) { 0.0 <= b.tokens <= Capacity(l) }

  predicate SoundOption(ob: Option<Bucket>, l: Limit) { ob.Some? ==> Sound(ob.value, l) }

  lemma EarnedNonnegative(time: real, rate: real)
    requires time >= 0.0 && rate >= 0.0
    ensures Earned(time, rate) >= 0.0
  {
  }

  lemma EarnedNothing(rate: real)
    ensures Earned(0.0, rate) == 0.0
  {
  }

  lemma EarnedAdds(x: real, y: real, rate: real)
    ensures Earned(x + y, rate) == Earned(x, rate) + Earned(y, rate)
  {
  }

  lemma EarnedMonotone(x: real, y: real, rate: real)
    requires x <= y && rate >= 0.0
    ensures Earned(x, rate) <= Earned(y, rate)
  {
    EarnedNonnegative(y - x, rate);
    EarnedAdds(x, y - x, rate);
  }

  lemma TakeSound(ob: Option<Bucket>, now: real, l: Limit)
    requires SoundOption(ob, l) && l.rate > 0.0
    ensures Sound(Take(ob, now, l).bucket, l)
    ensures ob.Some? ==> ob.value.last <= Take(ob, now, l).bucket.last
    ensures now <= Take(ob, now, l).bucket.last
  {
    if ob.Some? && now > ob.value.last {
      EarnedNonnegative(now - ob.value.last, l.rate);
    }
  }

  // ---------------------------------------------------------------------
  // The rate bound
  // ---------------------------------------------------------------------

  /** The answers to successive calls on one key. */
  function Answers(ob: Option<Bucket>, ts: seq<real>, l: Limit): (r: seq<bool>)
    ensures |r| == |ts|
    decreases |ts|
  {
    if ts == [] then []
    else
      var t := Take(ob, ts[0], l);
      [t.ok] + Answers(Some(t.bucket), ts[1..], l)
  }

  function After(ob: Option<Bucket>, ts: seq<real>, l: Limit): Option<Bucket>
    decreases |ts|
  {
    if ts == [] then ob else After(Some(Take(ob, ts[0], l).bucket), ts[1..], l)
  }

  function Count(bs: seq<bool>): nat {
    if bs == [] then 0 else (if bs[0] then 1 else 0) + Count(bs[1..])
  }

  function Allowed(ob: Option<Bucket>, ts: seq<real>, l: Limit): nat { Count(Answers(ob, ts, l)) }

  lemma AllowedStep(ob: Option<Bucket>, ts: seq<real>, l: Limit)
    requires ts != []
    ensures var t := Take(ob, ts[0], l);
            Allowed(ob, ts, l) == (if t.ok then 1 else 0) + Allowed(Some(t.bucket), ts[1..], l)
  {
    var t := Take(ob, ts[0], l);
    assert Answers(ob, ts, l)[1..] == Answers(Some(t.bucket), ts[1..], l);
  }

  /** A refill never adds more than the elapsed time is worth. */
  lemma RefillPotential(b: Bucket, now: real, hi: real, l: Limit)
    requires l.rate > 0.0 && b.last <= hi && now <= hi
    ensures var b' := Refill(b, now, l);
            b'.last <= hi && b'.tokens + Earned(hi - b'.last, l.rate) <= b.tokens + Earned(hi - b.last, l.rate)
  {
    if now > b.last {
      EarnedAdds(hi - now, now - b.last, l.rate);
    }
  }

  /** What is in the bucket, plus what time can still add, pays for every allowed call. */
  lemma {:induction false} Potential(b: Bucket, ts: seq<real>, hi: real, l: Limit)
    requires Sound(b, l) && l.rate > 0.0 && b.last <= hi
    requires forall i :: 0 <= i < |ts| ==> ts[i] <= hi
    ensures Allowed(Some(b), ts, l) as real <= b.tokens + Earned(hi - b.last, l.rate)
    decreases |ts|
  {
    if ts == [] {
      EarnedNonnegative(hi - b.last, l.rate);
    } else {
      var t := Take(Some(b), ts[0], l);
      AllowedStep(Some(b), ts, l);
      RefillPotential(b, ts[0], hi, l);
      TakeSound(Some(b), ts[0], l);
      Potential(t.bucket, ts[1..], hi, l);
    }
  }

  /** From a bucket last touched at or after `a`, calls read up to a + T cost at most rate * T more. */
  lemma RestBound(b: Bucket, ts: seq<real>, a: real, T: real, l: Limit)
    requires Sound(b, l) && l.rate > 0.0 && T >= 0.0 && a <= b.last
    requires forall i :: 0 <= i < |ts| ==> ts[i] <= a + T
    ensures Allowed(Some(b), ts, l) as real <= b.tokens + Earned(T, l.rate)
  {
    if b.last > a + T {
      Potential(b, ts, b.last, l);
      EarnedNothing(l.rate);
      EarnedNonnegative(T, l.rate);
    } else {
      Potential(b, ts, a + T, l);
      EarnedMonotone(a + T - b.last, T, l.rate);
    }
  }

  /**
   * From any state of the bucket, successive calls of which the first is read at or after
   * `a` and none after a + T are allowed at most burst + rate * T times, however often and
   * however far the clock goes back in between.
   */
  lemma WindowBound(ob: Option<Bucket>, ts: seq<real>, a: real, T: real, l: Limit)
    requires SoundOption(ob, l) && l.rate > 0.0 && T >= 0.0
    requires ts != [] ==> a <= ts[0]
    requires forall i :: 0 <= i < |ts| ==> ts[i] <= a + T
    ensures Allowed(ob, ts, l) as real <= Capacity(l) + Earned(T, l.rate)
  {
    if ts == [] {
      EarnedNonnegative(T, l.rate);
    } else {
      var t := Take(ob, ts[0], l);
      TakeSound(ob, ts[0], l);
      AllowedStep(ob, ts, l);
      TokensAfterFirst(ob, ts[0], l);
      RestBound(t.bucket, ts[1..], a, T, l);
    }
  }

  lemma TokensAfterFirst(ob: Option<Bucket>, now: real, l: Limit)
    requires SoundOption(ob, l) && l.rate > 0.0
    ensures var t := Take(ob, now, l);
            (if t.ok then 1.0 else 0.0) + t.bucket.tokens <= Capacity(l)
  {
  }

  lemma {:induction false} AnswersPrefix(ob: Option<Bucket>, ts: seq<real>, j: nat, l: Limit)
    requires j <= |ts|
    ensures Answers(ob, ts, l)[..j] == Answers(ob, ts[..j], l)
    decreases |ts|
  {
    if j > 0 {
      AnswersPrefix(Some(Take(ob, ts[0], l).bucket), ts[1..], j - 1, l);
      assert ts[..j][1..] == ts[1..][..j - 1];
    }
  }

  lemma {:induction false} AnswersSuffix(ob: Option<Bucket>, ts: seq<real>, i: nat, l: Limit)
    requires i <= |ts|
    ensures Answers(ob, ts, l)[i..] == Answers(After(ob, ts[..i], l), ts[i..], l)
    decreases |ts|
  {
    if i > 0 {
      AnswersSuffix(Some(Take(ob, ts[0], l).bucket), ts[1..], i - 1, l);
      assert ts[..i][1..] == ts[1..][..i - 1] && ts[1..][i - 1..] == ts[i..];
      assert Answers(ob, ts, l)[i..] == Answers(ob, ts, l)[1..][i - 1..];
    }
  }

  lemma AnswersSplit(ob: Option<Bucket>, ts: seq<real>, i: nat, j: nat, l: Limit)
    requires i <= j <= |ts|
    ensures Answers(ob, ts, l)[i..j] == Answers(After(ob, ts[..i], l), ts[i..j], l)
  {
    AnswersPrefix(ob, ts, j, l);
    AnswersSuffix(ob, ts[..j], i, l);
    assert ts[..j][..i] == ts[..i] && ts[..j][i..] == ts[i..j];
    assert Answers(ob, ts, l)[i..j] == Answers(ob, ts, l)[..j][i..];
  }

  lemma {:induction false} AfterSound(ob: Option<Bucket>, ts: seq<real>, l: Limit)
    requires SoundOption(ob, l) && l.rate > 0.0
    ensures SoundOption(After(ob, ts, l), l)
    decreases |ts|
  {
    if ts != [] {
      TakeSound(ob, ts[0], l);
      AfterSound(Some(Take(ob, ts[0], l).bucket), ts[1..], l);
    }
  }

  /**
   * Over any run of calls on one key with any clock, any stretch of successive calls that
   * starts at or after `a` and never reads beyond a + T is allowed at most burst + rate * T
   * times.
   */
  lemma RateBound(ts: seq<real>, i: nat, j: nat, a: real, T: real, l: Limit)
    requires l.rate > 0.0 && T >= 0.0 && i <= j <= |ts|
    requires i < j ==> a <= ts[i]
    requires forall k :: i <= k < j ==> ts[k] <= a + T
    ensures Count(Answers(None, ts, l)[i..j]) as real <= Capacity(l) + Earned(T, l.rate)
  {
    AnswersSplit(None, ts, i, j, l);
    AfterSound(None, ts[..i], l);
    WindowBound(After(None, ts[..i], l), ts[i..j], a, T, l);
  }

  predicate Nondecreasing(ts: seq<real>) {
    forall i, j :: 0 <= i < j < |ts| ==> ts[i] <= ts[j]
  }

  predicate Within(t: real, a: real, T: real) { a <= t <= a + T }

  /** Between two readings of the window the clock does not rise beyond it. */
  predicate StaysBelow(ts: seq<real>, a: real, T: real) {
    forall i, m, j :: 0 <= i < m < j < |ts| && Within(ts[i], a, T) && Within(ts[j], a, T) ==> ts[m] <= a + T
  }

  /** Allowed calls read in [a, a + T], wherever they stand in the run. */
  function CountWithin(bs: seq<bool>, ts: seq<real>, a: real, T: real): nat
    requires |bs| == |ts|
  {
    if ts == [] then 0
    else (if bs[0] && Within(ts[0], a, T) then 1 else 0) + CountWithin(bs[1..], ts[1..], a, T)
  }

  /** The bound holds for all calls of the window, unless the clock rises beyond it and returns. */
  lemma {:induction false} WindowCount(ob: Option<Bucket>, ts: seq<real>, a: real, T: real, l: Limit)
    requires SoundOption(ob, l) && l.rate > 0.0 && T >= 0.0 && StaysBelow(ts, a, T)
    ensures CountWithin(Answers(ob, ts, l), ts, a, T) as real <= Capacity(l) + Earned(T, l.rate)
    decreases |ts|
  {
    EarnedNonnegative(T, l.rate);
    if ts != [] && !Within(ts[0], a, T) {
      var t := Take(ob, ts[0], l);
      TakeSound(ob, ts[0], l);
      assert Answers(ob, ts, l)[1..] == Answers(Some(t.bucket), ts[1..], l);
      WindowCount(Some(t.bucket), ts[1..], a, T, l);
    } else {
      var j := CountInPrefix(Answers(ob, ts, l), ts, a, T);
      AnswersSplit(ob, ts, 0, j, l);
      assert ts[..0] == [];
      forall m | 0 <= m < |ts[0..j]| ensures ts[0..j][m] <= a + T {
        if 0 < m < j - 1 { assert Within(ts[0], a, T) && Within(ts[j - 1], a, T); }
      }
      WindowBound(ob, ts[0..j], a, T, l);
    }
  }

  /** The window's calls all stand in the prefix up to the last of them. */
  lemma {:induction false} CountInPrefix(bs: seq<bool>, ts: seq<real>, a: real, T: real) returns (j: nat)
    requires |bs| == |ts|
    ensures j <= |ts| && CountWithin(bs, ts, a, T) <= Count(bs[0..j])
    ensures j > 0 ==> Within(ts[j - 1], a, T)
    decreases |ts|
  {
    if ts == [] {
      j := 0;
    } else {
      var j' := CountInPrefix(bs[1..], ts[1..], a, T);
      if j' == 0 && !Within(ts[0], a, T) {
        j := 0;
      } else {
        j := j' + 1;
        assert bs[0..j][1..] == bs[1..][0..j'];
      }
    }
  }

  /** In particular with a clock that never goes back. */
  lemma SteadyWindowCount(ts: seq<real>, a: real, T: real, l: Limit)
    requires l.rate > 0.0 && T >= 0.0 && Nondecreasing(ts)
    ensures CountWithin(Answers(None, ts, l), ts, a, T) as real <= Capacity(l) + Earned(T, l.rate)
  {
    assert StaysBelow(ts, a, T);
    WindowCount(None, ts, a, T, l);
  }

  function Repeat(t: real, n: nat): (r: seq<real>)
    ensures |r| == n && forall i :: 0 <= i < n ==> r[i] == t
  {
    if n == 0 then [] else [t] + Repeat(t, n - 1)
  }

  /** The allowed calls of the window among calls made from bucket `b` on. */
  function WindowAllowed(b: Bucket, ts: seq<real>, a: real, T: real, l: Limit): nat {
    CountWithin(Answers(Some(b), ts, l), ts, a, T)
  }

  lemma WindowStep(b: Bucket, t: real, rest: seq<real>, a: real, T: real, l: Limit)
    ensures var r := Take(Some(b), t, l);
            WindowAllowed(b, [t] + rest, a, T, l) == (if r.ok && Within(t, a, T) then 1 else 0) + WindowAllowed(r.bucket, rest, a, T, l)
  {
    AnswersCons(Some(b), t, rest, l);
    assert ([t] + rest)[1..] == rest;
    assert Answers(Some(b), [t] + rest, l)[1..] == Answers(Some(Take(Some(b), t, l).bucket), rest, l);
  }

  /** Calls read at `a` after the bucket was touched later spend what is there. */
  lemma {:induction false} SpendAtOnce(b: Bucket, n: nat, rest: seq<real>, a: real, T: real, l: Limit)
    requires b.tokens >= n as real && a <= b.last && T >= 0.0
    ensures WindowAllowed(b, Repeat(a, n) + rest, a, T, l)
         == n + WindowAllowed(Bucket(b.tokens - n as real, b.last), rest, a, T, l)
    decreases n
  {
    if n == 0 {
      assert Repeat(a, 0) + rest == rest;
      assert b == Bucket(b.tokens - 0 as real, b.last);
    } else {
      assert Repeat(a, n) + rest == [a] + (Repeat(a, n - 1) + rest);
      WindowStep(b, a, Repeat(a, n - 1) + rest, a, T, l);
      SpendAtOnce(Bucket(b.tokens - 1.0, b.last), n - 1, rest, a, T, l);
    }
  }

  lemma Scaled(x: real, y: real)
    requires y > 0.0
    ensures Earned(x / y, y) == x && Earned(y, x / y) == x
  {
  }

  lemma ProductAbove(x: real, y: real, bound: real)
    requires y > 0.0 && x > bound / y
    ensures Earned(x, y) > bound
  {
    Scaled(bound, y);
    EarnedAdds(bound / y, x - bound / y, y);
    assert Earned(x - bound / y, y) > 0.0;
  }

  lemma QuotientAbove(x: real, y: real)
    requires x > y > 0.0
    ensures x / y > 1.0
  {
  }

  /** A capacity so large that its refill over D outweighs what the window may add. */
  lemma LargeEnough(D: real, T: real) returns (c: nat)
    requires 0.0 <= T < D
    ensures c > 0 && Earned(D, c as real / D) == c as real
    ensures c as real + Earned(T, c as real / D) < c as real + (c as real - 1.0)
  {
    var q := D / (D - T);
    c := q.Floor + 1;
    ProductAbove(c as real, D - T, D);
    var rate := c as real / D;
    Scaled(c as real, D);
    QuotientAbove(Earned(c as real, D - T), D);
    assert Earned(D - T, rate) == Earned(c as real, D - T) / D;
    EarnedAdds(T, D - T, rate);
  }

  /**
   * Any rise beyond the window breaks the bound: for every window and every reading
   * h > a + T some limit allows too many calls read at `a`, with one call read at h
   * between them.
   */
  lemma RisingBeyondBreaks(a: real, T: real, h: real) returns (l: Limit, n: nat, m: nat)
    requires T >= 0.0 && a + T < h
    ensures l.rate > 0.0
    ensures var ts := Repeat(a, n) + ([h] + Repeat(a, m));
            CountWithin(Answers(None, ts, l), ts, a, T) as real > Capacity(l) + Earned(T, l.rate)
  {
    n := LargeEnough(h - a, T);
    m := n - 1;
    l := Limit(n as real / (h - a), n as real);
    var full, empty := Bucket(n as real, a), Bucket(0.0, a);
    var ts := Repeat(a, n) + ([h] + Repeat(a, m));
    assert ts[0] == a && Take(None, a, l) == Take(Some(full), a, l);
    SpendAtOnce(full, n, [h] + Repeat(a, m), a, T, l);
    WindowStep(empty, h, Repeat(a, m), a, T, l);
    var left := Take(Some(empty), h, l).bucket;
    assert left == Bucket(n as real - 1.0, h);
    SpendAtOnce(left, m, [], a, T, l);
    assert Repeat(a, m) + [] == Repeat(a, m);
  }

  /** Calls at one reading are allowed as long as whole tokens are there, and no longer. */
  lemma {:induction false} AtOnce(b: Bucket, n: nat, i: nat, l: Limit)
    requires i < n
    ensures Answers(Some(b), Repeat(b.last, n), l)[i] <==> b.tokens >= i as real + 1.0
    decreases n
  {
    AnswersCons(Some(b), b.last, Repeat(b.last, n - 1), l);
    assert Repeat(b.last, n) == [b.last] + Repeat(b.last, n - 1);
    if i > 0 {
      var next := Take(Some(b), b.last, l).bucket;
      AtOnce(next, n - 1, i - 1, l);
    }
  }

  /** A key never seen may be called its burst's worth at once, at least once, and no more. */
  lemma BurstExact(t: real, n: nat, i: nat, l: Limit)
    requires i < n
    ensures Answers(None, Repeat(t, n), l)[i] <==> i == 0 || l.burst >= i as real + 1.0
  {
    var b := Bucket(Capacity(l), t);
    assert Repeat(t, n)[0] == t && Take(None, t, l) == Take(Some(b), t, l);
    assert Answers(None, Repeat(t, n), l) == Answers(Some(b), Repeat(t, n), l);
    AtOnce(b, n, i, l);
  }

  /** Each call comes at least the time of one token after the one before. */
  predicate Spaced(ts: seq<real>, l: Limit) {
    forall i :: 0 < i < |ts| ==> Earned(ts[i] - ts[i - 1], l.rate) >= 1.0 && ts[i] > ts[i - 1]
  }

  lemma {:induction false} SpacedFrom(b: Bucket, ts: seq<real>, l: Limit)
    requires Sound(b, l) && l.rate > 0.0 && Spaced(ts, l)
    requires ts != [] ==> ts[0] > b.last && Earned(ts[0] - b.last, l.rate) >= 1.0
    ensures forall i :: 0 <= i < |ts| ==> Answers(Some(b), ts, l)[i]
    decreases |ts|
  {
    if ts != [] {
      var t := Take(Some(b), ts[0], l);
      TakeSound(Some(b), ts[0], l);
      assert t.ok && t.bucket.last == ts[0];
      SpacedTail(ts, l);
      SpacedFrom(t.bucket, ts[1..], l);
    }
  }

  /** Calls no faster than the rate are always allowed. */
  lemma SpacedAllowed(ts: seq<real>, i: nat, l: Limit)
    requires l.rate > 0.0 && Spaced(ts, l) && i < |ts|
    ensures Answers(None, ts, l)[i]
  {
    var t := Take(None, ts[0], l);
    TakeSound(None, ts[0], l);
    assert t.ok && t.bucket.last == ts[0];
    SpacedTail(ts, l);
    SpacedFrom(t.bucket, ts[1..], l);
    AnswersCons(None, ts[0], ts[1..], l);
    assert ts == [ts[0]] + ts[1..];
  }

  lemma SpacedTail(ts: seq<real>, l: Limit)
    requires ts != [] && Spaced(ts, l)
    ensures Spaced(ts[1..], l)
  {
    forall i | 0 < i < |ts[1..]|
      ensures Earned(ts[1..][i] - ts[1..][i - 1], l.rate) >= 1.0 && ts[1..][i] > ts[1..][i - 1]
    {
      assert ts[1..][i] == ts[i + 1] && ts[1..][i - 1] == ts[i];
    }
  }

  predicate NeverBeyond(ts: seq<real>, hi: real) { forall i :: 0 <= i < |ts| ==> ts[i] <= hi }

  ghost predicate Bounded(a: real, T: real, hi: real) {
    forall l: Limit, ts :: l.rate > 0.0 && NeverBeyond(ts, hi) ==>
      CountWithin(Answers(None, ts, l), ts, a, T) as real <= Capacity(l) + Earned(T, l.rate)
  }

  /** With clocks that may do anything up to `hi`, the window is bounded exactly when it reaches up to `hi`. */
  lemma BoundedIff(a: real, T: real, hi: real)
    requires T >= 0.0
    ensures Bounded(a, T, hi) <==> hi <= a + T
  {
    if hi <= a + T {
      forall l: Limit, ts | l.rate > 0.0 && NeverBeyond(ts, hi)
        ensures CountWithin(Answers(None, ts, l), ts, a, T) as real <= Capacity(l) + Earned(T, l.rate)
      {
        WindowCount(None, ts, a, T, l);
      }
    } else {
      var l, n, m := RisingBeyondBreaks(a, T, hi);
      assert NeverBeyond(Repeat(a, n) + ([hi] + Repeat(a, m)), hi);
    }
  }

  // ---------------------------------------------------------------------
  // Forgetting a bucket
  // ---------------------------------------------------------------------

  /** Left alone, the bucket has refilled to capacity by `now`. */
  predicate Full(b: Bucket, now: real, l: Limit) {
    b.tokens + Earned(now - b.last, l.rate) >= Capacity(l)
  }

  predicate From(ts: seq<real>, now: real) {
    Nondecreasing(ts) && forall i :: 0 <= i < |ts| ==> now <= ts[i]
  }

  /** No later calls can tell the bucket from no bucket. */
  ghost predicate Forgettable(b: Bucket, now: real, l: Limit) {
    forall ts :: From(ts, now) ==> Answers(Some(b), ts, l) == Answers(None, ts, l)
  }

  lemma RefillFull(b: Bucket, t: real, l: Limit)
    requires Sound(b, l) && l.rate > 0.0 && b.last <= t && Full(b, t, l)
    ensures Refill(b, t, l) == Bucket(Capacity(l), t)
  {
    if t == b.last {
      EarnedNothing(l.rate);
    }
  }

  /** A bucket idle for long enough to earn its capacity is full. */
  lemma IdleIsFull(b: Bucket, now: real, idle: real, l: Limit)
    requires Sound(b, l) && l.rate > 0.0
    requires now - b.last >= idle && Earned(idle, l.rate) >= Capacity(l)
    ensures Full(b, now, l)
  {
    EarnedMonotone(idle, now - b.last, l.rate);
  }

  lemma RefillPartial(b: Bucket, now: real, l: Limit)
    requires Sound(b, l) && l.rate > 0.0 && b.last <= now && !Full(b, now, l)
    ensures 0.0 <= Refill(b, now, l).tokens < Capacity(l) && Refill(b, now, l).last == now
  {
    TakeSound(Some(b), now, l);
    if now == b.last {
      EarnedNothing(l.rate);
    }
  }

  lemma FullStays(b: Bucket, now: real, t: real, l: Limit)
    requires l.rate > 0.0 && now <= t && Full(b, now, l)
    ensures Full(b, t, l)
  {
    EarnedMonotone(now - b.last, t - b.last, l.rate);
  }

  /** A full bucket answers, and is left, exactly as a fresh one. */
  lemma FullTakesAsFresh(b: Bucket, now: real, t: real, l: Limit)
    requires Sound(b, l) && l.rate > 0.0 && b.last <= now <= t && Full(b, now, l)
    ensures Take(Some(b), t, l) == Take(None, t, l)
  {
    FullStays(b, now, t, l);
    RefillFull(b, t, l);
  }

  lemma AnswersCons(ob: Option<Bucket>, t: real, rest: seq<real>, l: Limit)
    ensures Answers(ob, [t] + rest, l) == [Take(ob, t, l).ok] + Answers(Some(Take(ob, t, l).bucket), rest, l)
  {
    assert ([t] + rest)[1..] == rest;
  }

  /** The wait after which `y` tokens have become exactly one. */
  lemma WaitForOne(y: real, l: Limit) returns (dt: real)
    requires l.rate > 0.0 && y < 1.0
    ensures dt > 0.0 && Earned(dt, l.rate) == 1.0 - y
  {
    dt := (1.0 - y) / l.rate;
  }

  lemma TakeAfterWait(x: real, y: real, now: real, dt: real, l: Limit)
    requires 0.0 <= x < y < 1.0 && dt > 0.0 && Earned(dt, l.rate) == 1.0 - y
    ensures !Take(Some(Bucket(x, now)), now + dt, l).ok && Take(Some(Bucket(y, now)), now + dt, l).ok
  {
    assert now + dt - now == dt;
  }

  lemma DifferAtFirst(b: Bucket, c: Bucket, t: real, l: Limit)
    requires Take(Some(b), t, l).ok != Take(Some(c), t, l).ok
    ensures Answers(Some(b), [t], l) != Answers(Some(c), [t], l)
  {
    assert Answers(Some(b), [t], l)[0] != Answers(Some(c), [t], l)[0];
  }

  lemma TailsDiffer(a: bool, xs: seq<bool>, b: bool, ys: seq<bool>)
    requires xs != ys
    ensures [a] + xs != [b] + ys
  {
    assert ([a] + xs)[1..] == xs && ([b] + ys)[1..] == ys;
  }

  lemma DifferLater(b: Bucket, c: Bucket, tb: Taken, tc: Taken, t: real, rest: seq<real>, l: Limit)
    requires tb == Take(Some(b), t, l) && tc == Take(Some(c), t, l)
    requires Answers(Some(tb.bucket), rest, l) != Answers(Some(tc.bucket), rest, l)
    ensures Answers(Some(b), [t] + rest, l) != Answers(Some(c), [t] + rest, l)
  {
    TailsDiffer(tb.ok, Answers(Some(tb.bucket), rest, l), tc.ok, Answers(Some(tc.bucket), rest, l));
    AnswersCons(Some(b), t, rest, l);
    AnswersCons(Some(c), t, rest, l);
  }

  /** Two buckets with different contents are told apart by some later calls. */
  lemma {:induction false} Distinguish(x: real, y: real, now: real, l: Limit) returns (ts: seq<real>)
    requires l.rate > 0.0 && 0.0 <= x < y <= Capacity(l)
    ensures From(ts, now) && Answers(Some(Bucket(x, now)), ts, l) != Answers(Some(Bucket(y, now)), ts, l)
    decreases x.Floor
  {
    if x >= 1.0 {
      var rest := Distinguish(x - 1.0, y - 1.0, now, l);
      DifferLater(Bucket(x, now), Bucket(y, now), Taken(Bucket(x - 1.0, now), true), Taken(Bucket(y - 1.0, now), true), now, rest, l);
      ts := [now] + rest;
    } else if y >= 1.0 {
      DifferAtFirst(Bucket(x, now), Bucket(y, now), now, l);
      ts := [now];
    } else {
      var dt := WaitForOne(y, l);
      TakeAfterWait(x, y, now, dt, l);
      DifferAtFirst(Bucket(x, now), Bucket(y, now), now + dt, l);
      ts := [now + dt];
    }
  }

  lemma RefillTwice(b: Bucket, t1: real, t2: real, l: Limit)
    requires l.rate > 0.0 && b.last <= t1 <= t2 && b.tokens <= Capacity(l)
    ensures Refill(Refill(b, t1, l), t2, l) == Refill(b, t2, l)
  {
    if b.last < t1 < t2 {
      EarnedAdds(t2 - t1, t1 - b.last, l.rate);
      EarnedNonnegative(t2 - t1, l.rate);
    }
  }

  lemma FreshTwice(t1: real, t2: real, l: Limit)
    requires l.rate > 0.0 && t1 <= t2
    ensures Refill(Bucket(Capacity(l), t1), t2, l) == Bucket(Capacity(l), t2)
  {
    if t1 < t2 {
      EarnedNonnegative(t2 - t1, l.rate);
    }
  }

  /** Calls from `now` on cannot tell a bucket from its refill at `now`, nor none from a fresh one. */
  lemma TouchFirst(b: Bucket, ts: seq<real>, now: real, l: Limit)
    requires Sound(b, l) && l.rate > 0.0 && b.last <= now && From(ts, now)
    ensures Answers(Some(b), ts, l) == Answers(Some(Refill(b, now, l)), ts, l)
    ensures Answers(None, ts, l) == Answers(Some(Bucket(Capacity(l), now)), ts, l)
  {
    if ts != [] {
      RefillTwice(b, now, ts[0], l);
      FreshTwice(now, ts[0], l);
      assert Take(Some(b), ts[0], l) == Take(Some(Refill(b, now, l)), ts[0], l);
      assert Take(None, ts[0], l) == Take(Some(Bucket(Capacity(l), now)), ts[0], l);
    }
  }

  /** Dropping an idle bucket is unobservable exactly when it has refilled completely. */
  lemma ForgettableIff(b: Bucket, now: real, l: Limit)
    requires Sound(b, l) && l.rate > 0.0 && b.last <= now
    ensures Forgettable(b, now, l) <==> Full(b, now, l)
  {
    if Full(b, now, l) {
      forall ts | From(ts, now) ensures Answers(Some(b), ts, l) == Answers(None, ts, l) {
        if ts != [] {
          FullTakesAsFresh(b, now, ts[0], l);
        }
      }
    } else {
      RefillPartial(b, now, l);
      var ts := Distinguish(Refill(b, now, l).tokens, Capacity(l), now, l);
      TouchFirst(b, ts, now, l);
      assert Answers(Some(b), ts, l) != Answers(None, ts, l);
    }
  }
}
