/**
 * The two limiters as objects over many keys, and when the sweep of
 * internal/relay/ratelimit.go leaves every answer as internal/fakerelay/ratelimit.go
 * gives it.
 */
module SweepingLimiter {
  import opened Common
  import opened TokenBucket

  type Buckets = map<string, Bucket>

  const SWEEP_INTERVAL: real := 600.0

  function PerHour(n: int): Limit {
    if n <= 0 then Limit(0.0, 0.0) else Limit(n as real / 3600.0, n as real)
  }

  function Lookup(bs: Buckets, key: string): Option<Bucket> {
    if key in bs then Some(bs[key]) else None
  }

  datatype Simple = Simple(buckets: Buckets, ok: bool)

  /** One call without a sweep; a rate of zero or less is no limit. */
  function Allow(bs: Buckets, key: string, now: real, l: Limit): Simple {
    if l.rate <= 0.0 then Simple(bs, true)
    else
      var t := Take(Lookup(bs, key), now, l);
      Simple(bs[key := t.bucket], t.ok)
  }

  datatype Sweeper = Sweeper(buckets: Buckets, lastSweep: Option<real>)

  /** The idle time after which a sweeping call drops a bucket: whole seconds, at least the interval. */
  function RefillTime(l: Limit): real
    requires l.rate > 0.0
  {
    var whole := (Capacity(l) / l.rate).Floor as real;
    if whole < SWEEP_INTERVAL then SWEEP_INTERVAL else whole
  }

  predicate Sweeps(s: Sweeper, now: real) {
    s.lastSweep.Some? && now - s.lastSweep.value >= SWEEP_INTERVAL
  }

  function Kept(bs: Buckets, now: real, refill: real): Buckets {
    map k | k in bs && now - bs[k].last <= refill :: bs[k]
  }

  function Sweep(s: Sweeper, now: real, l: Limit): Sweeper
    requires l.rate > 0.0
  {
    if s.lastSweep.None? then s.(lastSweep := Some(now))
    else if !Sweeps(s, now) then s
    else Sweeper(Kept(s.buckets, now, RefillTime(l)), Some(now))
  }

  datatype Swept = Swept(state: Sweeper, ok: bool)

  /** One call with the sweep in front. */
  function AllowSweeping(s: Sweeper, key: string, now: real, l: Limit): Swept {
    if l.rate <= 0.0 then Swept(s, true)
    else
      var s' := Sweep(s, now, l);
      var r := Allow(s'.buckets, key, now, l);
      Swept(s'.(buckets := r.buckets), r.ok)
  }

  /** A call sweeps ten minutes after the last sweep and not before; it drops what has been idle for ten minutes and for the whole seconds of its own refill. */
  lemma SweepExact(s: Sweeper, now: real, l: Limit, k: string)
    requires l.rate > 0.0
    ensures var s' := Sweep(s, now, l);
            && (s.lastSweep.None? ==> s' == Sweeper(s.buckets, Some(now)))
            && (s.lastSweep.Some? && now - s.lastSweep.value < 600.0 ==> s' == s)
            && (s.lastSweep.Some? && now - s.lastSweep.value >= 600.0 ==>
                  && s'.lastSweep == Some(now)
                  && (k in s'.buckets ==> k in s.buckets && s'.buckets[k] == s.buckets[k])
                  && (k in s.buckets ==>
                        (k !in s'.buckets <==> now - s.buckets[k].last > 600.0
                                               && now - s.buckets[k].last > (Capacity(l) / l.rate).Floor as real)))
  {
  }

  /** An hourly limit of `n` allows at most `n` at once and `n` more within the hour. */
  lemma PerHourBound(n: int, ts: seq<real>, i: nat, j: nat, a: real)
    requires n > 0 && i <= j <= |ts| && (i < j ==> a <= ts[i]) && forall k :: i <= k < j ==> ts[k] <= a + 3600.0
    ensures Count(Answers(None, ts, PerHour(n))[i..j]) <= 2 * n
  {
    RateBound(ts, i, j, a, 3600.0, PerHour(n));
    Scaled(n as real, 3600.0);
  }

  lemma PerHourBurst(n: int, t: real, i: nat)
    requires 0 <= i < n
    ensures Answers(None, Repeat(t, n), PerHour(n))[i]
  {
    BurstExact(t, n, i, PerHour(n));
  }

  // ---------------------------------------------------------------------
  // The objects
  // ---------------------------------------------------------------------

  /** Refill and consume, as both allow methods do once they hold the bucket. */
  method Consume(ob: Option<Bucket>, now: real, rate: real, burst: real) returns (b: Bucket, ok: bool)
    ensures Taken(b, ok) == Take(ob, now, Limit(rate, burst))
  {
    var cap := if burst < 1.0 then 1.0 else burst;
    b := if ob.Some? then ob.value else Bucket(cap, now);
    if now - b.last > 0.0 {
      var tokens := b.tokens + Earned(now - b.last, rate);
      if tokens > cap {
        tokens := cap;
      }
      b := Bucket(tokens, now);
    }
    ok := b.tokens >= 1.0;
    if ok {
      b := b.(tokens := b.tokens - 1.0);
    }
  }

  class SimpleLimiter {
    var buckets: Buckets

    constructor ()
      ensures buckets == map[]
    {
      buckets := map[];
    }

    method TryTake(key: string, now: real, rate: real, burst: real) returns (ok: bool)
      modifies this
      ensures Simple(buckets, ok) == Allow(old(buckets), key, now, Limit(rate, burst))
    {
      if rate <= 0.0 {
        return true;
      }
      var b;
      b, ok := Consume(Lookup(buckets, key), now, rate, burst);
      buckets := buckets[key := b];
    }
  }

  class SweptLimiter {
    var buckets: Buckets
    var lastSweep: Option<real>

    ghost function View(): Sweeper
      reads this
    {
      Sweeper(buckets, lastSweep)
    }

    constructor ()
      ensures View() == Sweeper(map[], None)
    {
      buckets, lastSweep := map[], None;
    }

    /** Drop every bucket idle for longer than `refill`, key by key. */
    method DropIdle(now: real, refill: real)
      modifies this`buckets
      ensures buckets == Kept(old(buckets), now, refill)
    {
      var todo := buckets.Keys;
      while todo != {}
        invariant todo <= old(buckets).Keys
        invariant buckets == map k | k in old(buckets) && (k in todo || now - old(buckets)[k].last <= refill) :: old(buckets)[k]
        decreases |todo|
      {
        var k :| k in todo;
        if now - buckets[k].last > refill {
          buckets := buckets - {k};
        }
        todo := todo - {k};
      }
    }

    method SweepLocked(now: real, rate: real, burst: real)
      requires rate > 0.0
      modifies this
      ensures View() == Sweep(old(View()), now, Limit(rate, burst))
    {
      if lastSweep.None? {
        lastSweep := Some(now);
        return;
      }
      if now - lastSweep.value < SWEEP_INTERVAL {
        return;
      }
      lastSweep := Some(now);
      var refill := (Capacity(Limit(rate, burst)) / rate).Floor as real;
      if refill < SWEEP_INTERVAL {
        refill := SWEEP_INTERVAL;
      }
      DropIdle(now, refill);
    }

    method TryTake(key: string, now: real, rate: real, burst: real) returns (ok: bool)
      modifies this
      ensures Swept(View(), ok) == AllowSweeping(old(View()), key, now, Limit(rate, burst))
    {
      if rate <= 0.0 {
        return true;
      }
      SweepLocked(now, rate, burst);
      var b;
      b, ok := Consume(Lookup(buckets, key), now, rate, burst);
      buckets := buckets[key := b];
    }
  }

  // ---------------------------------------------------------------------
  // When sweeping changes no answer
  // ---------------------------------------------------------------------

  datatype Call = Call(key: string, now: real)

  function SimpleAnswers(bs: Buckets, calls: seq<Call>, cfg: string -> Limit): seq<bool>
    decreases |calls|
  {
    if calls == [] then []
    else
      var r := Allow(bs, calls[0].key, calls[0].now, cfg(calls[0].key));
      [r.ok] + SimpleAnswers(r.buckets, calls[1..], cfg)
  }

  function SweepingAnswers(s: Sweeper, calls: seq<Call>, cfg: string -> Limit): seq<bool>
    decreases |calls|
  {
    if calls == [] then []
    else
      var r := AllowSweeping(s, calls[0].key, calls[0].now, cfg(calls[0].key));
      [r.ok] + SweepingAnswers(r.state, calls[1..], cfg)
  }

  /** Every bucket this call drops has refilled by its own limit. */
  predicate DropsOnlyFull(s: Sweeper, c: Call, cfg: string -> Limit) {
    cfg(c.key).rate > 0.0 ==>
      forall k :: k in s.buckets && k !in Sweep(s, c.now, cfg(c.key)).buckets ==> Full(s.buckets[k], c.now, cfg(k))
  }

  predicate AllDropsFull(s: Sweeper, calls: seq<Call>, cfg: string -> Limit)
    decreases |calls|
  {
    calls == [] ||
    (&& DropsOnlyFull(s, calls[0], cfg)
     && AllDropsFull(AllowSweeping(s, calls[0].key, calls[0].now, cfg(calls[0].key)).state, calls[1..], cfg))
  }

  predicate InTimeOrder(calls: seq<Call>, from: real) {
    && (forall i :: 0 <= i < |calls| ==> from <= calls[i].now)
    && (forall i, j :: 0 <= i < j < |calls| ==> calls[i].now <= calls[j].now)
  }

  predicate SoundBuckets(bs: Buckets, t: real, cfg: string -> Limit) {
    forall k :: k in bs ==> cfg(k).rate > 0.0 && Sound(bs[k], cfg(k)) && bs[k].last <= t
  }

  /** The sweeper holds what the simple limiter holds, save buckets that are full. */
  predicate Agree(s: Sweeper, bs: Buckets, t: real, cfg: string -> Limit) {
    && SoundBuckets(bs, t, cfg)
    && (forall k :: k in s.buckets ==> k in bs && bs[k] == s.buckets[k])
    && (forall k :: k in bs && k !in s.buckets ==> Full(bs[k], t, cfg(k)))
  }

  lemma AgreeLater(s: Sweeper, bs: Buckets, t: real, now: real, cfg: string -> Limit)
    requires Agree(s, bs, t, cfg) && t <= now
    ensures Agree(s, bs, now, cfg)
  {
    forall k | k in bs && k !in s.buckets ensures Full(bs[k], now, cfg(k)) {
      FullStays(bs[k], t, now, cfg(k));
    }
  }

  lemma AgreeSwept(s: Sweeper, bs: Buckets, c: Call, cfg: string -> Limit)
    requires Agree(s, bs, c.now, cfg) && cfg(c.key).rate > 0.0 && DropsOnlyFull(s, c, cfg)
    ensures Agree(Sweep(s, c.now, cfg(c.key)), bs, c.now, cfg)
  {
  }

  lemma AgreeTaken(s: Sweeper, bs: Buckets, c: Call, cfg: string -> Limit)
    requires Agree(s, bs, c.now, cfg) && cfg(c.key).rate > 0.0
    ensures var l := cfg(c.key);
            var r, r' := Allow(s.buckets, c.key, c.now, l), Allow(bs, c.key, c.now, l);
            r.ok == r'.ok && Agree(s.(buckets := r.buckets), r'.buckets, c.now, cfg)
  {
    var l := cfg(c.key);
    if c.key in bs && c.key !in s.buckets {
      FullTakesAsFresh(bs[c.key], c.now, c.now, l);
    }
    assert Take(Lookup(s.buckets, c.key), c.now, l) == Take(Lookup(bs, c.key), c.now, l);
    TakeSound(Lookup(bs, c.key), c.now, l);
  }

  lemma {:induction false} SweepTransparentFrom(s: Sweeper, bs: Buckets, calls: seq<Call>, t: real, cfg: string -> Limit)
    requires Agree(s, bs, t, cfg) && InTimeOrder(calls, t) && AllDropsFull(s, calls, cfg)
    ensures SweepingAnswers(s, calls, cfg) == SimpleAnswers(bs, calls, cfg)
    decreases |calls|
  {
    if calls != [] {
      var c, l := calls[0], cfg(calls[0].key);
      AgreeLater(s, bs, t, c.now, cfg);
      if l.rate > 0.0 {
        AgreeSwept(s, bs, c, cfg);
        AgreeTaken(Sweep(s, c.now, l), bs, c, cfg);
      }
      SweepTransparentFrom(AllowSweeping(s, c.key, c.now, l).state, Allow(bs, c.key, c.now, l).buckets,
                           calls[1..], c.now, cfg);
    }
  }

  /**
   * With a clock that does not go back, the sweeping limiter answers every call
   * sequence as the simple one, provided each dropped bucket had refilled by its own
   * rate and burst.
   */
  lemma SweepTransparent(calls: seq<Call>, t: real, cfg: string -> Limit)
    requires InTimeOrder(calls, t) && AllDropsFull(Sweeper(map[], None), calls, cfg)
    ensures SweepingAnswers(Sweeper(map[], None), calls, cfg) == SimpleAnswers(map[], calls, cfg)
  {
    SweepTransparentFrom(Sweeper(map[], None), map[], calls, t, cfg);
  }

  /** The sweeping call's refill time covers a bucket whose own burst takes no longer to refill. */
  predicate Covers(sweeping: Limit, own: Limit) {
    sweeping.rate > 0.0 && own.rate > 0.0 && Earned(RefillTime(sweeping), own.rate) >= Capacity(own)
  }

  lemma CoveredDropsAreFull(s: Sweeper, c: Call, cfg: string -> Limit)
    requires SoundBuckets(s.buckets, c.now, cfg)
    requires forall k :: k in s.buckets ==> Covers(cfg(c.key), cfg(k))
    ensures DropsOnlyFull(s, c, cfg)
  {
    if cfg(c.key).rate > 0.0 {
      forall k | k in s.buckets && k !in Sweep(s, c.now, cfg(c.key)).buckets
        ensures Full(s.buckets[k], c.now, cfg(k))
      {
        IdleIsFull(s.buckets[k], c.now, RefillTime(cfg(c.key)), cfg(k));
      }
    }
  }

  /** Two keys with the same limit cover each other when its refill is short or whole seconds. */
  lemma SameLimitCovers(l: Limit)
    requires l.rate > 0.0
    requires Capacity(l) / l.rate <= SWEEP_INTERVAL || (Capacity(l) / l.rate).Floor as real == Capacity(l) / l.rate
    ensures Covers(l, l)
  {
    var own := Capacity(l) / l.rate;
    assert Earned(own, l.rate) == Capacity(l);
    EarnedMonotone(own, RefillTime(l), l.rate);
  }

  lemma {:induction false} CoveredRun(s: Sweeper, calls: seq<Call>, t: real, cfg: string -> Limit)
    requires SoundBuckets(s.buckets, t, cfg) && InTimeOrder(calls, t)
    requires forall i, k :: 0 <= i < |calls| && cfg(calls[i].key).rate > 0.0 && cfg(k).rate > 0.0 ==>
                              Covers(cfg(calls[i].key), cfg(k))
    ensures AllDropsFull(s, calls, cfg)
    decreases |calls|
  {
    if calls != [] {
      var c, l := calls[0], cfg(calls[0].key);
      if l.rate > 0.0 {
        assert forall k :: k in s.buckets ==> Covers(cfg(calls[0].key), cfg(k));
        CoveredDropsAreFull(s, c, cfg);
        var s' := Sweep(s, c.now, l);
        TakeSound(Lookup(s'.buckets, c.key), c.now, l);
      }
      CoveredRun(AllowSweeping(s, c.key, c.now, l).state, calls[1..], c.now, cfg);
    }
  }

  /** No key's sweep drops a bucket early: every limit in force covers every other. */
  ghost predicate AllCover(cfg: string -> Limit) {
    forall a, k :: cfg(a).rate > 0.0 && cfg(k).rate > 0.0 ==> Covers(cfg(a), cfg(k))
  }

  /** With limits that cover each other and a clock that does not go back the sweep changes no answer. */
  lemma CoveredTransparent(calls: seq<Call>, t: real, cfg: string -> Limit)
    requires AllCover(cfg) && InTimeOrder(calls, t)
    ensures SweepingAnswers(Sweeper(map[], None), calls, cfg) == SimpleAnswers(map[], calls, cfg)
  {
    CoveredRun(Sweeper(map[], None), calls, t, cfg);
    SweepTransparent(calls, t, cfg);
  }

  // ---------------------------------------------------------------------
  // And otherwise some calls see the difference
  // ---------------------------------------------------------------------

  /** Some further calls are answered differently. */
  ghost predicate Differ(s: Sweeper, bs: Buckets, now: real, cfg: string -> Limit) {
    exists calls :: InTimeOrder(calls, now) && SweepingAnswers(s, calls, cfg) != SimpleAnswers(bs, calls, cfg)
  }

  /** One call more in front, answered differently or followed by calls that are. */
  lemma OneCallMore(s: Sweeper, bs: Buckets, c: Call, rest: seq<Call>, cfg: string -> Limit)
    requires var r, r' := AllowSweeping(s, c.key, c.now, cfg(c.key)), Allow(bs, c.key, c.now, cfg(c.key));
             r.ok != r'.ok || SweepingAnswers(r.state, rest, cfg) != SimpleAnswers(r'.buckets, rest, cfg)
    ensures SweepingAnswers(s, [c] + rest, cfg) != SimpleAnswers(bs, [c] + rest, cfg)
  {
    var r, r' := AllowSweeping(s, c.key, c.now, cfg(c.key)), Allow(bs, c.key, c.now, cfg(c.key));
    assert ([c] + rest)[1..] == rest;
    if r.ok != r'.ok {
      assert SweepingAnswers(s, [c] + rest, cfg)[0] != SimpleAnswers(bs, [c] + rest, cfg)[0];
    } else {
      TailsDiffer(r.ok, SweepingAnswers(r.state, rest, cfg), r'.ok, SimpleAnswers(r'.buckets, rest, cfg));
    }
  }

  lemma DifferAfter(s: Sweeper, bs: Buckets, now: real, c: Call, cfg: string -> Limit)
    requires now <= c.now
    requires var r, r' := AllowSweeping(s, c.key, c.now, cfg(c.key)), Allow(bs, c.key, c.now, cfg(c.key));
             r.ok != r'.ok || Differ(r.state, r'.buckets, c.now, cfg)
    ensures Differ(s, bs, now, cfg)
  {
    var r, r' := AllowSweeping(s, c.key, c.now, cfg(c.key)), Allow(bs, c.key, c.now, cfg(c.key));
    var rest: seq<Call> := [];
    if r.ok == r'.ok {
      rest :| InTimeOrder(rest, c.now) && SweepingAnswers(r.state, rest, cfg) != SimpleAnswers(r'.buckets, rest, cfg);
    }
    OneCallMore(s, bs, c, rest, cfg);
    assert InTimeOrder([c] + rest, now);
  }

  /** A bucket touched at this very moment survives any sweep. */
  lemma FreshSurvives(s: Sweeper, k: string, now: real, l: Limit)
    requires l.rate > 0.0 && k in s.buckets && s.buckets[k].last == now
    ensures k in Sweep(s, now, l).buckets && Sweep(s, now, l).buckets[k] == s.buckets[k]
  {
  }

  /** A sweeper that holds more for a key than the simple limiter is found out. */
  lemma {:induction false} RicherDiffers(s: Sweeper, bs: Buckets, k: string, x: real, y: real, now: real, cfg: string -> Limit)
    requires cfg(k).rate > 0.0 && 0.0 <= x < y <= Capacity(cfg(k))
    requires k in s.buckets && s.buckets[k] == Bucket(y, now)
    requires k in bs && bs[k] == Bucket(x, now)
    ensures Differ(s, bs, now, cfg)
    decreases x.Floor
  {
    var l := cfg(k);
    FreshSurvives(s, k, now, l);
    if x >= 1.0 {
      var r, r' := AllowSweeping(s, k, now, l), Allow(bs, k, now, l);
      RicherDiffers(r.state, r'.buckets, k, x - 1.0, y - 1.0, now, cfg);
      DifferAfter(s, bs, now, Call(k, now), cfg);
    } else if y >= 1.0 {
      DifferAfter(s, bs, now, Call(k, now), cfg);
    } else {
      var dt := WaitForOne(y, l);
      TakeAfterWait(x, y, now, dt, l);
      DifferAfter(s, bs, now, Call(k, now + dt), cfg);
    }
  }

  /** A horizon just past the sweeping call's refill time at which the other bucket is still short. */
  lemma JustPast(sweeping: Limit, own: Limit) returns (idle: real)
    requires sweeping.rate > 0.0 && own.rate > 0.0 && !Covers(sweeping, own)
    ensures idle > RefillTime(sweeping) && 0.0 < Earned(idle, own.rate) < Capacity(own)
  {
    var r := RefillTime(sweeping);
    var gap := (Capacity(own) - Earned(r, own.rate)) / 2.0;
    idle := r + gap / own.rate;
    EarnedAdds(r, gap / own.rate, own.rate);
    assert Earned(gap / own.rate, own.rate) == gap;
    EarnedNonnegative(r, own.rate);
  }

  /** Once the empty bucket is gone, a call on its key finds a full one. */
  lemma DroppedDiffers(s: Sweeper, bs: Buckets, k: string, t: real, now: real, cfg: string -> Limit)
    requires cfg(k).rate > 0.0 && t < now && Earned(now - t, cfg(k).rate) < Capacity(cfg(k))
    requires k !in Sweep(s, now, cfg(k)).buckets && k in bs && bs[k] == Bucket(0.0, t)
    ensures Differ(s, bs, now, cfg)
  {
    var l := cfg(k);
    var x := Earned(now - t, l.rate);
    EarnedNonnegative(now - t, l.rate);
    assert Refill(bs[k], now, l) == Bucket(x, now);
    if x >= 1.0 {
      var r, r' := AllowSweeping(s, k, now, l), Allow(bs, k, now, l);
      RicherDiffers(r.state, r'.buckets, k, x - 1.0, Capacity(l) - 1.0, now, cfg);
    }
    DifferAfter(s, bs, now, Call(k, now), cfg);
  }

  /** An empty bucket that an uncovered sweep drops. */
  lemma EmptyDiffers(s: Sweeper, bs: Buckets, a: string, k: string, t: real, cfg: string -> Limit)
    requires cfg(a).rate > 0.0 && cfg(k).rate > 0.0 && !Covers(cfg(a), cfg(k))
    requires k in s.buckets && s.buckets[k] == Bucket(0.0, t) && k in bs && bs[k] == Bucket(0.0, t)
    requires s.lastSweep.Some? && s.lastSweep.value <= t
    ensures Differ(s, bs, t, cfg)
  {
    var idle := JustPast(cfg(a), cfg(k));
    var now := t + idle;
    assert now - t == idle;
    assert Sweeps(s, now) && k !in Sweep(s, now, cfg(a)).buckets;
    if a == k {
      DroppedDiffers(s, bs, k, t, now, cfg);
      SoonerDiffers(s, bs, t, now, cfg);
    } else {
      var r, r' := AllowSweeping(s, a, now, cfg(a)), Allow(bs, a, now, cfg(a));
      assert k !in r.state.buckets && r'.buckets[k] == Bucket(0.0, t);
      DroppedDiffers(r.state, r'.buckets, k, t, now, cfg);
      DifferAfter(s, bs, t, Call(a, now), cfg);
    }
  }

  lemma SoonerDiffers(s: Sweeper, bs: Buckets, t: real, now: real, cfg: string -> Limit)
    requires t <= now && Differ(s, bs, now, cfg)
    ensures Differ(s, bs, t, cfg)
  {
    var calls :| InTimeOrder(calls, now) && SweepingAnswers(s, calls, cfg) != SimpleAnswers(bs, calls, cfg);
    assert InTimeOrder(calls, t);
  }

  /** Take until less than one token is left, wait for exactly one, and take it: the bucket is empty. */
  lemma {:induction false} DrainDiffers(s: Sweeper, bs: Buckets, a: string, k: string, y: real, cfg: string -> Limit)
    requires cfg(a).rate > 0.0 && cfg(k).rate > 0.0 && !Covers(cfg(a), cfg(k))
    requires 0.0 <= y < Capacity(cfg(k)) && (Capacity(cfg(k)) == 1.0 ==> y == 0.0)
    requires k in s.buckets && s.buckets[k] == Bucket(y, 0.0) && k in bs && bs[k] == Bucket(y, 0.0)
    requires s.lastSweep == Some(0.0)
    ensures Differ(s, bs, 0.0, cfg)
    decreases y.Floor
  {
    var l := cfg(k);
    if y == 0.0 {
      EmptyDiffers(s, bs, a, k, 0.0, cfg);
    } else if y >= 1.0 {
      var r, r' := AllowSweeping(s, k, 0.0, l), Allow(bs, k, 0.0, l);
      DrainDiffers(r.state, r'.buckets, a, k, y - 1.0, cfg);
      DifferAfter(s, bs, 0.0, Call(k, 0.0), cfg);
    } else {
      var dt := WaitForOne(y, l);
      var r, r' := AllowSweeping(s, k, dt, l), Allow(bs, k, dt, l);
      assert dt - 0.0 == dt;
      assert Take(Some(Bucket(y, 0.0)), dt, l) == Taken(Bucket(0.0, dt), true);
      if k in Sweep(s, dt, l).buckets {
        EmptyDiffers(r.state, r'.buckets, a, k, dt, cfg);
      } else {
        RicherDiffers(r.state, r'.buckets, k, 0.0, Capacity(l) - 1.0, dt, cfg);
      }
      DifferAfter(s, bs, 0.0, Call(k, dt), cfg);
    }
  }

  lemma UncoveredDiffers(a: string, k: string, cfg: string -> Limit)
    requires cfg(a).rate > 0.0 && cfg(k).rate > 0.0 && !Covers(cfg(a), cfg(k))
    ensures Differ(Sweeper(map[], None), map[], 0.0, cfg)
  {
    var l := cfg(k);
    var r, r' := AllowSweeping(Sweeper(map[], None), k, 0.0, l), Allow(map[], k, 0.0, l);
    DrainDiffers(r.state, r'.buckets, a, k, Capacity(l) - 1.0, cfg);
    DifferAfter(Sweeper(map[], None), map[], 0.0, Call(k, 0.0), cfg);
  }

  /** The sweeping limiter answers every call sequence in time order as the simple one does. */
  ghost predicate Transparent(cfg: string -> Limit) {
    forall calls, t :: InTimeOrder(calls, t) ==>
      SweepingAnswers(Sweeper(map[], None), calls, cfg) == SimpleAnswers(map[], calls, cfg)
  }

  /** With a clock that does not go back, the sweep is unobservable if and only if every two limits in force cover each other. */
  lemma TransparentIff(cfg: string -> Limit)
    ensures Transparent(cfg) <==> AllCover(cfg)
  {
    if AllCover(cfg) {
      forall calls, t | InTimeOrder(calls, t)
        ensures SweepingAnswers(Sweeper(map[], None), calls, cfg) == SimpleAnswers(map[], calls, cfg)
      {
        CoveredTransparent(calls, t, cfg);
      }
    } else {
      var a, k :| cfg(a).rate > 0.0 && cfg(k).rate > 0.0 && !Covers(cfg(a), cfg(k));
      UncoveredDiffers(a, k, cfg);
    }
  }

  // ---------------------------------------------------------------------
  // With a clock that may go back
  // ---------------------------------------------------------------------

  /** No two keys are limited, and the one that is covers itself. */
  ghost predicate OneKeyCovered(cfg: string -> Limit) {
    && (forall a, k :: cfg(a).rate > 0.0 && cfg(k).rate > 0.0 ==> a == k)
    && (forall k :: cfg(k).rate > 0.0 ==> Covers(cfg(k), cfg(k)))
  }

  /** Sweeping for the very key that is called, on a bucket that its own horizon covers, changes nothing. */
  lemma OwnSweep(s: Sweeper, k: string, now: real, l: Limit)
    requires Covers(l, l) && s.buckets.Keys <= {k} && (k in s.buckets ==> Sound(s.buckets[k], l))
    ensures Allow(Sweep(s, now, l).buckets, k, now, l) == Allow(s.buckets, k, now, l)
  {
    var kept := Sweep(s, now, l).buckets;
    if k in s.buckets && k !in kept {
      IdleIsFull(s.buckets[k], now, RefillTime(l), l);
      FullTakesAsFresh(s.buckets[k], now, now, l);
      assert kept[k := Take(None, now, l).bucket] == s.buckets[k := Take(None, now, l).bucket];
    } else {
      assert kept == s.buckets;
    }
  }

  lemma {:induction false} OneKeyTransparent(s: Sweeper, k: string, calls: seq<Call>, cfg: string -> Limit)
    requires OneKeyCovered(cfg) && cfg(k).rate > 0.0
    requires s.buckets.Keys <= {k} && (k in s.buckets ==> Sound(s.buckets[k], cfg(k)))
    ensures SweepingAnswers(s, calls, cfg) == SimpleAnswers(s.buckets, calls, cfg)
    decreases |calls|
  {
    if calls != [] {
      var c, l := calls[0], cfg(calls[0].key);
      if l.rate > 0.0 {
        assert c.key == k;
        OwnSweep(s, k, c.now, l);
        TakeSound(Lookup(s.buckets, k), c.now, l);
      }
      OneKeyTransparent(AllowSweeping(s, c.key, c.now, l).state, k, calls[1..], cfg);
    }
  }

  lemma {:induction false} UnlimitedTransparent(s: Sweeper, bs: Buckets, calls: seq<Call>, cfg: string -> Limit)
    requires forall k :: cfg(k).rate <= 0.0
    ensures SweepingAnswers(s, calls, cfg) == SimpleAnswers(bs, calls, cfg)
    decreases |calls|
  {
    if calls != [] {
      UnlimitedTransparent(s, bs, calls[1..], cfg);
    }
  }

  /** Some calls, in whatever order their clock reads, are answered differently. */
  ghost predicate DifferAnyhow(s: Sweeper, bs: Buckets, cfg: string -> Limit) {
    exists calls :: SweepingAnswers(s, calls, cfg) != SimpleAnswers(bs, calls, cfg)
  }

  lemma DifferAnyhowAfter(s: Sweeper, bs: Buckets, c: Call, cfg: string -> Limit)
    requires var r, r' := AllowSweeping(s, c.key, c.now, cfg(c.key)), Allow(bs, c.key, c.now, cfg(c.key));
             r.ok != r'.ok || DifferAnyhow(r.state, r'.buckets, cfg)
    ensures DifferAnyhow(s, bs, cfg)
  {
    var r, r' := AllowSweeping(s, c.key, c.now, cfg(c.key)), Allow(bs, c.key, c.now, cfg(c.key));
    var rest: seq<Call> := [];
    if r.ok == r'.ok {
      rest :| SweepingAnswers(r.state, rest, cfg) != SimpleAnswers(r'.buckets, rest, cfg);
    }
    OneCallMore(s, bs, c, rest, cfg);
  }

  /** After a sweep at a later reading dropped the bucket, a call read at 0 again finds a fresh one. */
  lemma ReturnedDiffers(s: Sweeper, bs: Buckets, k: string, cfg: string -> Limit)
    requires cfg(k).rate > 0.0 && k !in s.buckets && s.lastSweep.Some? && s.lastSweep.value >= 0.0
    requires k in bs && bs[k] == Bucket(Capacity(cfg(k)) - 1.0, 0.0)
    ensures DifferAnyhow(s, bs, cfg)
  {
    var l := cfg(k);
    assert !Sweeps(s, 0.0);
    if Capacity(l) >= 2.0 {
      var r, r' := AllowSweeping(s, k, 0.0, l), Allow(bs, k, 0.0, l);
      RicherDiffers(r.state, r'.buckets, k, Capacity(l) - 2.0, Capacity(l) - 1.0, 0.0, cfg);
      var calls :| InTimeOrder(calls, 0.0) && SweepingAnswers(r.state, calls, cfg) != SimpleAnswers(r'.buckets, calls, cfg);
      assert DifferAnyhow(r.state, r'.buckets, cfg);
    }
    DifferAnyhowAfter(s, bs, Call(k, 0.0), cfg);
  }

  /** Two limited keys: take one token of the first, let the second sweep late, and go back. */
  lemma TwoKeysDiffer(a: string, k: string, cfg: string -> Limit)
    requires a != k && cfg(a).rate > 0.0 && cfg(k).rate > 0.0
    ensures DifferAnyhow(Sweeper(map[], None), map[], cfg)
  {
    var s, bs := AllowSweeping(Sweeper(map[], None), k, 0.0, cfg(k)).state, Allow(map[], k, 0.0, cfg(k)).buckets;
    var late := RefillTime(cfg(a)) + 1.0;
    var s', bs' := AllowSweeping(s, a, late, cfg(a)).state, Allow(bs, a, late, cfg(a)).buckets;
    assert s.buckets == map[k := Bucket(Capacity(cfg(k)) - 1.0, 0.0)] && s.lastSweep == Some(0.0);
    assert Sweeps(s, late) && k !in Sweep(s, late, cfg(a)).buckets;
    ReturnedDiffers(s', bs', k, cfg);
    DifferAnyhowAfter(s, bs, Call(a, late), cfg);
    DifferAnyhowAfter(Sweeper(map[], None), map[], Call(k, 0.0), cfg);
  }

  ghost predicate AlwaysTransparent(cfg: string -> Limit) {
    forall calls :: SweepingAnswers(Sweeper(map[], None), calls, cfg) == SimpleAnswers(map[], calls, cfg)
  }

  /** Whatever the clock reads, the sweep is unobservable if and only if at most one key is limited and covers itself. */
  lemma AlwaysTransparentIff(cfg: string -> Limit)
    ensures AlwaysTransparent(cfg) <==> OneKeyCovered(cfg)
  {
    if OneKeyCovered(cfg) {
      forall calls ensures SweepingAnswers(Sweeper(map[], None), calls, cfg) == SimpleAnswers(map[], calls, cfg) {
        if k :| cfg(k).rate > 0.0 {
          OneKeyTransparent(Sweeper(map[], None), k, calls, cfg);
        } else {
          UnlimitedTransparent(Sweeper(map[], None), map[], calls, cfg);
        }
      }
    } else if a, k :| cfg(a).rate > 0.0 && cfg(k).rate > 0.0 && a != k {
      TwoKeysDiffer(a, k, cfg);
    } else {
      var k :| cfg(k).rate > 0.0 && !Covers(cfg(k), cfg(k));
      UncoveredDiffers(k, k, cfg);
    }
  }

  /**
   * Equal limits that cover each other, and a clock that goes back: the sweep at 601 s drops
   * the spent bucket, and the call read at 0.5 s is allowed half a second too early.
   */
  lemma ReturningClockChangesAnswers()
    ensures var cfg := (k: string) => Limit(1.0, 1.0);
            var calls := [Call("k", 0.0), Call("a", 601.0), Call("k", 0.5)];
            && AllCover(cfg)
            && SweepingAnswers(Sweeper(map[], None), calls, cfg) == [true, true, true]
            && SimpleAnswers(map[], calls, cfg) == [true, true, false]
  {
    var l := Limit(1.0, 1.0);
    var cfg := (k: string) => l;
    SameLimitCovers(l);
    var calls := [Call("k", 0.0), Call("a", 601.0), Call("k", 0.5)];
    assert calls[1..] == [calls[1], calls[2]] && calls[1..][1..] == [calls[2]] && [calls[2]][1..] == [];
    var spent := Bucket(0.0, 0.0);
    assert Take(None, 0.0, l) == Taken(spent, true) && Take(None, 601.0, l) == Taken(Bucket(0.0, 601.0), true);
    assert Take(None, 0.5, l).ok && !Take(Some(spent), 0.5, l).ok;
    var s1 := AllowSweeping(Sweeper(map[], None), "k", 0.0, l);
    assert s1 == Swept(Sweeper(map["k" := spent], Some(0.0)), true) && RefillTime(l) == 600.0;
    var s2 := AllowSweeping(s1.state, "a", 601.0, l);
    assert s2.ok && "k" !in s2.state.buckets && s2.state.lastSweep == Some(601.0);
    var s3 := AllowSweeping(s2.state, "k", 0.5, l);
    assert s3.ok;
    assert SweepingAnswers(s2.state, [calls[2]], cfg) == [true] + SweepingAnswers(s3.state, [], cfg);
    assert SweepingAnswers(s1.state, calls[1..], cfg) == [true] + SweepingAnswers(s2.state, [calls[2]], cfg);
    var b1, b2 := Allow(map[], "k", 0.0, l).buckets, Allow(Allow(map[], "k", 0.0, l).buckets, "a", 601.0, l);
    assert b2.ok && b2.buckets["k"] == spent;
    var b3 := Allow(b2.buckets, "k", 0.5, l);
    assert !b3.ok;
    assert SimpleAnswers(b2.buckets, [calls[2]], cfg) == [false] + SimpleAnswers(b3.buckets, [], cfg);
    assert SimpleAnswers(b1, calls[1..], cfg) == [true] + SimpleAnswers(b2.buckets, [calls[2]], cfg);
  }

  /**
   * The limiter of the source mixes rates, and there the sweep does change answers: a
   * host frame (200 a second, burst 400) at 601 s drops the exhausted bucket of a
   * one-an-hour limit, and the next call on it is allowed 2999 s too early.
   */
  lemma MixedRatesChangeAnswers()
    ensures var cfg := (k: string) => if k == "pairings:a" then PerHour(1) else Limit(200.0, 400.0);
            var calls := [Call("pairings:a", 0.0), Call("hostframes:h", 601.0), Call("pairings:a", 601.0)];
            && SweepingAnswers(Sweeper(map[], None), calls, cfg) == [true, true, true]
            && SimpleAnswers(map[], calls, cfg) == [true, true, false]
  {
    var cfg := (k: string) => if k == "pairings:a" then PerHour(1) else Limit(200.0, 400.0);
    var calls := [Call("pairings:a", 0.0), Call("hostframes:h", 601.0), Call("pairings:a", 601.0)];
    var hour, frames := PerHour(1), Limit(200.0, 400.0);
    assert hour == Limit(1.0 / 3600.0, 1.0);
    var spent := Bucket(0.0, 0.0);
    assert Take(None, 0.0, hour) == Taken(spent, true);
    assert Take(None, 601.0, frames) == Taken(Bucket(399.0, 601.0), true);
    assert Take(None, 601.0, hour).ok && !Take(Some(spent), 601.0, hour).ok;
    assert RefillTime(frames) == 600.0;
    var bs := map["pairings:a" := spent];
    assert Kept(bs, 601.0, 600.0) == map[];
    assert calls[1..] == [calls[1], calls[2]] && calls[1..][1..] == [calls[2]] && [calls[2]][1..] == [];
    SimpleRun(bs, cfg, calls[1], calls[2]);
    var s1 := AllowSweeping(Sweeper(map[], None), "pairings:a", 0.0, hour);
    assert s1 == Swept(Sweeper(bs, Some(0.0)), true);
    var s2 := AllowSweeping(s1.state, "hostframes:h", 601.0, frames);
    assert s2.ok && "pairings:a" !in s2.state.buckets && s2.state.lastSweep == Some(601.0);
    var s3 := AllowSweeping(s2.state, "pairings:a", 601.0, hour);
    assert s3.ok;
    assert SweepingAnswers(s2.state, [calls[2]], cfg) == [true] + SweepingAnswers(s3.state, [], cfg);
    assert SweepingAnswers(s1.state, calls[1..], cfg) == [true] + SweepingAnswers(s2.state, [calls[2]], cfg);
  }

  lemma SimpleRun(bs: Buckets, cfg: string -> Limit, c1: Call, c2: Call)
    requires bs == map["pairings:a" := Bucket(0.0, 0.0)] && c1 == Call("hostframes:h", 601.0) && c2 == Call("pairings:a", 601.0)
    requires cfg("pairings:a") == Limit(1.0 / 3600.0, 1.0) && cfg("hostframes:h") == Limit(200.0, 400.0)
    ensures SimpleAnswers(bs, [c1, c2], cfg) == [true, false]
  {
    assert [c1, c2][1..] == [c2] && [c2][1..] == [];
    var r1 := Allow(bs, c1.key, c1.now, cfg(c1.key));
    assert r1.ok && r1.buckets["pairings:a"] == Bucket(0.0, 0.0);
    var r2 := Allow(r1.buckets, c2.key, c2.now, cfg(c2.key));
    assert !r2.ok;
    assert SimpleAnswers(r1.buckets, [c2], cfg) == [false] + SimpleAnswers(r2.buckets, [], cfg);
  }
}
