/** The per-client token bucket of internal/server/ratelimit.go.

    Time is in nanoseconds. A bucket's tokens are held as credit, tokens times the
    nanoseconds one token takes to refill, so that refill and capacity are whole numbers
    and the arithmetic is exact. */
module RateLimiting {
  import opened Arithmetic
  import opened Common

  datatype Bucket = Bucket(credit: int, last: int)

  /** burst tokens of perRequest nanoseconds each. */
  datatype Config = Config(burst: nat, perRequest: int)

  ghost predicate ValidConfig(c: Config) {
    1 <= c.burst && 0 < c.perRequest
  }

  function Capacity(c: Config): int {
    c.burst * c.perRequest
  }

  const SECOND: int := 1_000_000_000
  const MINUTE: int := 60_000_000_000

  /** time.Duration(capacity/refill) * time.Second: the time to fill up, cut to whole seconds. */
  function IdleFullAfter(c: Config): int {
    Capacity(c) / 1_000_000_000 * 1_000_000_000
  }

  function Refilled(c: Config, b: Bucket, now: int): Bucket {
    if now > b.last then Bucket(Min(Capacity(c), b.credit + (now - b.last)), now) else b
  }

  /** One request against a table that keeps every bucket. */
  function Serve(c: Config, buckets: map<string, Bucket>, key: string, now: int): (bool, map<string, Bucket>) {
    if key !in buckets then
      (true, buckets[key := Bucket(Capacity(c) - c.perRequest, now)])
    else
      var b := Refilled(c, buckets[key], now);
      if b.credit < c.perRequest then (false, buckets[key := b])
      else (true, buckets[key := b.(credit := b.credit - c.perRequest)])
  }

  datatype Limiter = Limiter(buckets: map<string, Bucket>, lastSweep: int)

  function Sweep(c: Config, s: Limiter, now: int): Limiter {
    if now - s.lastSweep < 60_000_000_000 then s else
      Limiter(map k | k in s.buckets && now - s.buckets[k].last <= IdleFullAfter(c) :: s.buckets[k], now)
  }

  function AllowStep(c: Config, s: Limiter, key: string, now: int): (bool, Limiter) {
    var swept := Sweep(c, s, now);
    var (ok, buckets) := Serve(c, swept.buckets, key, now);
    (ok, swept.(buckets := buckets))
  }

  // ---- the object ----

  class RateLimiter {
    const config: Config
    var buckets: map<string, Bucket>
    var lastSweep: int

    /** newRateLimiter with its two corrections of unusable arguments. */
    constructor (burst: int, perRequest: int, now: int)
      ensures ValidConfig(config)
      ensures config == Config(if burst < 1 then 1 else burst, if perRequest <= 0 then SECOND else perRequest)
      ensures State() == Limiter(map[], now)
    {
      config := Config(if burst < 1 then 1 else burst, if perRequest <= 0 then SECOND else perRequest);
      buckets, lastSweep := map[], now;
    }

    function State(): Limiter
      reads this
    {
      Limiter(buckets, lastSweep)
    }

    /** Drops the buckets idle for longer than IdleFullAfter, at most once a minute. */
    method SweepLocked(now: int)
      modifies this
      ensures State() == Sweep(config, old(State()), now)
    {
      if now - lastSweep < MINUTE { return; }
      lastSweep := now;
      var idleFullAfter := IdleFullAfter(config);
      var todo := buckets.Keys;
      while todo != {}
        invariant lastSweep == now
        invariant todo <= old(buckets).Keys
        invariant forall k :: k in buckets <==>
                    k in old(buckets) && (k in todo || now - old(buckets)[k].last <= idleFullAfter)
        invariant forall k :: k in buckets ==> buckets[k] == old(buckets)[k]
        decreases todo
      {
        var key :| key in todo;
        if now - buckets[key].last > idleFullAfter {
          buckets := buckets - {key};
        }
        todo := todo - {key};
      }
    }

    method Allow(key: string, now: int) returns (ok: bool)
      modifies this
      ensures (ok, State()) == AllowStep(config, old(State()), key, now)
    {
      SweepLocked(now);
      if key !in buckets {
        buckets := buckets[key := Bucket(Capacity(config) - config.perRequest, now)];
        return true;
      }
      var b := buckets[key];
      var elapsed := now - b.last;
      if elapsed > 0 {
        b := Bucket(Min(Capacity(config), b.credit + elapsed), now);
      }
      buckets := buckets[key := b];
      if b.credit < config.perRequest { return false; }
      buckets := buckets[key := b.(credit := b.credit - config.perRequest)];
      assert buckets == Sweep(config, old(State()), now).buckets[key := b.(credit := b.credit - config.perRequest)];
      return true;
    }
  }

  // ---- runs ----

  datatype Request = Request(key: string, now: int)

  ghost predicate Chronological(start: int, reqs: seq<Request>) {
    && (|reqs| > 0 ==> start <= reqs[0].now)
    && forall i, j :: 0 <= i < j < |reqs| ==> reqs[i].now <= reqs[j].now
  }

  /** The answers of the limiter as it is, and the state it ends in. */
  ghost function SweptRun(c: Config, s: Limiter, reqs: seq<Request>): (seq<bool>, Limiter) {
    if |reqs| == 0 then ([], s) else
      var n := |reqs| - 1;
      var (answers, before) := SweptRun(c, s, reqs[..n]);
      var (ok, after) := AllowStep(c, before, reqs[n].key, reqs[n].now);
      (answers + [ok], after)
  }

  /** The same for a limiter that never drops a bucket. */
  ghost function FullRun(c: Config, buckets: map<string, Bucket>, reqs: seq<Request>): (seq<bool>, map<string, Bucket>) {
    if |reqs| == 0 then ([], buckets) else
      var n := |reqs| - 1;
      var (answers, before) := FullRun(c, buckets, reqs[..n]);
      var (ok, after) := Serve(c, before, reqs[n].key, reqs[n].now);
      (answers + [ok], after)
  }

  ghost predicate Sane(c: Config, buckets: map<string, Bucket>, now: int) {
    forall k :: k in buckets ==> 0 <= buckets[k].credit <= Capacity(c) && buckets[k].last <= now
  }

  /** The swept table lacks only buckets that are full again. */
  ghost predicate Matches(c: Config, swept: map<string, Bucket>, full: map<string, Bucket>, now: int) {
    && Sane(c, full, now)
    && (forall k :: k in swept ==> k in full && swept[k] == full[k])
    && (forall k :: k in full && k !in swept ==> Capacity(c) <= full[k].credit + (now - full[k].last))
  }

  /** Up to a nanosecond, the bucket fills in whole seconds. */
  predicate FillsInWholeSeconds(c: Config) {
    Capacity(c) % 1_000_000_000 <= 1
  }

  // ---- what the sweep keeps small ----

  /** The table holds only buckets used within the idle time before the last sweep, or later. */
  ghost predicate Recent(c: Config, s: Limiter) {
    forall k :: k in s.buckets ==> s.lastSweep - IdleFullAfter(c) <= s.buckets[k].last
  }

  /** However many keys come by: when a request has been served, every bucket in the table has
      been used within the idle time and a minute before it, and between two sweeps there is
      at least a minute. */
  lemma {:induction false} TableIsRecent(c: Config, start: int, reqs: seq<Request>)
    requires ValidConfig(c) && Chronological(start, reqs)
    ensures var s := SweptRun(c, Limiter(map[], start), reqs).1;
            && Recent(c, s) && s.lastSweep <= (if |reqs| == 0 then start else reqs[|reqs|-1].now)
            && (|reqs| > 0 ==>
                  var now := reqs[|reqs|-1].now;
                  && now - s.lastSweep < 60 * 1_000_000_000
                  && (forall k :: k in s.buckets ==> now - s.buckets[k].last < Capacity(c) + 60 * 1_000_000_000)
                  && var before := SweptRun(c, Limiter(map[], start), reqs[..|reqs|-1]).1;
                     s.lastSweep == before.lastSweep || 60 * 1_000_000_000 <= s.lastSweep - before.lastSweep)
  {
    if |reqs| > 0 {
      var n := |reqs| - 1;
      TableIsRecent(c, start, reqs[..n]);
      StepIsRecent(c, SweptRun(c, Limiter(map[], start), reqs[..n]).1, reqs[n].key, reqs[n].now);
    }
  }

  lemma StepIsRecent(c: Config, s: Limiter, key: string, now: int)
    requires ValidConfig(c) && Recent(c, s) && s.lastSweep <= now
    ensures var after := AllowStep(c, s, key, now).1;
            && Recent(c, after) && after.lastSweep <= now && now - after.lastSweep < 60 * 1_000_000_000
            && (forall k :: k in after.buckets ==> now - after.buckets[k].last < Capacity(c) + 60 * 1_000_000_000)
            && (after.lastSweep == s.lastSweep || 60 * 1_000_000_000 <= after.lastSweep - s.lastSweep)
  {
    assert 0 <= IdleFullAfter(c) <= Capacity(c) by { AtLeastOneToken(c); }
    hide Capacity, IdleFullAfter;
  }

  lemma SweepMatches(c: Config, s: Limiter, full: map<string, Bucket>, then': int, now: int)
    requires ValidConfig(c) && FillsInWholeSeconds(c) && then' <= now
    requires Matches(c, s.buckets, full, then')
    ensures Matches(c, Sweep(c, s, now).buckets, full, now)
  {
    assert Capacity(c) <= IdleFullAfter(c) + 1;
  }

  lemma ServeMatches(c: Config, swept: map<string, Bucket>, full: map<string, Bucket>, key: string, now: int)
    requires ValidConfig(c) && Matches(c, swept, full, now)
    ensures Serve(c, swept, key, now).0 == Serve(c, full, key, now).0
    ensures Matches(c, Serve(c, swept, key, now).1, Serve(c, full, key, now).1, now)
  {
    assert Capacity(c) >= c.perRequest by { AtLeastOneToken(c); }
    hide Capacity;
  }

  lemma AtLeastOneToken(c: Config)
    requires ValidConfig(c)
    ensures Capacity(c) >= c.perRequest
  {
    MulMonotone(1, c.burst, c.perRequest);
  }

  lemma {:induction false} RunsMatch(c: Config, start: int, reqs: seq<Request>)
    requires ValidConfig(c) && FillsInWholeSeconds(c) && Chronological(start, reqs)
    ensures var (swept, s), (full, m) := SweptRun(c, Limiter(map[], start), reqs), FullRun(c, map[], reqs);
            && swept == full
            && Matches(c, s.buckets, m, if |reqs| == 0 then start else reqs[|reqs|-1].now)
  {
    if |reqs| == 0 {
    } else {
      var n := |reqs| - 1;
      var then', now := if n == 0 then start else reqs[n-1].now, reqs[n].now;
      RunsMatch(c, start, reqs[..n]);
      var s, m := SweptRun(c, Limiter(map[], start), reqs[..n]).1, FullRun(c, map[], reqs[..n]).1;
      SweepMatches(c, s, m, then', now);
      ServeMatches(c, Sweep(c, s, now).buckets, m, reqs[n].key, now);
    }
  }

  // ---- when the sweep shows ----

  /** n requests of one key at one instant. */
  function Burst(n: nat, key: string, now: int): seq<Request> {
    seq(n, i => Request(key, now))
  }

  ghost predicate AllTrue(answers: seq<bool>) {
    forall i :: 0 <= i < |answers| ==> answers[i]
  }

  lemma TokensLeft(c: Config, n: nat)
    requires ValidConfig(c) && n < c.burst
    ensures 0 <= n * c.perRequest && n * c.perRequest + c.perRequest <= Capacity(c)
    ensures (n + 1) * c.perRequest == n * c.perRequest + c.perRequest
  {
    MulMonotone(0, n, c.perRequest);
    MulSuccessor(n, c.perRequest);
    MulMonotone(n + 1, c.burst, c.perRequest);
  }

  /** The table after n requests of a key at one instant. */
  ghost function Drained(c: Config, key: string, at: int, n: nat): map<string, Bucket> {
    if n == 0 then map[] else map[key := Bucket(Capacity(c) - n * c.perRequest, at)]
  }

  lemma DrainOne(c: Config, start: int, key: string, at: int, n: nat)
    requires ValidConfig(c) && n < c.burst && at - start < 60_000_000_000
    ensures var m := Drained(c, key, at, n);
            && Serve(c, m, key, at) == (true, Drained(c, key, at, n + 1))
            && AllowStep(c, Limiter(m, start), key, at) == (true, Limiter(Drained(c, key, at, n + 1), start))
  {
    TokensLeft(c, n);
    var b, after := Bucket(Capacity(c) - n * c.perRequest, at), Bucket(Capacity(c) - (n + 1) * c.perRequest, at);
    assert map[key := b][key := after] == map[key := after];
    hide Capacity, IdleFullAfter;
  }

  /** From an empty table, `burst` requests at one instant empty the bucket, swept or not,
      as long as no sweep is due. */
  lemma {:induction false} DrainedAtOnce(c: Config, start: int, key: string, at: int, n: nat)
    requires ValidConfig(c) && n <= c.burst && at - start < 60_000_000_000
    ensures var reqs, m := Burst(n, key, at), Drained(c, key, at, n);
            && SweptRun(c, Limiter(map[], start), reqs).1 == Limiter(m, start) && FullRun(c, map[], reqs).1 == m
            && AllTrue(SweptRun(c, Limiter(map[], start), reqs).0)
  {
    if n == 0 {
    } else {
      var r := Burst(n - 1, key, at);
      assert Burst(n, key, at) == r + [Request(key, at)];
      hide SweptRun, FullRun, AllowStep, Serve, Drained, Burst, Capacity;
      DrainedAtOnce(c, start, key, at, n - 1);
      RunsSnoc(c, start, r, key, at);
      DrainOne(c, start, key, at, n - 1);
    }
  }

  /** Idle for longer than IdleFullAfter but not long enough to be full. */
  function ShortOfFull(c: Config): int {
    IdleFullAfter(c) + 1
  }

  /** The requests that tell the two limiters apart: empty the bucket, wait until it is
      swept though not full, and ask for a whole burst again. */
  function Revealing(c: Config, start: int): seq<Request>
    requires ValidConfig(c)
  {
    var at := start + Max(0, 60_000_000_000 - ShortOfFull(c));
    Burst(c.burst, "k", at) + Burst(c.burst, "k", at + ShortOfFull(c))
  }

  /** One request of the second burst after `spent` credit went to earlier ones, at the
      limiter as it is. */
  lemma SweptStep(c: Config, start: int, at: int, spent: int, first: bool)
    requires ValidConfig(c) && 0 <= spent && spent + c.perRequest <= Capacity(c) && (first ==> spent == 0)
    requires at == start + Max(0, 60_000_000_000 - ShortOfFull(c))
    ensures var now := at + ShortOfFull(c);
            var s := if first then Limiter(map["k" := Bucket(0, at)], start)
                     else Limiter(map["k" := Bucket(Capacity(c) - spent, now)], now);
            AllowStep(c, s, "k", now) == (true, Limiter(map["k" := Bucket(Capacity(c) - spent - c.perRequest, now)], now))
  {
    var now, after := at + ShortOfFull(c), Bucket(Capacity(c) - spent - c.perRequest, at + ShortOfFull(c));
    hide Capacity;
    if first {
      var s := Limiter(map["k" := Bucket(0, at)], start);
      assert Sweep(c, s, now).buckets == map[];
      assert map[]["k" := after] == map["k" := after];
    } else {
      var s := Limiter(map["k" := Bucket(Capacity(c) - spent, now)], now);
      assert Sweep(c, s, now) == s;
      assert s.buckets["k" := after] == map["k" := after];
    }
  }

  /** The same at a limiter that never sweeps. */
  lemma FullStep(c: Config, at: int, spent: int, first: bool)
    requires ValidConfig(c) && 0 <= spent && (first ==> spent == 0)
    requires 1 <= ShortOfFull(c) <= Capacity(c)
    ensures var now := at + ShortOfFull(c);
            var m := map["k" := if first then Bucket(0, at) else Bucket(ShortOfFull(c) - spent, now)];
            var (ok, after) := Serve(c, m, "k", now);
            ok ==> spent + c.perRequest <= ShortOfFull(c)
                   && after == map["k" := Bucket(ShortOfFull(c) - spent - c.perRequest, now)]
  {
    hide Capacity, ShortOfFull;
  }

  /** The first n requests at the second instant: the swept limiter admits them all from a
      new bucket; as long as the other one does too, it spends what has refilled. */
  ghost predicate SecondBurstState(c: Config, start: int, at: int, n: nat)
    requires ValidConfig(c)
  {
    var now := at + ShortOfFull(c);
    var reqs := Burst(c.burst, "k", at) + Burst(n, "k", now);
    var (swept, s), (full, m) := SweptRun(c, Limiter(map[], start), reqs), FullRun(c, map[], reqs);
    && |swept| == |full| == |reqs| && AllTrue(swept)
    && s == (if n == 0 then Limiter(map["k" := Bucket(0, at)], start)
             else Limiter(map["k" := Bucket(Capacity(c) - n * c.perRequest, now)], now))
    && (swept == full ==>
          && m == map["k" := if n == 0 then Bucket(0, at) else Bucket(ShortOfFull(c) - n * c.perRequest, now)]
          && (n > 0 ==> n * c.perRequest <= ShortOfFull(c)))
  }

  lemma SecondBurstStart(c: Config, start: int, at: int)
    requires ValidConfig(c) && at == start + Max(0, 60_000_000_000 - ShortOfFull(c)) && 1 <= ShortOfFull(c)
    ensures SecondBurstState(c, start, at, 0)
  {
    var reqs := Burst(c.burst, "k", at);
    assert reqs + Burst(0, "k", at + ShortOfFull(c)) == reqs;
    DrainedAtOnce(c, start, "k", at, c.burst);
    SameLength(c, start, reqs);
    hide SweptRun, FullRun;
  }

  lemma SecondBurstNext(c: Config, start: int, at: int, n: nat)
    requires ValidConfig(c) && n < c.burst && SecondBurstState(c, start, at, n)
    requires at == start + Max(0, 60_000_000_000 - ShortOfFull(c)) && 1 <= ShortOfFull(c) <= Capacity(c)
    ensures SecondBurstState(c, start, at, n + 1)
  {
    hide Capacity, AllowStep, ShortOfFull, SweptRun, FullRun, Burst, Serve, Max;
    var now, spent := at + ShortOfFull(c), n * c.perRequest;
    var r := Burst(c.burst, "k", at) + Burst(n, "k", now);
    BurstSnoc(c.burst, n, at, now);
    RunsSnoc(c, start, r, "k", now);
    TokensLeft(c, n);
    SweptStep(c, start, at, spent, n == 0);
    FullStep(c, at, spent, n == 0);
    var swept, full := SweptRun(c, Limiter(map[], start), r), FullRun(c, map[], r);
    SnocInjective(swept.0, full.0, true, Serve(c, full.1, "k", now).0);
  }

  lemma BurstSnoc(k: nat, n: nat, at: int, now: int)
    ensures Burst(k, "k", at) + Burst(n + 1, "k", now) == Burst(k, "k", at) + Burst(n, "k", now) + [Request("k", now)]
  {}

  lemma SnocInjective(a: seq<bool>, b: seq<bool>, x: bool, y: bool)
    requires |a| == |b|
    ensures a + [x] == b + [y] ==> a == b && x == y
  {
    if a + [x] == b + [y] {
      assert a == (a + [x])[..|a|] && b == (b + [y])[..|b|];
      assert x == (a + [x])[|a|];
    }
  }

  lemma RunsSnoc(c: Config, start: int, r: seq<Request>, key: string, now: int)
    ensures var (swept, s), (full, m) := SweptRun(c, Limiter(map[], start), r), FullRun(c, map[], r);
            && SweptRun(c, Limiter(map[], start), r + [Request(key, now)])
               == (swept + [AllowStep(c, s, key, now).0], AllowStep(c, s, key, now).1)
            && FullRun(c, map[], r + [Request(key, now)])
               == (full + [Serve(c, m, key, now).0], Serve(c, m, key, now).1)
  {
    assert (r + [Request(key, now)])[..|r|] == r;
  }

  lemma {:induction false} SecondBurst(c: Config, start: int, at: int, n: nat)
    requires ValidConfig(c) && n <= c.burst
    requires at == start + Max(0, 60_000_000_000 - ShortOfFull(c)) && 1 <= ShortOfFull(c) <= Capacity(c)
    ensures SecondBurstState(c, start, at, n)
  {
    if n == 0 {
      SecondBurstStart(c, start, at);
    } else {
      SecondBurst(c, start, at, n - 1);
      SecondBurstNext(c, start, at, n - 1);
    }
  }

  lemma {:induction false} SameLength(c: Config, start: int, reqs: seq<Request>)
    ensures |SweptRun(c, Limiter(map[], start), reqs).0| == |FullRun(c, map[], reqs).0| == |reqs|
  {
    if |reqs| == 0 {
    } else {
      SameLength(c, start, reqs[..|reqs|-1]);
    }
  }

  ghost predicate SweepIsInvisible(c: Config) {
    forall start: int, reqs: seq<Request> :: Chronological(start, reqs) ==>
      SweptRun(c, Limiter(map[], start), reqs).0 == FullRun(c, map[], reqs).0
  }

  lemma RevealingReveals(c: Config, start: int)
    requires ValidConfig(c) && !FillsInWholeSeconds(c)
    ensures Chronological(start, Revealing(c, start))
    ensures SweptRun(c, Limiter(map[], start), Revealing(c, start)).0 != FullRun(c, map[], Revealing(c, start)).0
  {
    var at := start + Max(0, 60_000_000_000 - ShortOfFull(c));
    AtLeastOneToken(c);
    SecondBurst(c, start, at, c.burst);
  }

  /** The limiter answers every sequence of requests like one that never drops a bucket
      exactly when its buckets fill in a whole number of seconds (give or take the last
      nanosecond): only then is an idle bucket full when it is dropped. */
  lemma InvisibleIff(c: Config)
    requires ValidConfig(c)
    ensures SweepIsInvisible(c) <==> FillsInWholeSeconds(c)
  {
    if FillsInWholeSeconds(c) {
      forall start: int, reqs: seq<Request> | Chronological(start, reqs)
        ensures SweptRun(c, Limiter(map[], start), reqs).0 == FullRun(c, map[], reqs).0
      {
        RunsMatch(c, start, reqs);
      }
    } else {
      RevealingReveals(c, 0);
    }
  }

  /** The three limiters of the server, for analyses, logs and logins, are of that kind. */
  lemma ConfiguredLimiters()
    ensures SweepIsInvisible(Config(5, 60_000_000_000))
    ensures SweepIsInvisible(Config(30, 2_000_000_000))
    ensures SweepIsInvisible(Config(5, 12_000_000_000))
  {
    hide SweepIsInvisible;
    InvisibleIff(Config(5, 60_000_000_000));
    InvisibleIff(Config(30, 2_000_000_000));
    InvisibleIff(Config(5, 12_000_000_000));
  }

  // ---- the admission bound ----

  /** Credit of a key at an instant; a key never seen could spend a full bucket. */
  ghost function Available(c: Config, buckets: map<string, Bucket>, key: string, now: int): int {
    if key in buckets then Min(Capacity(c), buckets[key].credit + (now - buckets[key].last)) else Capacity(c)
  }

  lemma {:induction false} FullRunSane(c: Config, start: int, reqs: seq<Request>)
    requires ValidConfig(c) && Chronological(start, reqs)
    ensures |FullRun(c, map[], reqs).0| == |reqs|
    ensures Sane(c, FullRun(c, map[], reqs).1, if |reqs| == 0 then start else reqs[|reqs|-1].now)
  {
    if |reqs| == 0 {
    } else {
      FullRunSane(c, start, reqs[..|reqs|-1]);
      AtLeastOneToken(c);
      hide Capacity;
    }
  }

  /** Serving one request: what was available pays for what is admitted. */
  lemma ServePays(c: Config, buckets: map<string, Bucket>, key: string, r: Request, then': int)
    requires ValidConfig(c) && Sane(c, buckets, then') && then' <= r.now
    ensures var (ok, after) := Serve(c, buckets, r.key, r.now);
            Available(c, after, key, r.now) + (if r.key == key && ok then c.perRequest else 0)
            <= Available(c, buckets, key, then') + (r.now - then')
    ensures 0 <= Available(c, buckets, key, then') <= Capacity(c)
  {
    AtLeastOneToken(c);
    hide Capacity;
  }

  /** Admissions of one key from request i on. */
  ghost function Admitted(reqs: seq<Request>, answers: seq<bool>, key: string, i: nat): nat
    requires |answers| == |reqs|
  {
    if |reqs| <= i then 0 else
      var n := |reqs| - 1;
      Admitted(reqs[..n], answers[..n], key, i) + if reqs[n].key == key && answers[n] then 1 else 0
  }

  lemma FullRunSnoc(c: Config, reqs: seq<Request>)
    requires |reqs| > 0
    ensures var n := |reqs| - 1;
            var (answers, m) := FullRun(c, map[], reqs[..n]);
            var (ok, after) := Serve(c, m, reqs[n].key, reqs[n].now);
            FullRun(c, map[], reqs) == (answers + [ok], after)
  {}

  lemma AdmittedSnoc(reqs: seq<Request>, answers: seq<bool>, ok: bool, key: string, i: nat)
    requires |reqs| == |answers| + 1 && i < |reqs|
    ensures Admitted(reqs, answers + [ok], key, i) ==
            Admitted(reqs[..|answers|], answers, key, i) + if reqs[|answers|].key == key && ok then 1 else 0
  {
    assert (answers + [ok])[..|answers|] == answers;
  }

  lemma SaneLater(c: Config, buckets: map<string, Bucket>, then': int, now: int)
    requires Sane(c, buckets, then') && then' <= now
    ensures Sane(c, buckets, now)
  {}

  lemma {:induction false} WindowPaid(c: Config, start: int, reqs: seq<Request>, key: string, i: nat)
    requires ValidConfig(c) && Chronological(start, reqs) && i < |reqs|
    ensures var (answers, m) := FullRun(c, map[], reqs);
            var last := reqs[|reqs|-1].now;
            && |answers| == |reqs|
            && Admitted(reqs, answers, key, i) * c.perRequest + Available(c, m, key, last)
               <= Capacity(c) + (last - reqs[i].now)
  {
    hide Capacity, Available, Serve, FullRun, Sane, ValidConfig;
    var n := |reqs| - 1;
    var run := FullRun(c, map[], reqs[..n]);
    FullRunSane(c, start, reqs[..n]);
    FullRunSane(c, start, reqs);
    FullRunSnoc(c, reqs);
    AdmittedSnoc(reqs, run.0, Serve(c, run.1, reqs[n].key, reqs[n].now).0, key, i);
    var admitted := Admitted(reqs[..n], run.0, key, i);
    MulSuccessor(admitted, c.perRequest);
    if i < n {
      WindowPaid(c, start, reqs[..n], key, i);
      ServePays(c, run.1, key, reqs[n], reqs[n-1].now);
    } else {
      SaneLater(c, run.1, if n == 0 then start else reqs[n-1].now, reqs[n].now);
      ServePays(c, run.1, key, reqs[n], reqs[n].now);
    }
  }

  lemma WholeTokens(c: Config, admitted: nat, elapsed: int)
    requires ValidConfig(c) && admitted * c.perRequest <= Capacity(c) + elapsed
    ensures admitted <= c.burst + elapsed / c.perRequest
  {
    assert (admitted - c.burst) * c.perRequest == admitted * c.perRequest - c.burst * c.perRequest;
    Quotient(admitted - c.burst, c.perRequest, elapsed);
  }

  /** The admission bound for one key in the window from request i on. */
  ghost predicate Bounded(c: Config, start: int, reqs: seq<Request>, key: string, i: nat)
    requires ValidConfig(c) && i < |reqs|
  {
    var answers := SweptRun(c, Limiter(map[], start), reqs).0;
    && |answers| == |reqs|
    && Admitted(reqs, answers, key, i) <= c.burst + (reqs[|reqs|-1].now - reqs[i].now) / c.perRequest
  }

  /** In any window of length T one key is admitted at most burst + T / perRequest times,
      whatever the other keys do and however often the limiter sweeps. */
  lemma AdmissionBound(c: Config, start: int, reqs: seq<Request>, key: string, i: nat)
    requires ValidConfig(c) && FillsInWholeSeconds(c) && Chronological(start, reqs) && i < |reqs|
    ensures Bounded(c, start, reqs, key, i)
  {
    RunsMatch(c, start, reqs);
    WindowPaid(c, start, reqs, key, i);
    var (answers, m) := FullRun(c, map[], reqs);
    FullRunSane(c, start, reqs);
    var last := reqs[|reqs|-1].now;
    ServePays(c, m, key, Request(key, last), last);
    WholeTokens(c, Admitted(reqs, answers, key, i), last - reqs[i].now);
  }

  /** The admission bound over every run of a configuration. */
  ghost predicate KeepsBound(c: Config)
    requires ValidConfig(c)
  {
    forall start: int, reqs: seq<Request>, key: string, i: nat | Chronological(start, reqs) && i < |reqs| ::
      Bounded(c, start, reqs, key, i)
  }

  lemma {:induction false} AllAdmitted(reqs: seq<Request>, answers: seq<bool>, key: string)
    requires |reqs| == |answers| && AllTrue(answers) && forall i :: 0 <= i < |reqs| ==> reqs[i].key == key
    ensures Admitted(reqs, answers, key, 0) == |reqs|
  {
    if |reqs| == 0 {
    } else {
      AllAdmitted(reqs[..|reqs|-1], answers[..|reqs|-1], key);
    }
  }

  lemma FewerTokens(c: Config, elapsed: int)
    requires ValidConfig(c) && 0 <= elapsed < Capacity(c)
    ensures elapsed / c.perRequest < c.burst
  {
    var q := elapsed / c.perRequest;
    assert q * c.perRequest <= elapsed;
    Cancel(q, c.burst, c.perRequest);
  }

  /** A bucket that does not fill in whole seconds is dropped early and comes back full: two
      whole bursts fit into less than the time that refills one. */
  lemma RevealingExceeds(c: Config, start: int)
    requires ValidConfig(c) && !FillsInWholeSeconds(c)
    ensures Chronological(start, Revealing(c, start)) && |Revealing(c, start)| > 0
    ensures !Bounded(c, start, Revealing(c, start), "k", 0)
  {
    var at := start + Max(0, 60_000_000_000 - ShortOfFull(c));
    AtLeastOneToken(c);
    SecondBurst(c, start, at, c.burst);
    AllAdmitted(Revealing(c, start), SweptRun(c, Limiter(map[], start), Revealing(c, start)).0, "k");
    FewerTokens(c, ShortOfFull(c));
  }

  /** The bound holds of every run exactly when the sweep cannot be seen. */
  lemma AdmissionBoundIff(c: Config)
    requires ValidConfig(c)
    ensures KeepsBound(c) <==> FillsInWholeSeconds(c)
  {
    if FillsInWholeSeconds(c) {
      forall start: int, reqs: seq<Request>, key: string, i: nat | Chronological(start, reqs) && i < |reqs|
        ensures Bounded(c, start, reqs, key, i)
      {
        AdmissionBound(c, start, reqs, key, i);
      }
    } else {
      RevealingExceeds(c, 0);
      hide Bounded, Revealing, Chronological;
    }
  }

  // ---- no request is refused without need ----

  /** The bucket's credit is what is left of a full one at request j after the admissions
      since, with everything that has refilled since. */
  ghost predicate FullAt(c: Config, reqs: seq<Request>, answers: seq<bool>, key: string, b: Bucket, j: nat)
    requires |answers| == |reqs|
  {
    && j < |reqs| && reqs[j].key == key && reqs[j].now <= b.last <= reqs[|reqs|-1].now
    && b.credit == Capacity(c) - Admitted(reqs, answers, key, j) * c.perRequest + (b.last - reqs[j].now)
  }

  /** A bucket has been filling and paying since some request at which it was full. */
  lemma {:induction false} FullOnce(c: Config, start: int, reqs: seq<Request>, key: string) returns (j: nat)
    requires ValidConfig(c) && Chronological(start, reqs) && key in FullRun(c, map[], reqs).1
    ensures var (answers, m) := FullRun(c, map[], reqs);
            |answers| == |reqs| && FullAt(c, reqs, answers, key, m[key], j)
    decreases |reqs|
  {
    var n := |reqs| - 1;
    FullRunSane(c, start, reqs);
    FullRunSane(c, start, reqs[..n]);
    FullRunSnoc(c, reqs);
    var (answers, m) := FullRun(c, map[], reqs[..n]);
    var (ok, after) := Serve(c, m, reqs[n].key, reqs[n].now);
    hide FullRun, Chronological;
    if reqs[n].key == key && (key !in m || Refilled(c, m[key], reqs[n].now).credit == Capacity(c)) {
      j := n;
      AtLeastOneToken(c);
      AdmittedSnoc(reqs, answers, ok, key, n);
      hide Capacity;
    } else {
      j := FullOnce(c, start, reqs[..n], key);
      AdmittedSnoc(reqs, answers, ok, key, j);
      MulSuccessor(Admitted(reqs[..n], answers, key, j), c.perRequest);
      hide Capacity;
    }
  }

  lemma Overdrawn(c: Config, admitted: nat, elapsed: int)
    requires ValidConfig(c) && 0 <= elapsed && Capacity(c) - admitted * c.perRequest + elapsed < c.perRequest
    ensures admitted + 1 > c.burst + elapsed / c.perRequest
  {
    var q := elapsed / c.perRequest;
    assert q * c.perRequest <= elapsed;
    assert (c.burst + q) * c.perRequest == c.burst * c.perRequest + q * c.perRequest;
    MulSuccessor(admitted, c.perRequest);
    Cancel(c.burst + q, admitted + 1, c.perRequest);
  }

  /** Admitting one more request of the key now would break the bound in the window from
      request j on. */
  ghost predicate WouldExceed(c: Config, reqs: seq<Request>, answers: seq<bool>, r: Request, j: nat)
    requires ValidConfig(c) && |answers| == |reqs| && j < |reqs|
  {
    Admitted(reqs, answers, r.key, j) + 1 > c.burst + (r.now - reqs[j].now) / c.perRequest
  }

  lemma RefusalIsNeeded(c: Config, start: int, reqs: seq<Request>, r: Request)
    requires ValidConfig(c) && Chronological(start, reqs + [r])
    requires !Serve(c, FullRun(c, map[], reqs).1, r.key, r.now).0
    ensures |FullRun(c, map[], reqs).0| == |reqs|
    ensures exists j: nat :: j < |reqs| && WouldExceed(c, reqs, FullRun(c, map[], reqs).0, r, j)
  {
    var (answers, m) := FullRun(c, map[], reqs);
    assert (reqs + [r])[..|reqs|] == reqs;
    EarlierChronological(start, reqs, r);
    var j := FullOnce(c, start, reqs, r.key);
    AtLeastOneToken(c);
    hide FullRun, Capacity;
    Overdrawn(c, Admitted(reqs, answers, r.key, j), r.now - reqs[j].now);
    assert WouldExceed(c, reqs, answers, r, j);
  }

  lemma EarlierChronological(start: int, reqs: seq<Request>, r: Request)
    requires Chronological(start, reqs + [r])
    ensures Chronological(start, reqs)
    ensures |reqs| > 0 ==> reqs[|reqs|-1].now <= r.now
  {
    var all := reqs + [r];
    assert forall i :: 0 <= i < |reqs| ==> all[i] == reqs[i];
    assert all[|reqs|] == r;
  }

  /** The next verdict is that of the limiter that never drops a bucket. */
  lemma SameVerdict(c: Config, start: int, reqs: seq<Request>, r: Request)
    requires ValidConfig(c) && FillsInWholeSeconds(c) && Chronological(start, reqs + [r])
    ensures var (answers, s) := SweptRun(c, Limiter(map[], start), reqs);
            var ok := AllowStep(c, s, r.key, r.now).0;
            && |answers| == |reqs| && answers == FullRun(c, map[], reqs).0
            && ok == Serve(c, FullRun(c, map[], reqs).1, r.key, r.now).0
            && SweptRun(c, Limiter(map[], start), reqs + [r]).0 == answers + [ok]
  {
    EarlierChronological(start, reqs, r);
    SameLength(c, start, reqs);
    RunsMatch(c, start, reqs);
    RunsMatch(c, start, reqs + [r]);
    RunsSnoc(c, start, reqs, r.key, r.now);
    var (answers, s) := SweptRun(c, Limiter(map[], start), reqs);
    hide *;
    SnocInjective(answers, answers, AllowStep(c, s, r.key, r.now).0, Serve(c, FullRun(c, map[], reqs).1, r.key, r.now).0);
  }

  lemma AdmittedFits(c: Config, start: int, reqs: seq<Request>, r: Request, j: nat)
    requires ValidConfig(c) && FillsInWholeSeconds(c) && Chronological(start, reqs + [r]) && j < |reqs|
    requires |SweptRun(c, Limiter(map[], start), reqs).0| == |reqs|
    requires SweptRun(c, Limiter(map[], start), reqs + [r]).0 == SweptRun(c, Limiter(map[], start), reqs).0 + [true]
    ensures !WouldExceed(c, reqs, SweptRun(c, Limiter(map[], start), reqs).0, r, j)
  {
    hide SweptRun, Chronological, Admitted, FillsInWholeSeconds;
    var answers, all := SweptRun(c, Limiter(map[], start), reqs).0, reqs + [r];
    assert all[|reqs|] == r && all[j] == reqs[j] && all[..|answers|] == reqs;
    AdmissionBound(c, start, all, r.key, j);
    AdmittedSnoc(all, answers, true, r.key, j);
  }

  /** The limiter refuses a request exactly when admitting it would break the bound in some
      window that ends with it: of all limiters that keep the bound it is the most generous. */
  lemma RefusedIff(c: Config, start: int, reqs: seq<Request>, r: Request)
    requires ValidConfig(c) && FillsInWholeSeconds(c) && Chronological(start, reqs + [r])
    ensures var (answers, s) := SweptRun(c, Limiter(map[], start), reqs);
            && |answers| == |reqs|
            && (!AllowStep(c, s, r.key, r.now).0 <==>
                  exists j: nat :: j < |reqs| && WouldExceed(c, reqs, answers, r, j))
  {
    hide SweptRun, FullRun, AllowStep, Serve, Chronological, WouldExceed;
    SameVerdict(c, start, reqs, r);
    var (answers, s) := SweptRun(c, Limiter(map[], start), reqs);
    if AllowStep(c, s, r.key, r.now).0 {
      forall j: nat | j < |reqs|
        ensures !WouldExceed(c, reqs, answers, r, j)
      {
        AdmittedFits(c, start, reqs, r, j);
      }
    } else {
      RefusalIsNeeded(c, start, reqs, r);
    }
  }
}
