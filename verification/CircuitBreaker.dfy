/** The circuit breaker of internal/ai/circuit_breaker.go, under any interleaving of the
    starts and finishes of its calls. */
module CircuitBreaking {
  import Arithmetic

  datatype State = Closed | Open | HalfOpen

  datatype Verdict = Admitted | CircuitOpen | TooManyRequests

  datatype Config = Config(maxFailures: int, resetTimeout: int, halfOpenMaxCalls: int)

  datatype Breaker = Breaker(state: State, failures: int, lastFailTime: int, halfOpenCalls: int)

  function Before(c: Config, b: Breaker, now: int): (Breaker, Verdict) {
    match b.state
    case Open =>
      if now - b.lastFailTime > c.resetTimeout then (b.(state := HalfOpen, halfOpenCalls := 1), Admitted)
      else (b, CircuitOpen)
    case HalfOpen =>
      if b.halfOpenCalls >= c.halfOpenMaxCalls then (b, TooManyRequests)
      else (b.(halfOpenCalls := b.halfOpenCalls + 1), Admitted)
    case Closed => (b, Admitted)
  }

  function After(c: Config, b: Breaker, failed: bool, now: int): Breaker {
    if failed then
      var b := b.(failures := b.failures + 1, lastFailTime := now);
      if b.state == HalfOpen then b.(state := Open, halfOpenCalls := 0)
      else if b.failures >= c.maxFailures then b.(state := Open)
      else b
    else if b.state == HalfOpen then b.(state := Closed, failures := 0, halfOpenCalls := 0)
    else b.(failures := 0)
  }

  function Reset(b: Breaker): Breaker {
    b.(state := Closed, failures := 0, halfOpenCalls := 0)
  }

  class CircuitBreaker {
    const config: Config
    var state: State
    var failures: int
    var lastFailTime: int
    var halfOpenCalls: int

    constructor (maxFailures: int, resetTimeout: int)
      ensures config == Config(maxFailures, resetTimeout, 1)
      ensures View() == Breaker(Closed, 0, 0, 0)
    {
      config := Config(maxFailures, resetTimeout, 1);
      state, failures, lastFailTime, halfOpenCalls := Closed, 0, 0, 0;
    }

    function View(): Breaker
      reads this
    {
      Breaker(state, failures, lastFailTime, halfOpenCalls)
    }

    method BeforeRequest(now: int) returns (v: Verdict)
      modifies this
      ensures (View(), v) == Before(config, old(View()), now)
    {
      match state {
        case Open =>
          if now - lastFailTime > config.resetTimeout {
            state := HalfOpen;
            halfOpenCalls := 1;
            return Admitted;
          }
          return CircuitOpen;
        case HalfOpen =>
          if halfOpenCalls >= config.halfOpenMaxCalls { return TooManyRequests; }
          halfOpenCalls := halfOpenCalls + 1;
          return Admitted;
        case Closed =>
          return Admitted;
      }
    }

    method AfterRequest(failed: bool, now: int)
      modifies this
      ensures View() == After(config, old(View()), failed, now)
    {
      if failed {
        failures := failures + 1;
        lastFailTime := now;
        if state == HalfOpen {
          state := Open;
          halfOpenCalls := 0;
        } else if failures >= config.maxFailures {
          state := Open;
        }
      } else if state == HalfOpen {
        state := Closed;
        failures := 0;
        halfOpenCalls := 0;
      } else {
        failures := 0;
      }
    }

    method ResetBreaker()
      modifies this
      ensures View() == Reset(old(View()))
    {
      state, failures, halfOpenCalls := Closed, 0, 0;
    }
  }

  // ---- any interleaving ----

  datatype Event = Start(now: int) | Finish(failed: bool, now: int) | Resetting

  /** The breaker; when it last failed, if ever; and how many calls the current half-open
      episode has admitted. */
  datatype Run = Run(b: Breaker, failedAt: seq<int>, episode: nat)

  ghost function Fresh(): Run {
    Run(Breaker(Closed, 0, 0, 0), [], 0)
  }

  ghost function Next(c: Config, r: Run, e: Event): Run {
    match e
    case Start(now) =>
      var (b, v) := Before(c, r.b, now);
      var episode := if b.state != HalfOpen then 0
                     else if r.b.state == Open then 1
                     else if v == Admitted then r.episode + 1 else r.episode;
      r.(b := b, episode := episode)
    case Finish(failed, now) =>
      var b := After(c, r.b, failed, now);
      Run(b, if failed then r.failedAt + [now] else r.failedAt, if b.state == HalfOpen then r.episode else 0)
    case Resetting => Run(Reset(r.b), r.failedAt, 0)
  }

  ghost function RunAfter(c: Config, events: seq<Event>): Run {
    if |events| == 0 then Fresh() else Next(c, RunAfter(c, events[..|events|-1]), events[|events|-1])
  }

  ghost predicate Sound(c: Config, r: Run) {
    && 0 <= r.b.failures
    && (r.b.state == Closed ==> r.b.failures < c.maxFailures)
    && (r.b.state == HalfOpen ==> r.episode == r.b.halfOpenCalls <= c.halfOpenMaxCalls)
    && (r.b.state != Closed ==> |r.failedAt| > 0)
    && (|r.failedAt| > 0 ==> r.b.lastFailTime == r.failedAt[|r.failedAt|-1])
  }

  /** Over every interleaving of starts, finishes and resets: closed means fewer failures than
      allowed, a half-open episode admits no more than its quota, and the time the open state
      waits from is the time of the latest failure. */
  lemma {:induction false} AlwaysSound(c: Config, events: seq<Event>)
    requires 1 <= c.maxFailures && 1 <= c.halfOpenMaxCalls
    ensures Sound(c, RunAfter(c, events))
  {
    if |events| == 0 {
    } else {
      AlwaysSound(c, events[..|events|-1]);
    }
  }

  /** Hence a call that starts while the breaker is open is admitted exactly when the latest
      failure is more than the reset timeout ago. */
  lemma {:induction false} OpenAdmitsIff(c: Config, events: seq<Event>, now: int)
    requires 1 <= c.maxFailures && 1 <= c.halfOpenMaxCalls && RunAfter(c, events).b.state == Open
    ensures var failedAt := RunAfter(c, events).failedAt;
            && |failedAt| > 0
            && (Before(c, RunAfter(c, events).b, now).1 == Admitted <==> now - failedAt[|failedAt|-1] > c.resetTimeout)
  {
    AlwaysSound(c, events);
  }

  /** The verdict after any interleaving: admitted are all calls while the breaker is closed, the
      trials of the quota while it is half open, and the first one after the timeout; a
      rejection says which state it comes from, and changes nothing. */
  lemma AdmittedIff(c: Config, events: seq<Event>, now: int)
    requires 1 <= c.maxFailures && 1 <= c.halfOpenMaxCalls
    ensures var r := RunAfter(c, events);
            var (after, v) := Before(c, r.b, now);
            && (v == Admitted <==>
                  || r.b.state == Closed
                  || (r.b.state == HalfOpen && r.episode < c.halfOpenMaxCalls)
                  || (r.b.state == Open && |r.failedAt| > 0 && now - r.failedAt[|r.failedAt|-1] > c.resetTimeout))
            && (v == TooManyRequests ==> r.b.state == HalfOpen) && (v == CircuitOpen ==> r.b.state == Open)
            && (v != Admitted ==> after == r.b)
  {
    AlwaysSound(c, events);
  }

  /** Calls that have failed since the last one that succeeded, or the last reset. */
  ghost function Streak(events: seq<Event>): nat {
    if |events| == 0 then 0 else
      var before := Streak(events[..|events|-1]);
      match events[|events|-1]
      case Start(_) => before
      case Finish(failed, _) => if failed then before + 1 else 0
      case Resetting => 0
  }

  lemma {:induction false} FailuresAreStreak(c: Config, events: seq<Event>)
    ensures RunAfter(c, events).b.failures == Streak(events)
  {
    if |events| == 0 {
    } else {
      FailuresAreStreak(c, events[..|events|-1]);
    }
  }

  /** Over every interleaving: the breaker opens exactly when a call fails that was a trial or
      makes maxFailures failures in a row; it closes exactly on a reset or when a call
      succeeds while it is half open; and the end of a call never closes an open one. */
  lemma {:induction false} Transitions(c: Config, events: seq<Event>)
    requires |events| > 0 && 1 <= c.maxFailures && 1 <= c.halfOpenMaxCalls
    ensures var n := |events| - 1;
            var before, after := RunAfter(c, events[..n]), RunAfter(c, events).b.state;
            match events[n]
            case Start(now) =>
              && (after == Closed <==> before.b.state == Closed)
              && (after == HalfOpen <==>
                    before.b.state == HalfOpen
                    || (before.b.state == Open && |before.failedAt| > 0 && now - before.failedAt[|before.failedAt|-1] > c.resetTimeout))
            case Finish(failed, _) =>
              if failed then after == if before.b.state == Closed && Streak(events) < c.maxFailures then Closed else Open
              else after == if before.b.state == Open then Open else Closed
            case Resetting => after == Closed
  {
    var n := |events| - 1;
    AlwaysSound(c, events[..n]);
    FailuresAreStreak(c, events[..n]);
  }

  // ---- a service that is down: calls one after the other, all failing ----

  /** An attempt that starts and, if admitted, fails. */
  datatype Attempt = Attempt(start: int, finish: int)

  ghost function Attempted(c: Config, b: Breaker, a: Attempt): (Breaker, bool) {
    var (started, v) := Before(c, b, a.start);
    if v == Admitted then (After(c, started, true, a.finish), true) else (started, false)
  }

  ghost function Attempts(c: Config, attempts: seq<Attempt>): (Breaker, nat) {
    if |attempts| == 0 then (Fresh().b, 0) else
      var (b, n) := Attempts(c, attempts[..|attempts|-1]);
      var (after, admitted) := Attempted(c, b, attempts[|attempts|-1]);
      (after, if admitted then n + 1 else n)
  }

  /** Attempts do not overlap and lie between t0 and t1. */
  ghost predicate Sequential(attempts: seq<Attempt>, t0: int, t1: int) {
    && (forall i :: 0 <= i < |attempts| ==> t0 <= attempts[i].start <= attempts[i].finish <= t1)
    && (forall i, j :: 0 <= i < j < |attempts| ==> attempts[i].finish <= attempts[j].start)
  }

  /** Attempts admitted beyond the first maxFailures. */
  ghost function Extra(c: Config, n: nat): int {
    if n <= c.maxFailures then 0 else n - c.maxFailures
  }

  lemma {:induction false} DownService(c: Config, attempts: seq<Attempt>, t0: int, t1: int)
    requires 1 <= c.maxFailures && 1 <= c.resetTimeout && Sequential(attempts, t0, t1)
    ensures var (b, n) := Attempts(c, attempts);
            && b.failures == n && b.state == (if n < c.maxFailures then Closed else Open)
            && (n > 0 ==> exists i :: 0 <= i < |attempts| && b.lastFailTime == attempts[i].finish)
            && (n >= c.maxFailures ==> t0 + Extra(c, n) * c.resetTimeout <= b.lastFailTime <= t1)
  {
    if |attempts| == 0 {
    } else {
      var m := |attempts| - 1;
      DownService(c, attempts[..m], t0, t1);
      var (b, n) := Attempts(c, attempts[..m]);
      assert attempts[m].start <= attempts[m].finish;
      if n > 0 {
        var i :| 0 <= i < m && b.lastFailTime == attempts[..m][i].finish;
        assert b.lastFailTime <= attempts[m].start;
        assert b.lastFailTime == attempts[i].finish;
      }
      DownStep(c, b, n, attempts[m], t0, t1);
      hide Attempted, Extra;
    }
  }

  /** One attempt more. */
  lemma DownStep(c: Config, b: Breaker, n: nat, a: Attempt, t0: int, t1: int)
    requires 1 <= c.maxFailures && 1 <= c.resetTimeout && t0 <= a.start <= a.finish <= t1
    requires b.failures == n && b.state == (if n < c.maxFailures then Closed else Open)
    requires n > 0 ==> b.lastFailTime <= a.start
    requires n >= c.maxFailures ==> t0 + Extra(c, n) * c.resetTimeout <= b.lastFailTime <= t1
    ensures var (after, admitted) := Attempted(c, b, a);
            var m := if admitted then n + 1 else n;
            && after.failures == m && after.state == (if m < c.maxFailures then Closed else Open)
            && after.lastFailTime == (if admitted then a.finish else b.lastFailTime)
            && (m >= c.maxFailures ==> t0 + Extra(c, m) * c.resetTimeout <= after.lastFailTime <= t1)
  {
    Arithmetic.MulSuccessor(Extra(c, n), c.resetTimeout);
  }

  /** While a service is down, attempts one after the other in a span of length T reach it at
      most maxFailures + T / resetTimeout times. */
  lemma DownServiceBound(c: Config, attempts: seq<Attempt>, t0: int, t1: int)
    requires 1 <= c.maxFailures && 1 <= c.resetTimeout && t0 <= t1 && Sequential(attempts, t0, t1)
    ensures Attempts(c, attempts).1 <= c.maxFailures + (t1 - t0) / c.resetTimeout
  {
    DownService(c, attempts, t0, t1);
    var n := Attempts(c, attempts).1;
    Arithmetic.Quotient(if n < c.maxFailures then 0 else Extra(c, n), c.resetTimeout, t1 - t0);
  }
}
