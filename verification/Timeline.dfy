/** The life of one (host, rule) pair: the small timed machine the evaluator runs for it,
    and what holds over every sequence of samples. */
module Timeline {
  import opened Common
  import opened Alerting
  import Arithmetic
  import Fleet

  /** How a sample bears on the rule. Samples of other hosts, and samples without the
      rule's metric, are Unavailable. */
  datatype Kind = Unavailable | Breach | Clear

  datatype Obs = Obs(kind: Kind, now: int)

  /** Pending since a first breach; firing, with the start of the current clear spell. */
  datatype Phase = Idle | Held(since: int) | Alight(clearSince: Option<int>)

  datatype Event = Nothing | Fired | Settled

  function Step(hold: int, resolveAfter: int, p: Phase, o: Obs): (Phase, Event) {
    match o.kind
    case Unavailable => (p, Nothing)
    case Breach =>
      (match p
       case Idle => if hold <= 0 then (Alight(None), Fired) else (Held(o.now), Nothing)
       case Held(since) => if o.now - since >= hold then (Alight(None), Fired) else (p, Nothing)
       case Alight(_) => (Alight(None), Nothing))
    case Clear =>
      (match p
       case Idle => (Idle, Nothing)
       case Held(_) => (Idle, Nothing)
       case Alight(clearSince) =>
         var since := if clearSince.Some? then clearSince.value else o.now;
         if o.now - since < resolveAfter then (Alight(Some(since)), Nothing) else (Idle, Settled))
  }

  /** The phase after the first n observations. */
  ghost function PhaseAt(hold: int, resolveAfter: int, obs: seq<Obs>, n: nat): Phase
    requires n <= |obs|
  {
    if n == 0 then Idle else Step(hold, resolveAfter, PhaseAt(hold, resolveAfter, obs, n - 1), obs[n-1]).0
  }

  /** What observation number i makes the evaluator report. */
  ghost function EventAt(hold: int, resolveAfter: int, obs: seq<Obs>, i: nat): Event
    requires i < |obs|
  {
    Step(hold, resolveAfter, PhaseAt(hold, resolveAfter, obs, i), obs[i]).1
  }

  /** The reported events in order. */
  ghost function Events(hold: int, resolveAfter: int, obs: seq<Obs>, n: nat): seq<Event>
    requires n <= |obs|
  {
    if n == 0 then [] else
      var e := EventAt(hold, resolveAfter, obs, n - 1);
      Events(hold, resolveAfter, obs, n - 1) + if e == Nothing then [] else [e]
  }

  /** The clock of the samples that matter does not run backwards. */
  ghost predicate Chronological(obs: seq<Obs>) {
    forall i, j :: 0 <= i < j < |obs| && obs[i].kind != Unavailable && obs[j].kind != Unavailable ==>
      obs[i].now <= obs[j].now
  }

  // ---- alternation ----

  /** Firing and resolved events strictly alternate, starting with firing. */
  lemma {:induction false} Alternate(hold: int, resolveAfter: int, obs: seq<Obs>, n: nat)
    requires n <= |obs|
    ensures var events := Events(hold, resolveAfter, obs, n);
            && (forall k :: 0 <= k < |events| ==> events[k] == if k % 2 == 0 then Fired else Settled)
            && (|events| % 2 == 1 <==> PhaseAt(hold, resolveAfter, obs, n).Alight?)
  {
    if n == 0 {
    } else {
      Alternate(hold, resolveAfter, obs, n - 1);
    }
  }

  // ---- why an alert fires and resolves ----

  /** Observations from..end are all of the given kind or unavailable. */
  ghost predicate Only(kind: Kind, obs: seq<Obs>, first: nat, end: nat)
    requires end <= |obs|
  {
    forall k :: first <= k < end ==> obs[k].kind == kind || obs[k].kind == Unavailable
  }

  /** Observation j opened the spell that is still going on after n. */
  ghost predicate Opened(kind: Kind, obs: seq<Obs>, j: nat, since: int, n: nat)
    requires n <= |obs|
  {
    j < n && obs[j] == Obs(kind, since) && Only(kind, obs, j, n)
  }

  lemma {:induction false} SpellOpened(hold: int, resolveAfter: int, obs: seq<Obs>, n: nat) returns (j: nat)
    requires n <= |obs|
    ensures match PhaseAt(hold, resolveAfter, obs, n)
            case Idle => true
            case Held(since) => Opened(Breach, obs, j, since, n)
            case Alight(None) => true
            case Alight(Some(since)) => Opened(Clear, obs, j, since, n)
  {
    j := 0;
    if n > 0 {
      j := SpellOpened(hold, resolveAfter, obs, n - 1);
      var before, after := PhaseAt(hold, resolveAfter, obs, n - 1), PhaseAt(hold, resolveAfter, obs, n);
      if (after.Held? && before.Idle?) || (after.Alight? && after.clearSince.Some? && before.Alight? && before.clearSince.None?) {
        j := n - 1;
      }
    }
  }

  /** A firing event ends a spell of breaching samples, none of them clear, that spans at
      least the rule's hold time. */
  lemma FiringIsJustified(hold: int, resolveAfter: int, obs: seq<Obs>, i: nat) returns (j: nat)
    requires i < |obs| && EventAt(hold, resolveAfter, obs, i) == Fired
    ensures j <= i && obs[j].kind == Breach && obs[i].kind == Breach
    ensures Only(Breach, obs, j, i + 1) && obs[i].now - obs[j].now >= hold
  {
    j := SpellOpened(hold, resolveAfter, obs, i);
    if PhaseAt(hold, resolveAfter, obs, i).Idle? { j := i; }
  }

  /** A resolved event ends a spell of clear samples, none of them breaching, that spans at
      least the settle time. */
  lemma ResolvingIsJustified(hold: int, resolveAfter: int, obs: seq<Obs>, i: nat) returns (j: nat)
    requires i < |obs| && EventAt(hold, resolveAfter, obs, i) == Settled
    ensures j <= i && obs[j].kind == Clear && obs[i].kind == Clear
    ensures Only(Clear, obs, j, i + 1) && obs[i].now - obs[j].now >= resolveAfter
  {
    j := SpellOpened(hold, resolveAfter, obs, i);
    var phase := PhaseAt(hold, resolveAfter, obs, i);
    if phase.Alight? && phase.clearSince.None? { j := i; }
  }

  // ---- and the converse ----

  /** During a breaching spell the alert is pending since no later than its first sample,
      or firing. */
  lemma {:induction false} DuringBreach(hold: int, resolveAfter: int, obs: seq<Obs>, j: nat, n: nat)
    requires j < n <= |obs| && Chronological(obs)
    requires obs[j].kind == Breach && Only(Breach, obs, j, n)
    ensures var p := PhaseAt(hold, resolveAfter, obs, n);
            p.Alight? || (p.Held? && p.since <= obs[j].now)
    decreases n
  {
    if j + 1 < n {
      DuringBreach(hold, resolveAfter, obs, j, n - 1);
    } else {
      var first := SpellOpened(hold, resolveAfter, obs, j);
    }
  }

  /** A breach that has held for the hold time is firing. */
  lemma HeldBreachFires(hold: int, resolveAfter: int, obs: seq<Obs>, j: nat, i: nat)
    requires j <= i < |obs| && Chronological(obs)
    requires obs[j].kind == Breach && obs[i].kind == Breach && Only(Breach, obs, j, i + 1)
    requires obs[i].now - obs[j].now >= hold
    ensures PhaseAt(hold, resolveAfter, obs, i + 1).Alight?
  {
    if j < i {
      DuringBreach(hold, resolveAfter, obs, j, i);
    } else {
      var first := SpellOpened(hold, resolveAfter, obs, i);
    }
  }

  lemma {:induction false} DuringClear(hold: int, resolveAfter: int, obs: seq<Obs>, j: nat, n: nat)
    requires j < n <= |obs| && Chronological(obs)
    requires obs[j].kind == Clear && Only(Clear, obs, j, n)
    ensures var p := PhaseAt(hold, resolveAfter, obs, n);
            p.Idle? || (p.Alight? && p.clearSince.Some? && p.clearSince.value <= obs[j].now)
    decreases n
  {
    if j + 1 < n {
      DuringClear(hold, resolveAfter, obs, j, n - 1);
    } else {
      var first := SpellOpened(hold, resolveAfter, obs, j);
    }
  }

  /** A metric that has stayed clear for the settle time has no alert any more. */
  lemma HeldClearResolves(hold: int, resolveAfter: int, obs: seq<Obs>, j: nat, i: nat)
    requires j <= i < |obs| && Chronological(obs)
    requires obs[j].kind == Clear && obs[i].kind == Clear && Only(Clear, obs, j, i + 1)
    requires obs[i].now - obs[j].now >= resolveAfter
    ensures PhaseAt(hold, resolveAfter, obs, i + 1).Idle?
  {
    if j < i {
      DuringClear(hold, resolveAfter, obs, j, i);
    } else {
      var first := SpellOpened(hold, resolveAfter, obs, i);
    }
  }

  // ---- the anti-flap bound ----

  ghost function Count(e: Event, hold: int, resolveAfter: int, obs: seq<Obs>, a: nat, b: nat): nat
    requires a <= b <= |obs|
    decreases b
  {
    if a == b then 0 else
      Count(e, hold, resolveAfter, obs, a, b - 1) + if EventAt(hold, resolveAfter, obs, b - 1) == e then 1 else 0
  }

  /** Every sample that matters from index n on is at t or later. */
  ghost predicate NotBefore(obs: seq<Obs>, n: nat, t: int) {
    forall k :: n <= k < |obs| && obs[k].kind != Unavailable ==> t <= obs[k].now
  }

  lemma NowOn(obs: seq<Obs>, i: nat)
    requires i < |obs| && Chronological(obs) && obs[i].kind != Unavailable
    ensures NotBefore(obs, i + 1, obs[i].now)
  {}

  /** From the last of the events on, the next of the same sort is at least a period away:
      `lit` is what a firing alert has still to wait for, `dark` what an absent one has. */
  ghost predicate Spaced(p: Phase, obs: seq<Obs>, n: nat, lit: int, dark: int) {
    match p
    case Idle => NotBefore(obs, n, dark)
    case Held(since) => dark <= since && NotBefore(obs, n, dark)
    case Alight(None) => NotBefore(obs, n, lit)
    case Alight(Some(since)) => lit <= since && NotBefore(obs, n, lit)
  }

  /** One observation keeps the spacing; a firing event starts the next period of firings,
      a resolved event the next period of resolutions. */
  lemma SpacedStep(hold: int, resolveAfter: int, obs: seq<Obs>, n: nat, p: Phase, lit: int, dark: int)
    requires n < |obs| && Chronological(obs) && 0 <= hold && 0 <= resolveAfter
    requires Spaced(p, obs, n, lit, dark)
    ensures var (after, e) := Step(hold, resolveAfter, p, obs[n]);
            && (e == Fired ==> dark + hold <= obs[n].now && Spaced(after, obs, n + 1, dark + hold, dark + hold + resolveAfter))
            && (e == Settled ==> lit + resolveAfter <= obs[n].now && Spaced(after, obs, n + 1, lit + resolveAfter + hold, lit + resolveAfter))
            && (e == Nothing ==> Spaced(after, obs, n + 1, lit, dark))
            && (e == Settled && dark <= lit + resolveAfter ==> Spaced(after, obs, n + 1, lit, dark))
            && (e == Fired && lit <= dark + hold ==> Spaced(after, obs, n + 1, lit, dark))
  {
    if obs[n].kind != Unavailable { NowOn(obs, n); }
  }

  /** The first event of a sort in the window, at t0 or later. */
  lemma SpacedFirst(hold: int, resolveAfter: int, obs: seq<Obs>, n: nat, p: Phase, t0: int)
    requires n < |obs| && Chronological(obs) && 0 <= hold && 0 <= resolveAfter && NotBefore(obs, n, t0)
    ensures var (after, e) := Step(hold, resolveAfter, p, obs[n]);
            && (e == Fired ==> Spaced(after, obs, n + 1, t0, t0 + resolveAfter))
            && (e == Settled ==> Spaced(after, obs, n + 1, t0 + hold, t0))
  {
    if obs[n].kind != Unavailable { NowOn(obs, n); }
  }

  /** The samples from..end that matter lie between t0 and t1. */
  ghost predicate InWindow(obs: seq<Obs>, a: nat, b: nat, t0: int, t1: int)
    requires b <= |obs|
  {
    forall k :: a <= k < b && obs[k].kind != Unavailable ==> t0 <= obs[k].now <= t1
  }

  /** When the n-th of events at least a period apart can be at the earliest. */
  ghost function Mark(t0: int, n: nat, period: int): int {
    t0 + (n - 1) * period
  }

  lemma MarkNext(t0: int, n: nat, period: int)
    ensures Mark(t0, n + 1, period) == Mark(t0, n, period) + period
    ensures Mark(t0, 1, period) == t0
  {
    assert n * period == (n - 1) * period + period;
  }

  /** One observation more. */
  lemma OneMore(e: Event, hold: int, resolveAfter: int, obs: seq<Obs>, a: nat, b: nat)
    requires a < b <= |obs|
    ensures var (phase, event) := Step(hold, resolveAfter, PhaseAt(hold, resolveAfter, obs, b - 1), obs[b-1]);
            && PhaseAt(hold, resolveAfter, obs, b) == phase && EventAt(hold, resolveAfter, obs, b - 1) == event
            && Count(e, hold, resolveAfter, obs, a, b)
               == Count(e, hold, resolveAfter, obs, a, b - 1) + if event == e then 1 else 0
  {
    hide Step;
  }

  lemma {:induction false} FiringsSpaced(hold: int, resolveAfter: int, obs: seq<Obs>, a: nat, b: nat, t0: int, t1: int)
    requires a <= b <= |obs| && Chronological(obs) && 0 <= hold && 0 <= resolveAfter
    requires NotBefore(obs, a, t0) && InWindow(obs, a, b, t0, t1)
    ensures var n, period := Count(Fired, hold, resolveAfter, obs, a, b), hold + resolveAfter;
            n > 0 ==>
              var lit := Mark(t0, n, period);
              lit <= t1 && Spaced(PhaseAt(hold, resolveAfter, obs, b), obs, b, lit, lit + resolveAfter)
    decreases b
  {
    hide Mark, Spaced, NotBefore, Chronological, InWindow, Step, PhaseAt, EventAt;
    if a == b {
    } else {
      LastInWindow(hold, resolveAfter, obs, a, b, t0, t1);
      FiringsSpaced(hold, resolveAfter, obs, a, b - 1, t0, t1);
      var n, period := Count(Fired, hold, resolveAfter, obs, a, b - 1), hold + resolveAfter;
      var p := PhaseAt(hold, resolveAfter, obs, b - 1);
      MarkNext(t0, n, period);
      OneMore(Fired, hold, resolveAfter, obs, a, b);
      if n > 0 {
        SpacedStep(hold, resolveAfter, obs, b - 1, p, Mark(t0, n, period), Mark(t0, n, period) + resolveAfter);
      } else {
        assert NotBefore(obs, b - 1, t0) by { LaterStill(obs, a, b - 1, t0); }
        SpacedFirst(hold, resolveAfter, obs, b - 1, p, t0);
      }
    }
  }

  lemma LaterStill(obs: seq<Obs>, a: nat, b: nat, t0: int)
    requires a <= b && NotBefore(obs, a, t0)
    ensures NotBefore(obs, b, t0)
  {}

  lemma LastInWindow(hold: int, resolveAfter: int, obs: seq<Obs>, a: nat, b: nat, t0: int, t1: int)
    requires a < b <= |obs| && InWindow(obs, a, b, t0, t1)
    ensures EventAt(hold, resolveAfter, obs, b - 1) != Nothing ==> t0 <= obs[b-1].now <= t1
    ensures InWindow(obs, a, b - 1, t0, t1)
  {}

  lemma {:induction false} ResolutionsSpaced(hold: int, resolveAfter: int, obs: seq<Obs>, a: nat, b: nat, t0: int, t1: int)
    requires a <= b <= |obs| && Chronological(obs) && 0 <= hold && 0 <= resolveAfter
    requires NotBefore(obs, a, t0) && InWindow(obs, a, b, t0, t1)
    ensures var n, period := Count(Settled, hold, resolveAfter, obs, a, b), hold + resolveAfter;
            n > 0 ==>
              var dark := Mark(t0, n, period);
              dark <= t1 && Spaced(PhaseAt(hold, resolveAfter, obs, b), obs, b, dark + hold, dark)
    decreases b
  {
    hide Mark, Spaced, NotBefore, Chronological, InWindow, Step, PhaseAt, EventAt;
    if a == b {
    } else {
      LastInWindow(hold, resolveAfter, obs, a, b, t0, t1);
      ResolutionsSpaced(hold, resolveAfter, obs, a, b - 1, t0, t1);
      var n, period := Count(Settled, hold, resolveAfter, obs, a, b - 1), hold + resolveAfter;
      var p := PhaseAt(hold, resolveAfter, obs, b - 1);
      MarkNext(t0, n, period);
      OneMore(Settled, hold, resolveAfter, obs, a, b);
      if n > 0 {
        SpacedStep(hold, resolveAfter, obs, b - 1, p, Mark(t0, n, period) + hold, Mark(t0, n, period));
      } else {
        assert NotBefore(obs, b - 1, t0) by { LaterStill(obs, a, b - 1, t0); }
        SpacedFirst(hold, resolveAfter, obs, b - 1, p, t0);
      }
    }
  }

  /** Whatever the samples do, a window of length T holds at most two transitions and two
      more for every hold plus settle time in it. */
  lemma FlapBound(hold: int, resolveAfter: int, obs: seq<Obs>, a: nat, b: nat, t0: int, t1: int)
    requires a <= b <= |obs| && Chronological(obs) && 0 <= hold && 0 <= resolveAfter && 0 < hold + resolveAfter
    requires NotBefore(obs, a, t0) && InWindow(obs, a, b, t0, t1) && t0 <= t1
    ensures Count(Fired, hold, resolveAfter, obs, a, b) + Count(Settled, hold, resolveAfter, obs, a, b)
            <= 2 + 2 * ((t1 - t0) / (hold + resolveAfter))
  {
    var period := hold + resolveAfter;
    var fired, settled := Count(Fired, hold, resolveAfter, obs, a, b), Count(Settled, hold, resolveAfter, obs, a, b);
    FiringsSpaced(hold, resolveAfter, obs, a, b, t0, t1);
    ResolutionsSpaced(hold, resolveAfter, obs, a, b, t0, t1);
    hide Count, Spaced, PhaseAt;
    AtMost(fired, period, t1 - t0);
    AtMost(settled, period, t1 - t0);
  }

  lemma AtMost(n: nat, period: int, elapsed: int)
    requires 0 < period && 0 <= elapsed && (n > 0 ==> (n - 1) * period <= elapsed)
    ensures n <= 1 + elapsed / period
  {
    if n > 0 { Arithmetic.Quotient(n - 1, period, elapsed); }
    else { Arithmetic.Quotient(0, period, elapsed); }
  }

  // ---- the evaluator runs this machine ----

  function PhaseOf(a: Option<Alert>): Phase {
    match a
    case None => Idle
    case Some(alert) => if alert.state == Pending then Held(alert.startedAt) else Alight(alert.clearSince)
  }

  function EventOf(a: Alert): Event {
    if a.state == Resolved then Settled else Fired
  }

  /** What an operation on the fleet is for one (host, rule). */
  function ObsOf(r: Rule, host: string, op: Fleet.Op): Obs {
    match op
    case Sample(s, now) =>
      var value := MetricValue(s, r.metric);
      if s.hostId != host || !r.enabled || value.None? then Obs(Unavailable, now)
      else Obs(if Matches(r, value.value) then Breach else Clear, now)
    case _ => Obs(Unavailable, 0)
  }

  /** The transitions of one (host, rule), as events. */
  ghost function EventsFor(alerts: seq<Alert>, k: Key): seq<Event> {
    if |alerts| == 0 then [] else
      var a := alerts[|alerts|-1];
      EventsFor(alerts[..|alerts|-1], k) + if a.hostId == k.host && a.ruleId == k.rule then [EventOf(a)] else []
  }

  /** Stored alerts are pending or firing, and are filed under their host and rule. */
  ghost predicate WellKept(active: Active) {
    forall k :: k in active ==>
      active[k].state != Resolved && active[k].hostId == k.host && active[k].ruleId == k.rule
  }

  ghost predicate UniqueIds(rules: seq<Rule>) {
    forall i, j :: 0 <= i < j < |rules| ==> rules[i].id != rules[j].id
  }

  lemma {:induction false} EventsForAppend(a: seq<Alert>, b: seq<Alert>, k: Key)
    ensures EventsFor(a + b, k) == EventsFor(a, k) + EventsFor(b, k)
  {
    if |b| == 0 {
      assert a + b == a;
    } else {
      assert (a + b)[..|a + b|-1] == a + b[..|b|-1];
      EventsForAppend(a, b[..|b|-1], k);
    }
  }

  ghost function Reported(e: Event): seq<Event> {
    if e == Nothing then [] else [e]
  }

  /** One rule on one alert is one step of the machine. */
  lemma EvalRuleSteps(r: Rule, resolveAfter: int, existing: Option<Alert>, s: SystemState, value: real, now: int)
    requires existing.Some? ==> existing.value.state != Resolved
    ensures var (after, transitions) := EvalRule(r, resolveAfter, existing, s, value, now);
            var (phase, event) := Step(r.hold, resolveAfter, PhaseOf(existing),
                                       Obs(if Matches(r, value) then Breach else Clear, now));
            && (after.Some? ==> after.value.state != Resolved)
            && PhaseOf(after) == phase
            && |transitions| == |Reported(event)| <= 1
            && (|transitions| > 0 ==> EventOf(transitions[0]) == event)
  {
    hide Matches;
  }

  /** The alerts of a key carry its host and rule. */
  lemma EvalRuleKeeps(r: Rule, resolveAfter: int, existing: Option<Alert>, s: SystemState, value: real, now: int)
    requires existing.Some? ==> existing.value.hostId == s.hostId && existing.value.ruleId == r.id
    ensures var (after, transitions) := EvalRule(r, resolveAfter, existing, s, value, now);
            && (after.Some? ==> after.value.hostId == s.hostId && after.value.ruleId == r.id)
            && |transitions| <= 1
            && (|transitions| > 0 ==> transitions[0].hostId == s.hostId && transitions[0].ruleId == r.id)
  {
    hide Matches;
  }

  lemma EventsForOne(alerts: seq<Alert>, k: Key)
    requires |alerts| <= 1
    ensures EventsFor(alerts, k) ==
            if |alerts| == 1 && alerts[0].hostId == k.host && alerts[0].ruleId == k.rule then [EventOf(alerts[0])] else []
  {
    if |alerts| == 1 { assert alerts[..0] == []; }
  }

  lemma StoreLookup(active: Active, k: Key, a: Option<Alert>, other: Key)
    ensures Lookup(Store(active, k, a), other) == if other == k then a else Lookup(active, other)
  {}

  lemma StoreKept(active: Active, k: Key, a: Option<Alert>)
    requires WellKept(active)
    requires a.Some? ==> a.value.state != Resolved && a.value.hostId == k.host && a.value.ruleId == k.rule
    ensures WellKept(Store(active, k, a))
    ensures Lookup(active, k).Some? ==>
              var b := Lookup(active, k).value; b.state != Resolved && b.hostId == k.host && b.ruleId == k.rule
  {}

  /** One rule on one sample is one step of the machine of its own key, and nothing else. */
  lemma ApplyRuleSteps(r: Rule, resolveAfter: int, active: Active, s: SystemState, now: int, k: Key)
    requires WellKept(active)
    ensures var (after, transitions) := ApplyRule(r, resolveAfter, active, s, now);
            && WellKept(after)
            && (r.id != k.rule ==> Lookup(after, k) == Lookup(active, k) && EventsFor(transitions, k) == [])
            && (r.id == k.rule ==>
                  var (phase, event) := Step(r.hold, resolveAfter, PhaseOf(Lookup(active, k)), ObsOf(r, k.host, Fleet.Sample(s, now)));
                  PhaseOf(Lookup(after, k)) == phase && EventsFor(transitions, k) == Reported(event))
  {
    var own, value := Key(s.hostId, r.id), MetricValue(s, r.metric);
    if r.enabled && value.Some? {
      var existing := Lookup(active, own);
      StoreKept(active, own, None);
      EvalRuleSteps(r, resolveAfter, existing, s, value.value, now);
      EvalRuleKeeps(r, resolveAfter, existing, s, value.value, now);
      var (stored, transitions) := EvalRule(r, resolveAfter, existing, s, value.value, now);
      EventsForOne(transitions, k);
      StoreLookup(active, own, stored, k);
      StoreKept(active, own, stored);
      hide EvalRule, EventsFor, Store, Lookup, MetricValue, Matches, PhaseOf, EventOf, WellKept;
    } else {
      hide EvalRule, Store, Lookup, MetricValue, Matches, PhaseOf, WellKept;
    }
  }

  /** The rules act on a key exactly as the one rule with its id does. */
  lemma {:induction false} EvalRulesSteps(rules: seq<Rule>, m: nat, resolveAfter: int, active: Active, s: SystemState, now: int, k: Key, n: nat)
    requires WellKept(active) && UniqueIds(rules) && m < |rules| && rules[m].id == k.rule && n <= |rules|
    ensures var (after, transitions) := EvalRules(rules[..n], resolveAfter, active, s, now);
            && WellKept(after)
            && (n <= m ==> Lookup(after, k) == Lookup(active, k) && EventsFor(transitions, k) == [])
            && (n > m ==>
                  var (phase, event) := Step(rules[m].hold, resolveAfter, PhaseOf(Lookup(active, k)),
                                             ObsOf(rules[m], k.host, Fleet.Sample(s, now)));
                  PhaseOf(Lookup(after, k)) == phase && EventsFor(transitions, k) == Reported(event))
    decreases n
  {
    if n == 0 {
    } else {
      EvalRulesSteps(rules, m, resolveAfter, active, s, now, k, n - 1);
      assert rules[..n][..n-1] == rules[..n-1];
      var before := EvalRules(rules[..n-1], resolveAfter, active, s, now);
      var last := ApplyRule(rules[n-1], resolveAfter, before.0, s, now);
      ApplyRuleSteps(rules[n-1], resolveAfter, before.0, s, now, k);
      EventsForAppend(before.1, last.1, k);
      hide ApplyRule, Step, PhaseOf, ObsOf, WellKept, EventsFor, Reported, Lookup;
    }
  }

  ghost function ObsOfAll(r: Rule, host: string, ops: seq<Fleet.Op>): seq<Obs> {
    seq(|ops|, i requires 0 <= i < |ops| => ObsOf(r, host, ops[i]))
  }

  /** A run with a fixed rule set in which no host is forgotten. */
  ghost predicate FixedRules(ops: seq<Fleet.Op>) {
    forall i :: 0 <= i < |ops| ==> ops[i].Sample? || ops[i].Acknowledge?
  }

  lemma {:induction false} PhasePrefix(hold: int, resolveAfter: int, obs: seq<Obs>, more: seq<Obs>, n: nat)
    requires n <= |obs|
    ensures PhaseAt(hold, resolveAfter, obs, n) == PhaseAt(hold, resolveAfter, obs + more, n)
    ensures Events(hold, resolveAfter, obs, n) == Events(hold, resolveAfter, obs + more, n)
  {
    if n == 0 {
    } else {
      PhasePrefix(hold, resolveAfter, obs, more, n - 1);
    }
  }

  lemma NextSteps(s: Fleet.State, m: nat, host: string, op: Fleet.Op)
    requires UniqueIds(s.rules) && m < |s.rules| && WellKept(s.active) && (op.Sample? || op.Acknowledge?)
    ensures var (after, transitions) := Fleet.Next(s, op);
            var k, r := Key(host, s.rules[m].id), s.rules[m];
            var (phase, event) := Step(r.hold, s.resolveAfter, PhaseOf(Lookup(s.active, k)), ObsOf(r, host, op));
            && after.rules == s.rules && after.resolveAfter == s.resolveAfter && WellKept(after.active)
            && PhaseOf(Lookup(after.active, k)) == phase
            && EventsFor(transitions, k) == Reported(event)
  {
    if op.Sample? {
      EvalRulesSteps(s.rules, m, s.resolveAfter, s.active, op.state, op.now, Key(host, s.rules[m].id), |s.rules|);
      assert s.rules[..|s.rules|] == s.rules;
    }
  }

  /** One more observation is one more step. */
  lemma TimelineSnoc(hold: int, resolveAfter: int, obs: seq<Obs>, o: Obs)
    ensures var all, n := obs + [o], |obs|;
            var (phase, event) := Step(hold, resolveAfter, PhaseAt(hold, resolveAfter, obs, n), o);
            && PhaseAt(hold, resolveAfter, all, n + 1) == phase
            && Events(hold, resolveAfter, all, n + 1) == Events(hold, resolveAfter, obs, n) + Reported(event)
  {
    PhasePrefix(hold, resolveAfter, obs, [o], |obs|);
    hide Step;
  }

  lemma ObsOfAllSnoc(r: Rule, host: string, ops: seq<Fleet.Op>)
    requires |ops| > 0
    ensures ObsOfAll(r, host, ops) == ObsOfAll(r, host, ops[..|ops|-1]) + [ObsOf(r, host, ops[|ops|-1])]
  {}

  lemma ObsOfAllSize(r: Rule, host: string, ops: seq<Fleet.Op>)
    ensures |ObsOfAll(r, host, ops)| == |ops|
  {}

  lemma FixedFront(ops: seq<Fleet.Op>)
    requires FixedRules(ops) && |ops| > 0
    ensures FixedRules(ops[..|ops|-1]) && (ops[|ops|-1].Sample? || ops[|ops|-1].Acknowledge?)
  {}

  /** The run reports for rule m of the host, and tracks of it, what its own samples' timeline
      says. */
  ghost predicate FollowsTimeline(rules: seq<Rule>, resolveAfter: int, ops: seq<Fleet.Op>, m: nat, host: string)
    requires m < |rules|
  {
    var (s, transitions) := Fleet.Run(Fleet.State(rules, map[], resolveAfter), ops);
    var k, obs := Key(host, rules[m].id), ObsOfAll(rules[m], host, ops);
    && s.rules == rules && s.resolveAfter == resolveAfter && WellKept(s.active)
    && PhaseOf(Lookup(s.active, k)) == PhaseAt(rules[m].hold, resolveAfter, obs, |obs|)
    && EventsFor(transitions, k) == Events(rules[m].hold, resolveAfter, obs, |obs|)
  }

  lemma RunStep(rules: seq<Rule>, resolveAfter: int, ops: seq<Fleet.Op>, m: nat, host: string)
    requires UniqueIds(rules) && m < |rules| && FixedRules(ops) && |ops| > 0
    requires FollowsTimeline(rules, resolveAfter, ops[..|ops|-1], m, host)
    ensures FollowsTimeline(rules, resolveAfter, ops, m, host)
  {
    hide FixedRules, UniqueIds, Step, PhaseOf, ObsOf, ObsOfAll, PhaseAt, Events, Reported, WellKept, Lookup, EventsFor, Fleet.Next;
    var n := |ops| - 1;
    var before := Fleet.Run(Fleet.State(rules, map[], resolveAfter), ops[..n]);
    ObsOfAllSnoc(rules[m], host, ops);
    ObsOfAllSize(rules[m], host, ops[..n]);
    TimelineSnoc(rules[m].hold, resolveAfter, ObsOfAll(rules[m], host, ops[..n]), ObsOf(rules[m], host, ops[n]));
    FixedFront(ops);
    NextSteps(before.0, m, host, ops[n]);
    EventsForAppend(before.1, Fleet.Next(before.0, ops[n]).1, Key(host, rules[m].id));
  }

  /** Over every run of the fleet, one (host, rule) lives exactly the timeline of its own
      samples: the events it reports and the phase it ends in. */
  lemma {:induction false} RunFollowsTimeline(rules: seq<Rule>, resolveAfter: int, ops: seq<Fleet.Op>, m: nat, host: string)
    requires UniqueIds(rules) && m < |rules| && FixedRules(ops)
    ensures FollowsTimeline(rules, resolveAfter, ops, m, host)
  {
    hide UniqueIds;
    if |ops| == 0 {
      assert FollowsTimeline(rules, resolveAfter, ops, m, host);
    } else {
      hide FollowsTimeline;
      FixedFront(ops);
      RunFollowsTimeline(rules, resolveAfter, ops[..|ops|-1], m, host);
      RunStep(rules, resolveAfter, ops, m, host);
    }
  }

  /** The evaluator reports for one (host, rule) strictly alternating firing and resolved
      transitions, starting with firing. */
  lemma TransitionsAlternate(rules: seq<Rule>, resolveAfter: int, ops: seq<Fleet.Op>, m: nat, host: string)
    requires UniqueIds(rules) && m < |rules| && FixedRules(ops)
    ensures var events := EventsFor(Fleet.Run(Fleet.State(rules, map[], resolveAfter), ops).1, Key(host, rules[m].id));
            forall i :: 0 <= i < |events| ==> events[i] == if i % 2 == 0 then Fired else Settled
  {
    RunFollowsTimeline(rules, resolveAfter, ops, m, host);
    Alternate(rules[m].hold, resolveAfter, ObsOfAll(rules[m], host, ops), |ops|);
  }

  // ---- what the evaluator reports ----

  /** What operation number n makes the evaluator report for one (host, rule). */
  ghost function ReportOf(rules: seq<Rule>, resolveAfter: int, ops: seq<Fleet.Op>, k: Key, n: nat): seq<Event>
    requires n < |ops|
  {
    EventsFor(Fleet.Next(Fleet.Run(Fleet.State(rules, map[], resolveAfter), ops[..n]).0, ops[n]).1, k)
  }

  /** The alert tracked for it after the first n operations. */
  ghost function AlertAfter(rules: seq<Rule>, resolveAfter: int, ops: seq<Fleet.Op>, k: Key, n: nat): Option<Alert>
    requires n <= |ops|
  {
    Lookup(Fleet.Run(Fleet.State(rules, map[], resolveAfter), ops[..n]).0.active, k)
  }

  lemma ObsOfAllPrefix(r: Rule, host: string, ops: seq<Fleet.Op>, n: nat)
    requires n <= |ops|
    ensures ObsOfAll(r, host, ops) == ObsOfAll(r, host, ops[..n]) + ObsOfAll(r, host, ops[n..])
  {}

  /** At any point of a run, the phase and the events so far are those of the key's timeline. */
  lemma RunAt(rules: seq<Rule>, resolveAfter: int, ops: seq<Fleet.Op>, m: nat, host: string, n: nat)
    requires UniqueIds(rules) && m < |rules| && FixedRules(ops) && n <= |ops|
    ensures var (s, transitions) := Fleet.Run(Fleet.State(rules, map[], resolveAfter), ops[..n]);
            var k, r, obs := Key(host, rules[m].id), rules[m], ObsOfAll(rules[m], host, ops);
            && |obs| == |ops| && s.rules == rules && s.resolveAfter == resolveAfter && WellKept(s.active)
            && PhaseOf(Lookup(s.active, k)) == PhaseAt(r.hold, resolveAfter, obs, n)
            && EventsFor(transitions, k) == Events(r.hold, resolveAfter, obs, n)
  {
    hide ObsOfAll, PhaseAt, Events, EventsFor, PhaseOf, WellKept, UniqueIds, Fleet.Run;
    var r := rules[m];
    var front, rest := ObsOfAll(r, host, ops[..n]), ObsOfAll(r, host, ops[n..]);
    assert FixedRules(ops[..n]);
    RunFollowsTimeline(rules, resolveAfter, ops[..n], m, host);
    ObsOfAllPrefix(r, host, ops, n);
    ObsOfAllSize(r, host, ops[..n]);
    ObsOfAllSize(r, host, ops);
    PhasePrefix(r.hold, resolveAfter, front, rest, n);
  }

  /** What an operation reports for a key is the event of the key's own observation. */
  lemma ReportIsEvent(rules: seq<Rule>, resolveAfter: int, ops: seq<Fleet.Op>, m: nat, host: string, n: nat)
    requires UniqueIds(rules) && m < |rules| && FixedRules(ops) && n < |ops|
    ensures var obs := ObsOfAll(rules[m], host, ops);
            && |obs| == |ops| && obs[n] == ObsOf(rules[m], host, ops[n])
            && ReportOf(rules, resolveAfter, ops, Key(host, rules[m].id), n) == Reported(EventAt(rules[m].hold, resolveAfter, obs, n))
  {
    RunAt(rules, resolveAfter, ops, m, host, n);
    var before := Fleet.Run(Fleet.State(rules, map[], resolveAfter), ops[..n]).0;
    assert ops[n].Sample? || ops[n].Acknowledge?;
    hide Step, PhaseOf, ObsOf, PhaseAt, Events, Reported, WellKept, Lookup, EventsFor, UniqueIds, FixedRules, Fleet.Next, Fleet.Run;
    NextSteps(before, m, host, ops[n]);
  }

  /** A sample of the host with the rule's metric, on the given side of its threshold. */
  ghost predicate SampleOf(r: Rule, host: string, op: Fleet.Op, breaching: bool) {
    && op.Sample? && op.state.hostId == host && r.enabled
    && MetricValue(op.state, r.metric).Some? && Matches(r, MetricValue(op.state, r.metric).value) == breaching
  }

  lemma KindOfSample(r: Rule, host: string, op: Fleet.Op)
    ensures ObsOf(r, host, op).kind == Breach <==> SampleOf(r, host, op, true)
    ensures ObsOf(r, host, op).kind == Clear <==> SampleOf(r, host, op, false)
    ensures op.Sample? ==> ObsOf(r, host, op).now == op.now
  {
    hide MetricValue, Matches;
  }

  /** From sample j to sample n the host's samples are all on one side, at least d apart. */
  ghost predicate Spell(r: Rule, host: string, ops: seq<Fleet.Op>, j: nat, n: nat, breaching: bool, d: int)
    requires j <= n < |ops|
  {
    && SampleOf(r, host, ops[j], breaching) && SampleOf(r, host, ops[n], breaching)
    && (forall i :: j <= i <= n ==> !SampleOf(r, host, ops[i], !breaching))
    && ops[n].now - ops[j].now >= d
  }

  lemma SpellIs(r: Rule, host: string, ops: seq<Fleet.Op>, j: nat, n: nat, breaching: bool, d: int)
    requires j <= n < |ops|
    ensures var obs, kind := ObsOfAll(r, host, ops), if breaching then Breach else Clear;
            && |obs| == |ops|
            && (Spell(r, host, ops, j, n, breaching, d) <==>
                  && obs[j].kind == kind && obs[n].kind == kind && Only(kind, obs, j, n + 1) && obs[n].now - obs[j].now >= d)
  {
    var obs := ObsOfAll(r, host, ops);
    forall i | 0 <= i < |ops|
      ensures obs[i] == ObsOf(r, host, ops[i])
      ensures obs[i].kind == Breach <==> SampleOf(r, host, ops[i], true)
      ensures obs[i].kind == Clear <==> SampleOf(r, host, ops[i], false)
      ensures ops[i].Sample? ==> obs[i].now == ops[i].now
    {
      KindOfSample(r, host, ops[i]);
    }
    hide ObsOf, ObsOfAll;
    assert SampleOf(r, host, ops[j], breaching) ==> ops[j].Sample?;
    assert SampleOf(r, host, ops[n], breaching) ==> ops[n].Sample?;
    hide SampleOf;
  }

  /** Whenever the evaluator reports a firing alert, samples of that host have breached the
      rule for the hold time with no clear one between. */
  lemma FiringReportIsJustified(rules: seq<Rule>, resolveAfter: int, ops: seq<Fleet.Op>, m: nat, host: string, n: nat) returns (j: nat)
    requires UniqueIds(rules) && m < |rules| && FixedRules(ops) && n < |ops|
    requires Fired in ReportOf(rules, resolveAfter, ops, Key(host, rules[m].id), n)
    ensures j <= n && Spell(rules[m], host, ops, j, n, true, rules[m].hold)
  {
    hide ReportOf, ObsOfAll, EventAt, Only, Spell, UniqueIds, FixedRules;
    ReportIsEvent(rules, resolveAfter, ops, m, host, n);
    j := FiringIsJustified(rules[m].hold, resolveAfter, ObsOfAll(rules[m], host, ops), n);
    SpellIs(rules[m], host, ops, j, n, true, rules[m].hold);
  }

  /** Whenever it reports a resolved alert, they have been clear for the settle time with no
      breach between. */
  lemma ResolvedReportIsJustified(rules: seq<Rule>, resolveAfter: int, ops: seq<Fleet.Op>, m: nat, host: string, n: nat) returns (j: nat)
    requires UniqueIds(rules) && m < |rules| && FixedRules(ops) && n < |ops|
    requires Settled in ReportOf(rules, resolveAfter, ops, Key(host, rules[m].id), n)
    ensures j <= n && Spell(rules[m], host, ops, j, n, false, resolveAfter)
  {
    hide ReportOf, ObsOfAll, EventAt, Only, Spell, UniqueIds, FixedRules;
    ReportIsEvent(rules, resolveAfter, ops, m, host, n);
    j := ResolvingIsJustified(rules[m].hold, resolveAfter, ObsOfAll(rules[m], host, ops), n);
    SpellIs(rules[m], host, ops, j, n, false, resolveAfter);
  }

  lemma ChronologicalObs(r: Rule, host: string, ops: seq<Fleet.Op>)
    requires Fleet.InOrder(ops)
    ensures Chronological(ObsOfAll(r, host, ops))
  {
    hide MetricValue, Matches;
  }

  /** Conversely, after samples have breached for the hold time the alert is firing. */
  lemma HeldBreachIsFiring(rules: seq<Rule>, resolveAfter: int, ops: seq<Fleet.Op>, m: nat, host: string, j: nat, n: nat)
    requires UniqueIds(rules) && m < |rules| && FixedRules(ops) && Fleet.InOrder(ops)
    requires j <= n < |ops| && Spell(rules[m], host, ops, j, n, true, rules[m].hold)
    ensures var alert := AlertAfter(rules, resolveAfter, ops, Key(host, rules[m].id), n + 1);
            alert.Some? && alert.value.state == Firing
  {
    hide ObsOfAll, Only, Spell, UniqueIds, FixedRules, Chronological, Fleet.InOrder;
    var r, obs, k := rules[m], ObsOfAll(rules[m], host, ops), Key(host, rules[m].id);
    SpellIs(r, host, ops, j, n, true, r.hold);
    ChronologicalObs(r, host, ops);
    HeldBreachFires(r.hold, resolveAfter, obs, j, n);
    RunAt(rules, resolveAfter, ops, m, host, n + 1);
    KeptStates(Fleet.Run(Fleet.State(rules, map[], resolveAfter), ops[..n+1]).0.active, k);
  }

  lemma KeptStates(active: Active, k: Key)
    requires WellKept(active)
    ensures var a := Lookup(active, k);
            && (PhaseOf(a).Alight? <==> a.Some? && a.value.state == Firing)
            && (PhaseOf(a).Idle? <==> a.None?)
  {}

  /** And after they have been clear for the settle time there is no alert. */
  lemma HeldClearIsGone(rules: seq<Rule>, resolveAfter: int, ops: seq<Fleet.Op>, m: nat, host: string, j: nat, n: nat)
    requires UniqueIds(rules) && m < |rules| && FixedRules(ops) && Fleet.InOrder(ops)
    requires j <= n < |ops| && Spell(rules[m], host, ops, j, n, false, resolveAfter)
    ensures AlertAfter(rules, resolveAfter, ops, Key(host, rules[m].id), n + 1).None?
  {
    hide ObsOfAll, Only, Spell, UniqueIds, FixedRules, Chronological, Fleet.InOrder;
    var r, obs, k := rules[m], ObsOfAll(rules[m], host, ops), Key(host, rules[m].id);
    SpellIs(r, host, ops, j, n, false, resolveAfter);
    ChronologicalObs(r, host, ops);
    HeldClearResolves(r.hold, resolveAfter, obs, j, n);
    RunAt(rules, resolveAfter, ops, m, host, n + 1);
    KeptStates(Fleet.Run(Fleet.State(rules, map[], resolveAfter), ops[..n+1]).0.active, k);
  }

  lemma {:induction false} EventsCount(hold: int, resolveAfter: int, obs: seq<Obs>, a: nat, b: nat)
    requires a <= b <= |obs|
    ensures |Events(hold, resolveAfter, obs, b)| ==
            |Events(hold, resolveAfter, obs, a)| + Count(Fired, hold, resolveAfter, obs, a, b) + Count(Settled, hold, resolveAfter, obs, a, b)
    decreases b
  {
    if a == b {
    } else {
      EventsCount(hold, resolveAfter, obs, a, b - 1);
      hide EventAt;
    }
  }

  /** The samples of operations a..b lie between t0 and t1. */
  ghost predicate SamplesWithin(ops: seq<Fleet.Op>, a: nat, b: nat, t0: int, t1: int)
    requires b <= |ops|
  {
    forall i :: a <= i < b && ops[i].Sample? ==> t0 <= ops[i].now <= t1
  }

  lemma WindowObs(r: Rule, host: string, ops: seq<Fleet.Op>, a: nat, b: nat, t0: int, t1: int)
    requires b <= |ops| && SamplesWithin(ops, a, b, t0, t1)
    ensures |ObsOfAll(r, host, ops[..b])| == b && NotBefore(ObsOfAll(r, host, ops[..b]), a, t0)
    ensures InWindow(ObsOfAll(r, host, ops[..b]), a, b, t0, t1)
  {
    hide MetricValue, Matches;
  }

  /** The number of transitions reported for one (host, rule) during operations a..b. */
  ghost function ReportedDuring(rules: seq<Rule>, resolveAfter: int, ops: seq<Fleet.Op>, k: Key, a: nat, b: nat): int
    requires a <= b <= |ops|
  {
    var initial := Fleet.State(rules, map[], resolveAfter);
    |EventsFor(Fleet.Run(initial, ops[..b]).1, k)| - |EventsFor(Fleet.Run(initial, ops[..a]).1, k)|
  }

  /** Whatever the samples do, the evaluator reports at most two transitions of one (host, rule)
      in a window of length T, and two more for every hold plus settle time in it. */
  lemma ReportsBound(rules: seq<Rule>, resolveAfter: int, ops: seq<Fleet.Op>, m: nat, host: string, a: nat, b: nat, t0: int, t1: int)
    requires UniqueIds(rules) && m < |rules| && FixedRules(ops) && Fleet.InOrder(ops)
    requires a <= b <= |ops| && SamplesWithin(ops, a, b, t0, t1) && t0 <= t1
    requires 0 <= rules[m].hold && 0 <= resolveAfter && 0 < rules[m].hold + resolveAfter
    ensures ReportedDuring(rules, resolveAfter, ops, Key(host, rules[m].id), a, b)
            <= 2 + 2 * ((t1 - t0) / (rules[m].hold + resolveAfter))
  {
    hide ObsOfAll, UniqueIds, FixedRules, Chronological, Fleet.InOrder, SamplesWithin, NotBefore, InWindow, Count, Events, EventsFor, Fleet.Run,
         PhaseAt, PhaseOf, WellKept, Lookup;
    var r, front, obs := rules[m], ops[..b], ObsOfAll(rules[m], host, ops[..b]);
    FrontOfRun(ops, a, b);
    WindowObs(r, host, ops, a, b, t0, t1);
    ChronologicalObs(r, host, front);
    FlapBound(r.hold, resolveAfter, obs, a, b, t0, t1);
    EventsCount(r.hold, resolveAfter, obs, a, b);
    RunAt(rules, resolveAfter, front, m, host, a);
    RunAt(rules, resolveAfter, front, m, host, b);
  }

  lemma FrontOfRun(ops: seq<Fleet.Op>, a: nat, b: nat)
    requires FixedRules(ops) && Fleet.InOrder(ops) && a <= b <= |ops|
    ensures FixedRules(ops[..b]) && Fleet.InOrder(ops[..b]) && ops[..b][..b] == ops[..b] && ops[..b][..a] == ops[..a]
  {}
}
