/** Non-interference: what the evaluator does for one host of a fleet does not depend on
    what it is told about the others. */
module Fleet {
  import opened Common
  import opened Alerting

  datatype State = State(rules: seq<Rule>, active: Active, resolveAfter: int)

  /** Everything that happens to an evaluator. */
  datatype Op =
    | Sample(state: SystemState, now: int)
    | Acknowledge(host: string, rule: string)
    | Forget(host: string)
    | Reload(rules: seq<Rule>)
    | SetResolveAfter(resolveAfter: int)

  ghost function Next(s: State, op: Op): (State, seq<Alert>) {
    match op
    case Sample(state, now) =>
      var (active, transitions) := EvalRules(s.rules, s.resolveAfter, s.active, state, now);
      (s.(active := active), transitions)
    case Acknowledge(host, rule) => (s.(active := Acknowledged(s.active, Key(host, rule))), [])
    case Forget(host) => (s.(active := Without(s.active, host)), [])
    case Reload(rules) =>
      (s.(rules := rules, active := map k | k in s.active && k.rule in RuleIds(rules) :: s.active[k]), [])
    case SetResolveAfter(d) => (s.(resolveAfter := if d == 0 then DEFAULT_RESOLVE_AFTER else d), [])
  }

  /** The state and all transitions reported, in order, over a run. */
  ghost function Run(s: State, ops: seq<Op>): (State, seq<Alert>) {
    if |ops| == 0 then (s, []) else
      var (before, first) := Run(s, ops[..|ops|-1]);
      var (after, last) := Next(before, ops[|ops|-1]);
      (after, first + last)
  }

  /** Samples arrive in the order of their times. */
  ghost predicate InOrder(ops: seq<Op>) {
    forall i, j :: 0 <= i < j < |ops| && ops[i].Sample? && ops[j].Sample? ==> ops[i].now <= ops[j].now
  }

  // ---- one host's view ----

  predicate Concerns(op: Op, host: string) {
    match op
    case Sample(state, _) => state.hostId == host
    case Acknowledge(h, _) => h == host
    case Forget(h) => h == host
    case Reload(_) => true
    case SetResolveAfter(_) => true
  }

  ghost function Relevant(ops: seq<Op>, host: string): seq<Op> {
    if |ops| == 0 then [] else
      Relevant(ops[..|ops|-1], host) + if Concerns(ops[|ops|-1], host) then [ops[|ops|-1]] else []
  }

  ghost function ActiveFor(active: Active, host: string): Active {
    map k | k in active && k.host == host :: active[k]
  }

  ghost function TransitionsFor(alerts: seq<Alert>, host: string): seq<Alert> {
    if |alerts| == 0 then [] else
      TransitionsFor(alerts[..|alerts|-1], host)
        + if alerts[|alerts|-1].hostId == host then [alerts[|alerts|-1]] else []
  }

  /** Alerts are filed under the host they are about. */
  ghost predicate Filed(active: Active) {
    forall k :: k in active ==> active[k].hostId == k.host
  }

  lemma {:induction false} TransitionsAppend(a: seq<Alert>, b: seq<Alert>, host: string)
    ensures TransitionsFor(a + b, host) == TransitionsFor(a, host) + TransitionsFor(b, host)
  {
    if |b| == 0 {
      assert a + b == a;
    } else {
      assert (a + b)[..|a + b|-1] == a + b[..|b|-1];
      TransitionsAppend(a, b[..|b|-1], host);
    }
  }

  lemma {:induction false} TransitionsAll(a: seq<Alert>, host: string, mine: bool)
    requires forall i :: 0 <= i < |a| ==> (a[i].hostId == host <==> mine)
    ensures TransitionsFor(a, host) == if mine then a else []
  {
    if |a| == 0 {
    } else {
      TransitionsAll(a[..|a|-1], host, mine);
    }
  }

  /** One rule reads and writes one key of the sample's own host. */
  lemma ApplyRuleLocal(r: Rule, resolveAfter: int, active: Active, s: SystemState, now: int, host: string)
    requires Filed(active)
    ensures var (after, transitions) := ApplyRule(r, resolveAfter, active, s, now);
            && Filed(after)
            && (forall i :: 0 <= i < |transitions| ==> transitions[i].hostId == s.hostId)
            && (s.hostId != host ==> ActiveFor(after, host) == ActiveFor(active, host))
            && (s.hostId == host ==>
                  ApplyRule(r, resolveAfter, ActiveFor(active, host), s, now) == (ActiveFor(after, host), transitions))
  {
    var k, value := Key(s.hostId, r.id), MetricValue(s, r.metric);
    hide EvalRule, MetricValue;
    if r.enabled && value.Some? {
      var existing := Lookup(active, k);
      EvalRuleOfHost(r, resolveAfter, existing, s, value.value, now);
      StoreLocal(active, k, EvalRule(r, resolveAfter, existing, s, value.value, now).0, host);
      hide Store, ActiveFor, Lookup, Filed;
    }
  }

  /** What one rule makes of a host's alert is about that host. */
  lemma EvalRuleOfHost(r: Rule, resolveAfter: int, existing: Option<Alert>, s: SystemState, value: real, now: int)
    requires existing.Some? ==> existing.value.hostId == s.hostId
    ensures var (after, transitions) := EvalRule(r, resolveAfter, existing, s, value, now);
            && (after.Some? ==> after.value.hostId == s.hostId)
            && forall i :: 0 <= i < |transitions| ==> transitions[i].hostId == s.hostId
  {
    hide Matches;
  }

  lemma StoreLocal(active: Active, k: Key, a: Option<Alert>, host: string)
    ensures k.host != host ==> ActiveFor(Store(active, k, a), host) == ActiveFor(active, host)
    ensures k.host == host ==>
              && Lookup(ActiveFor(active, host), k) == Lookup(active, k)
              && ActiveFor(Store(active, k, a), host) == Store(ActiveFor(active, host), k, a)
    ensures Filed(active) && (a.Some? ==> a.value.hostId == k.host) ==> Filed(Store(active, k, a))
    ensures Filed(active) && Lookup(active, k).Some? ==> Lookup(active, k).value.hostId == k.host
  {}

  lemma {:induction false} EvalRulesLocal(rules: seq<Rule>, resolveAfter: int, active: Active, s: SystemState, now: int, host: string)
    requires Filed(active)
    ensures var (after, transitions) := EvalRules(rules, resolveAfter, active, s, now);
            && Filed(after)
            && (forall i :: 0 <= i < |transitions| ==> transitions[i].hostId == s.hostId)
            && (s.hostId != host ==> ActiveFor(after, host) == ActiveFor(active, host))
            && (s.hostId == host ==>
                  EvalRules(rules, resolveAfter, ActiveFor(active, host), s, now) == (ActiveFor(after, host), transitions))
  {
    if |rules| == 0 {
    } else {
      var n := |rules| - 1;
      EvalRulesLocal(rules[..n], resolveAfter, active, s, now, host);
      var before := EvalRules(rules[..n], resolveAfter, active, s, now).0;
      hide ApplyRule, ActiveFor, Filed;
      ApplyRuleLocal(rules[n], resolveAfter, before, s, now, host);
    }
  }

  ghost function View(s: State, host: string): State {
    s.(active := ActiveFor(s.active, host))
  }

  /** An operation about another host is invisible; any other acts on the view as on the whole. */
  lemma NextLocal(s: State, op: Op, host: string)
    requires Filed(s.active)
    ensures Filed(Next(s, op).0.active)
    ensures !Concerns(op, host) ==>
              View(Next(s, op).0, host) == View(s, host) && TransitionsFor(Next(s, op).1, host) == []
    ensures Concerns(op, host) ==>
              && View(Next(s, op).0, host) == Next(View(s, host), op).0
              && TransitionsFor(Next(s, op).1, host) == Next(View(s, host), op).1
  {
    match op
    case Sample(state, now) =>
      EvalRulesLocal(s.rules, s.resolveAfter, s.active, state, now, host);
      var transitions := EvalRules(s.rules, s.resolveAfter, s.active, state, now).1;
      TransitionsAll(transitions, host, state.hostId == host);
      hide EvalRules, ActiveFor, TransitionsFor;
    case Acknowledge(h, rule) =>
      assert h == host ==> ActiveFor(Acknowledged(s.active, Key(h, rule)), host)
                           == Acknowledged(ActiveFor(s.active, host), Key(h, rule));
      assert h != host ==> ActiveFor(Acknowledged(s.active, Key(h, rule)), host) == ActiveFor(s.active, host);
    case Forget(h) =>
      assert h == host ==> ActiveFor(Without(s.active, h), host) == Without(ActiveFor(s.active, host), h);
      assert h != host ==> ActiveFor(Without(s.active, h), host) == ActiveFor(s.active, host);
    case Reload(rules) =>
      assert View(Next(s, op).0, host).active == Next(View(s, host), op).0.active;
    case SetResolveAfter(_) =>
  }

  /** For every interleaving over the whole fleet, the transitions reported and the alerts
      active for a host are those of a run that was told only about that host. */
  lemma {:induction false} NonInterference(rules: seq<Rule>, resolveAfter: int, ops: seq<Op>, host: string)
    ensures var fleet, alone := Run(State(rules, map[], resolveAfter), ops),
                                Run(State(rules, map[], resolveAfter), Relevant(ops, host));
            && TransitionsFor(fleet.1, host) == alone.1
            && View(fleet.0, host) == alone.0
            && Filed(fleet.0.active)
  {
    var start := State(rules, map[], resolveAfter);
    if |ops| == 0 {
      assert ActiveFor(map[], host) == map[];
    } else {
      var n := |ops| - 1;
      NonInterference(rules, resolveAfter, ops[..n], host);
      var before := Run(start, ops[..n]);
      NextLocal(before.0, ops[n], host);
      TransitionsAppend(before.1, Next(before.0, ops[n]).1, host);
      var mine := Relevant(ops[..n], host);
      if Concerns(ops[n], host) {
        assert (mine + [ops[n]])[..|mine|] == mine;
      } else {
        assert mine + [] == mine;
      }
      hide Next, View, TransitionsFor, Filed, Concerns;
    }
  }
}
