/** What a reported transition says is so: over every run of the evaluator, the times, the
    value and the rule it carries are those of the samples that caused it. */
module Reports {
  import opened Common
  import opened Alerting
  import Fleet

  /** What a tracked alert says of itself, at a moment no earlier than its last sample. */
  ghost predicate Recorded(k: Key, a: Alert, now: int) {
    && a.hostId == k.host && a.ruleId == k.rule
    && a.resolvedAt.None? && a.startedAt <= now
    && match a.state
       case Pending => a.firedAt.None? && a.clearSince.None?
       case Firing =>
         && a.firedAt.Some? && a.startedAt <= a.firedAt.value <= now
         && (a.clearSince.Some? ==> a.firedAt.value <= a.clearSince.value <= now)
       case Resolved => false
  }

  ghost predicate AllRecorded(active: Active, now: int) {
    forall k :: k in active ==> Recorded(k, active[k], now)
  }

  /** Rule r and the sample s are why alert a is reported now. */
  ghost predicate Grounds(a: Alert, r: Rule, resolveAfter: int, s: SystemState, now: int) {
    && r.enabled && MetricValue(s, r.metric) == Some(a.value)
    && a.hostId == s.hostId && a.ruleId == r.id
    && a.firedAt.Some? && a.startedAt <= a.firedAt.value <= now
    && match a.state
       case Pending => false
       case Firing =>
         && Matches(r, a.value) && a.firedAt == Some(now) && now - a.startedAt >= r.hold
         && a.clearSince.None? && a.resolvedAt.None? && a.hostname == s.hostname
       case Resolved =>
         && !Matches(r, a.value) && a.resolvedAt == Some(now)
         && a.clearSince.Some? && a.firedAt.value <= a.clearSince.value && now - a.clearSince.value >= resolveAfter
  }

  ghost predicate Grounded(a: Alert, rules: seq<Rule>, resolveAfter: int, s: SystemState, now: int) {
    exists i :: 0 <= i < |rules| && Grounds(a, rules[i], resolveAfter, s, now)
  }

  lemma EvalRuleGrounded(r: Rule, resolveAfter: int, existing: Option<Alert>, s: SystemState, value: real, now: int)
    requires r.enabled && MetricValue(s, r.metric) == Some(value)
    requires existing.Some? ==> Recorded(Key(s.hostId, r.id), existing.value, now)
    ensures var (after, transitions) := EvalRule(r, resolveAfter, existing, s, value, now);
            && (after.Some? ==> Recorded(Key(s.hostId, r.id), after.value, now))
            && forall a :: a in transitions ==> Grounds(a, r, resolveAfter, s, now)
  {
    hide Matches, MetricValue;
  }

  lemma {:induction false} EvalRulesGrounded(rules: seq<Rule>, resolveAfter: int, active: Active, s: SystemState, now: int)
    requires AllRecorded(active, now)
    ensures var (after, transitions) := EvalRules(rules, resolveAfter, active, s, now);
            && AllRecorded(after, now)
            && forall a :: a in transitions ==> Grounded(a, rules, resolveAfter, s, now)
  {
    if |rules| == 0 {
    } else {
      var n := |rules| - 1;
      var r, value := rules[n], MetricValue(s, rules[n].metric);
      EvalRulesGrounded(rules[..n], resolveAfter, active, s, now);
      var (before, first) := EvalRules(rules[..n], resolveAfter, active, s, now);
      hide Recorded, Grounds, EvalRule, MetricValue;
      forall a | a in first
        ensures Grounded(a, rules, resolveAfter, s, now)
      {
        var i :| 0 <= i < n && Grounds(a, rules[..n][i], resolveAfter, s, now);
        assert Grounds(a, rules[i], resolveAfter, s, now);
      }
      if r.enabled && value.Some? {
        EvalRuleGrounded(r, resolveAfter, Lookup(before, Key(s.hostId, r.id)), s, value.value, now);
      }
    }
  }

  ghost predicate Until(ops: seq<Fleet.Op>, t: int) {
    forall i :: 0 <= i < |ops| && ops[i].Sample? ==> ops[i].now <= t
  }

  lemma RecordedLater(active: Active, then': int, now: int)
    requires AllRecorded(active, then') && then' <= now
    ensures AllRecorded(active, now)
  {}

  lemma {:induction false} RunRecorded(rules: seq<Rule>, resolveAfter: int, ops: seq<Fleet.Op>, t: int)
    requires Fleet.InOrder(ops) && Until(ops, t)
    ensures AllRecorded(Fleet.Run(Fleet.State(rules, map[], resolveAfter), ops).0.active, t)
  {
    if |ops| == 0 {
    } else {
      var n := |ops| - 1;
      var before := Fleet.Run(Fleet.State(rules, map[], resolveAfter), ops[..n]).0;
      if ops[n].Sample? {
        RunRecorded(rules, resolveAfter, ops[..n], ops[n].now);
        EvalRulesGrounded(before.rules, before.resolveAfter, before.active, ops[n].state, ops[n].now);
        RecordedLater(Fleet.Next(before, ops[n]).0.active, ops[n].now, t);
      } else {
        RunRecorded(rules, resolveAfter, ops[..n], t);
      }
    }
  }

  /** After any run, with rules reloaded, alerts acknowledged and hosts forgotten at will,
      everything reported for the next sample is grounded in it and in a rule then in force. */
  lemma ReportsAreGrounded(rules: seq<Rule>, resolveAfter: int, ops: seq<Fleet.Op>, s: SystemState, now: int)
    requires Fleet.InOrder(ops) && Until(ops, now)
    ensures var before := Fleet.Run(Fleet.State(rules, map[], resolveAfter), ops).0;
            forall a :: a in Fleet.Next(before, Fleet.Sample(s, now)).1 ==>
              Grounded(a, before.rules, before.resolveAfter, s, now)
  {
    RunRecorded(rules, resolveAfter, ops, now);
    var before := Fleet.Run(Fleet.State(rules, map[], resolveAfter), ops).0;
    EvalRulesGrounded(before.rules, before.resolveAfter, before.active, s, now);
  }

  // ---- what an alert carries ----

  /** The alert names the rule as it was. */
  ghost predicate Describes(a: Alert, r: Rule) {
    && a.ruleId == r.id && a.ruleName == r.name && a.metric == r.metric
    && a.severity == r.severity && a.threshold == r.threshold
  }

  ghost predicate Described(a: Alert, rules: seq<Rule>) {
    exists i :: 0 <= i < |rules| && Describes(a, rules[i])
  }

  /** What one sample of the host makes of an alert: the value is the sample's, a new alert
      starts now and is not acknowledged, and an old one stays the same activation. */
  ghost predicate Continues(before: Option<Alert>, after: Alert, value: real, now: int) {
    && after.value == value
    && (before.None? ==> after.startedAt == now && !after.acknowledged)
    && (before.Some? ==>
          var b := before.value;
          && after.startedAt == b.startedAt && after.acknowledged == b.acknowledged
          && after.ruleId == b.ruleId && after.ruleName == b.ruleName && after.metric == b.metric
          && after.severity == b.severity && after.threshold == b.threshold && after.hostId == b.hostId)
  }

  lemma EvalRuleContinues(r: Rule, resolveAfter: int, existing: Option<Alert>, s: SystemState, value: real, now: int)
    ensures var (after, transitions) := EvalRule(r, resolveAfter, existing, s, value, now);
            && (after.Some? ==> Continues(existing, after.value, value, now))
            && (after.Some? && existing.None? ==> Describes(after.value, r) && after.value.hostId == s.hostId && after.value.hostname == s.hostname)
            && forall a :: a in transitions ==>
                 Continues(existing, a, value, now) && (existing.None? ==> Describes(a, r) && a.hostname == s.hostname)
  {
    hide Matches;
  }

  ghost predicate AllDescribed(active: Active, past: seq<Rule>) {
    forall k :: k in active ==> Described(active[k], past)
  }

  lemma ApplyRuleDescribed(r: Rule, resolveAfter: int, active: Active, s: SystemState, now: int, past: seq<Rule>)
    requires AllDescribed(active, past) && r in past
    ensures var (after, transitions) := ApplyRule(r, resolveAfter, active, s, now);
            AllDescribed(after, past) && forall a :: a in transitions ==> Described(a, past)
  {
    var k, value := Key(s.hostId, r.id), MetricValue(s, r.metric);
    hide EvalRule, MetricValue;
    if r.enabled && value.Some? {
      var existing := Lookup(active, k);
      EvalRuleContinues(r, resolveAfter, existing, s, value.value, now);
      forall a | existing.None? && Describes(a, r)
        ensures Described(a, past)
      {
        var i :| 0 <= i < |past| && past[i] == r;
      }
      forall a: Alert | existing.Some? && Continues(existing, a, value.value, now)
        ensures Described(a, past)
      {
        var i :| 0 <= i < |past| && Describes(existing.value, past[i]);
        assert Describes(a, past[i]);
      }
    }
  }

  lemma {:induction false} EvalRulesDescribed(rules: seq<Rule>, resolveAfter: int, active: Active, s: SystemState, now: int, past: seq<Rule>)
    requires AllDescribed(active, past) && forall r :: r in rules ==> r in past
    ensures var (after, transitions) := EvalRules(rules, resolveAfter, active, s, now);
            AllDescribed(after, past) && forall a :: a in transitions ==> Described(a, past)
  {
    if |rules| == 0 {
    } else {
      var n := |rules| - 1;
      hide ApplyRule, AllDescribed, Described;
      EvalRulesDescribed(rules[..n], resolveAfter, active, s, now, past);
      ApplyRuleDescribed(rules[n], resolveAfter, EvalRules(rules[..n], resolveAfter, active, s, now).0, s, now, past);
    }
  }

  /** Every rule that has been in force. */
  ghost function InForce(rules: seq<Rule>, ops: seq<Fleet.Op>): seq<Rule> {
    if |ops| == 0 then rules else
      InForce(rules, ops[..|ops|-1]) + if ops[|ops|-1].Reload? then ops[|ops|-1].rules else []
  }

  lemma MorePast(active: Active, past: seq<Rule>, more: seq<Rule>)
    ensures AllDescribed(active, past) ==> AllDescribed(active, past + more)
    ensures forall a :: Described(a, past) ==> Described(a, past + more)
  {
    forall a | Described(a, past)
      ensures Described(a, past + more)
    {
      var i :| 0 <= i < |past| && Describes(a, past[i]);
      assert (past + more)[i] == past[i];
    }
    hide Described;
  }

  /** Over every run everything tracked or reported names its rule, metric, severity and
      threshold as some rule that has been in force has them. */
  lemma {:induction false} RunDescribed(rules: seq<Rule>, resolveAfter: int, ops: seq<Fleet.Op>)
    ensures var (s, transitions) := Fleet.Run(Fleet.State(rules, map[], resolveAfter), ops);
            && (forall r :: r in s.rules ==> r in InForce(rules, ops))
            && AllDescribed(s.active, InForce(rules, ops))
            && forall a :: a in transitions ==> Described(a, InForce(rules, ops))
  {
    if |ops| == 0 {
    } else {
      var n := |ops| - 1;
      RunDescribed(rules, resolveAfter, ops[..n]);
      var before, past := Fleet.Run(Fleet.State(rules, map[], resolveAfter), ops[..n]), InForce(rules, ops[..n]);
      hide Described, Fleet.Run, EvalRules;
      assert Fleet.Run(Fleet.State(rules, map[], resolveAfter), ops) == (Fleet.Next(before.0, ops[n]).0, before.1 + Fleet.Next(before.0, ops[n]).1) by {
        RunSnoc(Fleet.State(rules, map[], resolveAfter), ops);
      }
      MorePast(before.0.active, past, if ops[n].Reload? then ops[n].rules else []);
      NextDescribed(before.0, ops[n], past);
    }
  }

  lemma RunSnoc(s: Fleet.State, ops: seq<Fleet.Op>)
    requires |ops| > 0
    ensures var n := |ops| - 1;
            var before := Fleet.Run(s, ops[..n]);
            Fleet.Run(s, ops) == (Fleet.Next(before.0, ops[n]).0, before.1 + Fleet.Next(before.0, ops[n]).1)
  {
    hide Fleet.Next;
  }

  lemma NextDescribed(s: Fleet.State, op: Fleet.Op, past: seq<Rule>)
    requires AllDescribed(s.active, past) && forall r :: r in s.rules ==> r in past
    ensures AllDescribed(Fleet.Next(s, op).0.active, past)
    ensures forall a :: a in Fleet.Next(s, op).1 ==> Described(a, past)
  {
    if op.Sample? {
      hide Described, AllDescribed;
      EvalRulesDescribed(s.rules, s.resolveAfter, s.active, op.state, op.now, past);
    }
  }
}
