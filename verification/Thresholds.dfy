/** What the evaluator takes for a breach, said of the numbers themselves: when a sample is
    beyond a rule's threshold, and what follows for whole runs. */
module Thresholds {
  import opened Common
  import opened Alerting
  import opened Timeline
  import Fleet

  /** The value lies beyond the threshold in the comparator's sense. */
  ghost predicate Beyond(op: Comparator, value: real, threshold: real) {
    || (threshold < value && (op == GreaterThan || op == GreaterThanEqual))
    || (threshold == value && (op == GreaterThanEqual || op == LessThanEqual))
    || (value < threshold && (op == LessThan || op == LessThanEqual))
  }

  lemma MatchesIff(r: Rule, value: real)
    ensures Matches(r, value) <==> Beyond(r.op, value, r.threshold)
  {}

  /** More of a reading keeps an upper limit broken and less of it a lower one; at the
      threshold only the two "or equal" comparators match; and the strict ones are the
      negations of the others. */
  lemma ComparatorLaws(r: Rule, v: real, w: real)
    requires v <= w
    ensures r.op == GreaterThan || r.op == GreaterThanEqual ==> (Matches(r, v) ==> Matches(r, w))
    ensures r.op == LessThan || r.op == LessThanEqual ==> (Matches(r, w) ==> Matches(r, v))
    ensures Matches(r, r.threshold) <==> r.op == GreaterThanEqual || r.op == LessThanEqual
    ensures Matches(r.(op := GreaterThan), v) <==> !Matches(r.(op := LessThanEqual), v)
    ensures Matches(r.(op := LessThan), v) <==> !Matches(r.(op := GreaterThanEqual), v)
    ensures Matches(r.(op := GreaterThan), v) <==> r.threshold < v
    ensures Matches(r.(op := LessThan), v) <==> v < r.threshold
  {}

  /** Value v is what the sample reads on the metric: a percentage of its own total, the
      fullest usable filesystem, a temperature above zero. */
  ghost predicate Reads(s: SystemState, m: Metric, v: real) {
    match m
    case CpuUsage => v == s.cpuUsage
    case MemoryPercent => 0 < s.memoryTotal && v * s.memoryTotal as real == s.memoryUsed as real * 100.0
    case SwapPercent => 0 < s.swapTotal && v * s.swapTotal as real == s.swapUsed as real * 100.0
    case DiskPercent => IsWorst(s.filesystems, v)
    case LoadAvg1 => v == s.load1
    case LoadAvg5 => v == s.load5
    case LoadAvg15 => v == s.load15
    case Temperature => v == s.temperature && 0.0 < v
    case UnknownMetric => false
  }

  /** No usable filesystem is fuller, and one is as full or all are below zero. */
  ghost predicate IsWorst(fs: seq<Filesystem>, v: real) {
    && (exists i :: 0 <= i < |fs| && fs[i].totalBytes != 0)
    && 0.0 <= v && (forall i :: 0 <= i < |fs| && fs[i].totalBytes != 0 ==> fs[i].usedPercent <= v)
    && (v == 0.0 || exists i :: 0 <= i < |fs| && fs[i].totalBytes != 0 && fs[i].usedPercent == v)
  }

  lemma {:induction false} WorstDiskIsWorst(fs: seq<Filesystem>)
    ensures WorstDisk(fs).Some? <==> exists i :: 0 <= i < |fs| && fs[i].totalBytes != 0
    ensures WorstDisk(fs).Some? ==> IsWorst(fs, WorstDisk(fs).value)
  {
    if |fs| > 0 {
      var front := fs[..|fs|-1];
      WorstDiskIsWorst(front);
      assert forall i :: 0 <= i < |front| ==> front[i] == fs[i];
    }
  }

  lemma OneWorst(fs: seq<Filesystem>, v: real, w: real)
    requires IsWorst(fs, v) && IsWorst(fs, w)
    ensures v == w
  {}

  lemma PercentIff(used: nat, total: nat, v: real)
    ensures Percent(used, total) == Some(v) <==> 0 < total && v * total as real == used as real * 100.0
  {
    if total > 0 { Quotients(used as real, total as real, v); }
  }

  lemma Quotients(u: real, t: real, v: real)
    requires t > 0.0
    ensures u / t * 100.0 == v <==> v * t == u * 100.0
  {
    var q := u / t;
    assert q * t == u;
    Scaled(q, t);
    if v * t == u * 100.0 { Cancel(v, q * 100.0, t); }
  }

  lemma Scaled(q: real, t: real)
    ensures q * 100.0 * t == q * t * 100.0
  {}

  lemma Cancel(a: real, b: real, t: real)
    requires t > 0.0 && a * t == b * t
    ensures a == b
  {
    assert (a - b) * t == 0.0;
  }

  lemma MetricValueIff(s: SystemState, m: Metric, v: real)
    ensures MetricValue(s, m) == Some(v) <==> Reads(s, m, v)
  {
    hide Percent, WorstDisk, IsWorst;
    match m
    case MemoryPercent => PercentIff(s.memoryUsed, s.memoryTotal, v);
    case SwapPercent => PercentIff(s.swapUsed, s.swapTotal, v);
    case DiskPercent => DiskIff(s.filesystems, v);
    case _ =>
  }

  lemma DiskIff(fs: seq<Filesystem>, v: real)
    ensures WorstDisk(fs) == Some(v) <==> IsWorst(fs, v)
  {
    WorstDiskIsWorst(fs);
    if IsWorst(fs, v) { OneWorst(fs, v, WorstDisk(fs).value); }
  }

  // ---- samples ----

  /** A sample of the host that the rule looks at and that reads v. */
  ghost predicate Shows(r: Rule, host: string, op: Fleet.Op, v: real) {
    op.Sample? && op.state.hostId == host && r.enabled && Reads(op.state, r.metric, v)
  }

  lemma SampleOfIff(r: Rule, host: string, op: Fleet.Op, breaching: bool)
    ensures SampleOf(r, host, op, breaching) <==>
              exists v :: Shows(r, host, op, v) && Beyond(r.op, v, r.threshold) == breaching
  {
    hide MetricValue, Reads, Beyond, Matches;
    if op.Sample? && MetricValue(op.state, r.metric).Some? {
      var v := MetricValue(op.state, r.metric).value;
      MetricValueIff(op.state, r.metric, v);
      MatchesIff(r, v);
      assert Reads(op.state, r.metric, v);
    }
    if op.Sample? {
      forall v | Reads(op.state, r.metric, v)
        ensures MetricValue(op.state, r.metric) == Some(v)
      {
        MetricValueIff(op.state, r.metric, v);
      }
    }
  }

  // ---- whole runs ----

  /** Whenever the host's samples read beyond the threshold from sample j to sample n, for at
      least the rule's hold time, the alert is firing after n. */
  lemma SustainedBreachFires(rules: seq<Rule>, resolveAfter: int, ops: seq<Fleet.Op>, m: nat, host: string, j: nat, n: nat)
    requires UniqueIds(rules) && m < |rules| && FixedRules(ops) && Fleet.InOrder(ops) && j <= n < |ops|
    requires (exists v :: Shows(rules[m], host, ops[j], v)) && (exists v :: Shows(rules[m], host, ops[n], v))
    requires forall i, v :: j <= i <= n && Shows(rules[m], host, ops[i], v) ==> Beyond(rules[m].op, v, rules[m].threshold)
    requires ops[j].Sample? && ops[n].Sample? && ops[n].now - ops[j].now >= rules[m].hold
    ensures var alert := AlertAfter(rules, resolveAfter, ops, Key(host, rules[m].id), n + 1);
            alert.Some? && alert.value.state == Firing
  {
    hide AlertAfter, Shows, Beyond, UniqueIds, FixedRules, Fleet.InOrder, SampleOf;
    forall i, breaching | j <= i <= n
      ensures SampleOf(rules[m], host, ops[i], breaching) <==>
                exists v :: Shows(rules[m], host, ops[i], v) && Beyond(rules[m].op, v, rules[m].threshold) == breaching
    {
      SampleOfIff(rules[m], host, ops[i], breaching);
    }
    assert Spell(rules[m], host, ops, j, n, true, rules[m].hold);
    HeldBreachIsFiring(rules, resolveAfter, ops, m, host, j, n);
  }

  /** The rules with the alert's id read nothing beyond their thresholds in this sample. */
  ghost predicate Quiet(rules: seq<Rule>, k: Key, op: Fleet.Op) {
    forall i, v :: 0 <= i < |rules| && rules[i].id == k.rule && Shows(rules[i], k.host, op, v) ==>
      !Beyond(rules[i].op, v, rules[i].threshold)
  }

  lemma {:induction false} EvalRulesQuiet(rules: seq<Rule>, resolveAfter: int, active: Active, s: SystemState, now: int, k: Key)
    requires WellKept(active) && k !in active && Quiet(rules, k, Fleet.Sample(s, now))
    ensures var (after, transitions) := EvalRules(rules, resolveAfter, active, s, now);
            WellKept(after) && k !in after && EventsFor(transitions, k) == []
  {
    if |rules| == 0 {
    } else {
      var n, op := |rules| - 1, Fleet.Sample(s, now);
      var r := rules[n];
      QuietFront(rules, k, op);
      EvalRulesQuiet(rules[..n], resolveAfter, active, s, now, k);
      var before := EvalRules(rules[..n], resolveAfter, active, s, now);
      ApplyRuleSteps(r, resolveAfter, before.0, s, now, k);
      if r.id == k.rule {
        SampleOfIff(r, k.host, op, true);
        KindOfSample(r, k.host, op);
      }
      EventsForAppend(before.1, ApplyRule(r, resolveAfter, before.0, s, now).1, k);
      hide ApplyRule, EventsFor, Quiet, SampleOf, ObsOf, Shows, Beyond, WellKept;
      KeptStates(ApplyRule(r, resolveAfter, before.0, s, now).0, k);
    }
  }

  lemma QuietFront(rules: seq<Rule>, k: Key, op: Fleet.Op)
    requires |rules| > 0 && Quiet(rules, k, op)
    ensures Quiet(rules[..|rules|-1], k, op)
    ensures var r := rules[|rules|-1];
            r.id == k.rule ==> !exists v :: Shows(r, k.host, op, v) && Beyond(r.op, v, r.threshold)
  {
    hide Shows, Beyond;
  }

  /** A run whose samples of a host never read beyond the threshold of a rule in force reports
      nothing for that rule and host and tracks nothing, with rules reloaded at will. */
  lemma {:induction false} QuietRunIsSilent(rules: seq<Rule>, resolveAfter: int, ops: seq<Fleet.Op>, k: Key)
    requires forall n :: 0 <= n < |ops| && ops[n].Sample? ==>
               Quiet(Fleet.Run(Fleet.State(rules, map[], resolveAfter), ops[..n]).0.rules, k, ops[n])
    ensures var (s, transitions) := Fleet.Run(Fleet.State(rules, map[], resolveAfter), ops);
            WellKept(s.active) && k !in s.active && EventsFor(transitions, k) == []
  {
    if |ops| == 0 {
    } else {
      var n := |ops| - 1;
      hide Quiet, EventsFor, WellKept, Fleet.Next;
      forall i | 0 <= i < n && ops[i].Sample?
        ensures Quiet(Fleet.Run(Fleet.State(rules, map[], resolveAfter), ops[..n][..i]).0.rules, k, ops[i])
      {
        assert ops[..n][..i] == ops[..i];
      }
      QuietRunIsSilent(rules, resolveAfter, ops[..n], k);
      var before := Fleet.Run(Fleet.State(rules, map[], resolveAfter), ops[..n]);
      QuietStep(before.0, ops[n], k);
      EventsForAppend(before.1, Fleet.Next(before.0, ops[n]).1, k);
    }
  }

  lemma QuietStep(s: Fleet.State, op: Fleet.Op, k: Key)
    requires WellKept(s.active) && k !in s.active && (op.Sample? ==> Quiet(s.rules, k, op))
    ensures var (after, transitions) := Fleet.Next(s, op);
            WellKept(after.active) && k !in after.active && EventsFor(transitions, k) == []
  {
    hide Quiet, EventsFor, EvalRules;
    NothingReported(k);
    if op.Sample? { EvalRulesQuiet(s.rules, s.resolveAfter, s.active, op.state, op.now, k); }
  }

  lemma NothingReported(k: Key)
    ensures EventsFor([], k) == []
  {}

  // ---- the rule every installation starts with ----

  const CPU_HIGH := Rule("cpu-high", "CPU sustained high", CpuUsage, GreaterThan, 90.0, 300_000_000_000, "warning", true)

  /** If a host's CPU never reads above 90, no CPU alert is ever reported for it. */
  lemma CpuBelowIsSilent(resolveAfter: int, ops: seq<Fleet.Op>, host: string)
    requires FixedRules(ops)
    requires forall n :: 0 <= n < |ops| && ops[n].Sample? && ops[n].state.hostId == host ==> ops[n].state.cpuUsage <= 90.0
    ensures EventsFor(Fleet.Run(Fleet.State([CPU_HIGH], map[], resolveAfter), ops).1, Key(host, "cpu-high")) == []
  {
    hide Quiet, EventsFor, Fleet.Run;
    forall n | 0 <= n < |ops| && ops[n].Sample?
      ensures Quiet(Fleet.Run(Fleet.State([CPU_HIGH], map[], resolveAfter), ops[..n]).0.rules, Key(host, "cpu-high"), ops[n])
    {
      FixedStay([CPU_HIGH], resolveAfter, ops[..n]);
      CpuQuiet(ops[n], host);
    }
    QuietRunIsSilent([CPU_HIGH], resolveAfter, ops, Key(host, "cpu-high"));
  }

  lemma CpuQuiet(op: Fleet.Op, host: string)
    requires op.Sample? && op.state.hostId == host ==> op.state.cpuUsage <= 90.0
    ensures Quiet([CPU_HIGH], Key(host, "cpu-high"), op)
  {}

  lemma {:induction false} FixedStay(rules: seq<Rule>, resolveAfter: int, ops: seq<Fleet.Op>)
    requires FixedRules(ops)
    ensures Fleet.Run(Fleet.State(rules, map[], resolveAfter), ops).0.rules == rules
  {
    if |ops| > 0 { FixedStay(rules, resolveAfter, ops[..|ops|-1]); }
  }

  /** If it reads above 90 for five minutes, the alert is firing. */
  lemma CpuAboveFires(resolveAfter: int, ops: seq<Fleet.Op>, host: string, j: nat, n: nat)
    requires FixedRules(ops) && Fleet.InOrder(ops) && j <= n < |ops|
    requires ops[j].Sample? && ops[n].Sample? && ops[j].state.hostId == host == ops[n].state.hostId
    requires forall i :: j <= i <= n && ops[i].Sample? && ops[i].state.hostId == host ==> 90.0 < ops[i].state.cpuUsage
    requires ops[n].now - ops[j].now >= 5 * 60 * 1_000_000_000
    ensures var alert := AlertAfter([CPU_HIGH], resolveAfter, ops, Key(host, "cpu-high"), n + 1);
            alert.Some? && alert.value.state == Firing
  {
    hide AlertAfter, FixedRules, Fleet.InOrder;
    var rules := [CPU_HIGH];
    assert Shows(rules[0], host, ops[j], ops[j].state.cpuUsage) && Shows(rules[0], host, ops[n], ops[n].state.cpuUsage);
    SustainedBreachFires(rules, resolveAfter, ops, 0, host, j, n);
  }
}
