/** Alert rules and the evaluator of internal/alerting. One evaluator serves a whole fleet:
    its state is a map from (host, rule id) to the pending or firing alert. */
module Alerting {
  import opened Common

  // ---- rules (rule.go) ----

  datatype Metric =
    | CpuUsage | MemoryPercent | SwapPercent | DiskPercent
    | LoadAvg1 | LoadAvg5 | LoadAvg15 | Temperature | UnknownMetric

  datatype Comparator = GreaterThan | GreaterThanEqual | LessThan | LessThanEqual | UnknownComparator

  datatype Rule = Rule(
    id: string, name: string, metric: Metric, op: Comparator, threshold: real,
    hold: int, severity: string, enabled: bool)

  datatype Filesystem = Filesystem(totalBytes: nat, usedPercent: real)

  /** The fields of a sample that rules can be written against. */
  datatype SystemState = SystemState(
    hostId: string, hostname: string, cpuUsage: real,
    memoryUsed: nat, memoryTotal: nat, swapUsed: nat, swapTotal: nat,
    filesystems: seq<Filesystem>, load1: real, load5: real, load15: real, temperature: real)

  function Percent(used: nat, total: nat): Option<real> {
    if total == 0 then None else Some(used as real / total as real * 100.0)
  }

  /** The fullest usable filesystem; None when there is none. */
  function WorstDisk(fs: seq<Filesystem>): Option<real> {
    if |fs| == 0 then None else
      var before, f := WorstDisk(fs[..|fs|-1]), fs[|fs|-1];
      if f.totalBytes == 0 then before
      else
        var worst := if before.Some? then before.value else 0.0;
        Some(if f.usedPercent > worst then f.usedPercent else worst)
  }

  /** The loop of MetricValue's disk case. */
  method FindWorstDisk(fs: seq<Filesystem>) returns (worst: real, found: bool)
    ensures WorstDisk(fs) == if found then Some(worst) else None
    ensures found <==> exists i :: 0 <= i < |fs| && fs[i].totalBytes != 0
    ensures forall i :: 0 <= i < |fs| && fs[i].totalBytes != 0 ==> fs[i].usedPercent <= worst
    ensures worst == 0.0 || exists i :: 0 <= i < |fs| && fs[i].totalBytes != 0 && fs[i].usedPercent == worst
  {
    worst, found := 0.0, false;
    for n := 0 to |fs|
      invariant WorstDisk(fs[..n]) == if found then Some(worst) else None
      invariant !found ==> worst == 0.0
      invariant found <==> exists i :: 0 <= i < n && fs[i].totalBytes != 0
      invariant forall i :: 0 <= i < n && fs[i].totalBytes != 0 ==> fs[i].usedPercent <= worst
      invariant worst == 0.0 || exists i :: 0 <= i < n && fs[i].totalBytes != 0 && fs[i].usedPercent == worst
    {
      assert fs[..n+1][..n] == fs[..n];
      if fs[n].totalBytes == 0 { continue; }
      found := true;
      if fs[n].usedPercent > worst { worst := fs[n].usedPercent; }
    }
    assert fs[..|fs|] == fs;
  }

  function MetricValue(s: SystemState, m: Metric): Option<real> {
    match m
    case CpuUsage => Some(s.cpuUsage)
    case MemoryPercent => Percent(s.memoryUsed, s.memoryTotal)
    case SwapPercent => Percent(s.swapUsed, s.swapTotal)
    case DiskPercent => WorstDisk(s.filesystems)
    case LoadAvg1 => Some(s.load1)
    case LoadAvg5 => Some(s.load5)
    case LoadAvg15 => Some(s.load15)
    case Temperature => if s.temperature > 0.0 then Some(s.temperature) else None
    case UnknownMetric => None
  }

  predicate Matches(r: Rule, value: real) {
    match r.op
    case GreaterThan => value > r.threshold
    case GreaterThanEqual => value >= r.threshold
    case LessThan => value < r.threshold
    case LessThanEqual => value <= r.threshold
    case UnknownComparator => false
  }

  // ---- alerts ----

  datatype AlertState = Pending | Firing | Resolved

  /** None stands for Go's zero time. */
  datatype Alert = Alert(
    ruleId: string, ruleName: string, metric: Metric, state: AlertState, severity: string,
    value: real, threshold: real, hostId: string, hostname: string,
    startedAt: int, firedAt: Option<int>, resolvedAt: Option<int>,
    acknowledged: bool, clearSince: Option<int>)

  datatype Key = Key(host: string, rule: string)

  type Active = map<Key, Alert>

  /** What one rule makes of one sample with an available value: the alert tracked
      afterwards and the transitions to report. */
  function EvalRule(r: Rule, resolveAfter: int, existing: Option<Alert>, s: SystemState, value: real, now: int)
      : (Option<Alert>, seq<Alert>)
  {
    if Matches(r, value) then
      match existing
      case None =>
        var alert := Alert(r.id, r.name, r.metric, Pending, r.severity, value, r.threshold,
                           s.hostId, s.hostname, now, None, None, false, None);
        if r.hold <= 0 then
          var fired := alert.(state := Firing, firedAt := Some(now));
          (Some(fired), [fired])
        else (Some(alert), [])
      case Some(old') =>
        var alert := old'.(value := value, hostname := s.hostname, clearSince := None);
        if alert.state == Pending && now - alert.startedAt >= r.hold then
          var fired := alert.(state := Firing, firedAt := Some(now));
          (Some(fired), [fired])
        else (Some(alert), [])
    else
      match existing
      case None => (None, [])
      case Some(alert) =>
        if alert.state != Firing then (None, [])
        else
          var clear := if alert.clearSince.None? then alert.(clearSince := Some(now)) else alert;
          if now - clear.clearSince.value < resolveAfter then (Some(clear.(value := value)), [])
          else (None, [clear.(state := Resolved, value := value, resolvedAt := Some(now))])
  }

  function Lookup(active: Active, k: Key): Option<Alert> {
    if k in active then Some(active[k]) else None
  }

  function Store(active: Active, k: Key, a: Option<Alert>): Active {
    if a.Some? then active[k := a.value] else active - {k}
  }

  /** One rule applied to the whole state. */
  function ApplyRule(r: Rule, resolveAfter: int, active: Active, s: SystemState, now: int): (Active, seq<Alert>) {
    var value := MetricValue(s, r.metric);
    if !r.enabled || value.None? then (active, []) else
      var k := Key(s.hostId, r.id);
      var (after, transitions) := EvalRule(r, resolveAfter, Lookup(active, k), s, value.value, now);
      (Store(active, k, after), transitions)
  }

  /** Every rule in order, collecting the transitions. */
  function EvalRules(rules: seq<Rule>, resolveAfter: int, active: Active, s: SystemState, now: int): (Active, seq<Alert>) {
    if |rules| == 0 then (active, []) else
      var (before, first) := EvalRules(rules[..|rules|-1], resolveAfter, active, s, now);
      var (after, last) := ApplyRule(rules[|rules|-1], resolveAfter, before, s, now);
      (after, first + last)
  }

  function RuleIds(rules: seq<Rule>): set<string> {
    set i | 0 <= i < |rules| :: rules[i].id
  }

  function Acknowledged(active: Active, k: Key): Active {
    if k in active then active[k := active[k].(acknowledged := true)] else active
  }

  function Without(active: Active, host: string): Active {
    map k | k in active && k.host != host :: active[k]
  }

  const DEFAULT_RESOLVE_AFTER: int := 60_000_000_000

  class Evaluator {
    var rules: seq<Rule>
    var active: Active
    var resolveAfter: int

    constructor (rules: seq<Rule>)
      ensures this.rules == rules && active == map[] && resolveAfter == 60 * 1_000_000_000
    {
      this.rules, active, resolveAfter := rules, map[], DEFAULT_RESOLVE_AFTER;
    }

    /** Zero restores the default of a minute; a negative value disables hysteresis. */
    method SetResolveAfter(d: int)
      modifies this`resolveAfter
      ensures resolveAfter == if d == 0 then 60 * 1_000_000_000 else d
    {
      resolveAfter := if d == 0 then DEFAULT_RESOLVE_AFTER else d;
    }

    /** Keeps the alerts of rules that still exist. */
    method ReplaceRules(newRules: seq<Rule>)
      modifies this`rules, this`active
      ensures rules == newRules
      ensures active == map k | k in old(active) && k.rule in RuleIds(newRules) :: old(active)[k]
    {
      rules := newRules;
      var known := {};
      for i := 0 to |newRules|
        invariant known == RuleIds(newRules[..i])
        invariant rules == newRules && active == old(active)
      {
        known := known + {newRules[i].id};
        assert newRules[..i+1] == newRules[..i] + [newRules[i]];
      }
      assert newRules[..|newRules|] == newRules;
      var todo := active.Keys;
      while todo != {}
        invariant rules == newRules && todo <= old(active).Keys
        invariant active == map k | k in old(active) && (k in todo || k.rule in known) :: old(active)[k]
        decreases todo
      {
        var k :| k in todo;
        if k.rule !in known { active := active - {k}; }
        todo := todo - {k};
      }
    }

    method Acknowledge(hostId: string, ruleId: string) returns (found: bool)
      modifies this`active
      ensures found <==> Key(hostId, ruleId) in old(active)
      ensures active == Acknowledged(old(active), Key(hostId, ruleId))
      ensures active.Keys == old(active).Keys
      ensures forall k :: k in active ==>
                active[k] == old(active)[k].(acknowledged := k == Key(hostId, ruleId) || old(active)[k].acknowledged)
    {
      var k := Key(hostId, ruleId);
      if k !in active { return false; }
      active := active[k := active[k].(acknowledged := true)];
      return true;
    }

    method ForgetHost(hostId: string)
      modifies this`active
      ensures active == Without(old(active), hostId)
      ensures forall k :: k in active <==> k in old(active) && k.host != hostId
    {
      var todo := active.Keys;
      while todo != {}
        invariant todo <= old(active).Keys
        invariant active == map k | k in old(active) && (k in todo || k.host != hostId) :: old(active)[k]
        decreases todo
      {
        var k :| k in todo;
        if k.host == hostId { active := active - {k}; }
        todo := todo - {k};
      }
    }

    method Evaluate(state: SystemState, now: int) returns (transitions: seq<Alert>)
      modifies this`active
      ensures (active, transitions) == EvalRules(rules, resolveAfter, old(active), state, now)
    {
      transitions := [];
      for i := 0 to |rules|
        invariant (active, transitions) == EvalRules(rules[..i], resolveAfter, old(active), state, now)
      {
        assert rules[..i+1][..i] == rules[..i];
        ghost var before, reported := active, transitions;
        assert reported + [] == reported;
        var rule := rules[i];
        if !rule.enabled { continue; }
        var value := MetricValue(state, rule.metric);
        if value.None? { continue; }
        var key := Key(state.hostId, rule.id);
        var breached := Matches(rule, value.value);
        if breached && key !in active {
          var alert := Alert(rule.id, rule.name, rule.metric, Pending, rule.severity, value.value, rule.threshold,
                             state.hostId, state.hostname, now, None, None, false, None);
          if rule.hold <= 0 {
            alert := alert.(state := Firing, firedAt := Some(now));
            transitions := transitions + [alert];
          }
          active := active[key := alert];
        } else if breached {
          var existing := active[key].(value := value.value, hostname := state.hostname, clearSince := None);
          if existing.state == Pending && now - existing.startedAt >= rule.hold {
            existing := existing.(state := Firing, firedAt := Some(now));
            transitions := transitions + [existing];
          }
          active := active[key := existing];
        } else if key in active {
          var existing := active[key];
          if existing.state == Firing {
            if existing.clearSince.None? { existing := existing.(clearSince := Some(now)); }
            if now - existing.clearSince.value < resolveAfter {
              active := active[key := existing.(value := value.value)];
              assert (active, []) == ApplyRule(rule, resolveAfter, before, state, now);
              continue;
            }
            transitions := transitions + [existing.(state := Resolved, value := value.value, resolvedAt := Some(now))];
          }
          active := active - {key};
        }
        assert active == ApplyRule(rule, resolveAfter, before, state, now).0;
        assert transitions == reported + ApplyRule(rule, resolveAfter, before, state, now).1;
      }
      assert rules[..|rules|] == rules;
    }
  }
}
