/** What a maintenance pass conserves: exact accounting for any tables and any cutoffs, and
    conservation over whole runs whose cutoffs respect bucket boundaries. */
module Conservation {
  import opened Common
  import opened Retention
  import opened RetentionRuns
  import Arithmetic
  import Folding

  // ---- the number of samples a table of rows stands for ----

  ghost function Weight(m: map<Key, Row>): nat {
    if m == map[] then 0 else
      var k :| k in m;
      m[k].samples + Weight(m - {k})
  }

  ghost function Restrict(m: map<Key, Row>, keys: set<Key>): map<Key, Row> {
    map k | k in m && k in keys :: m[k]
  }

  lemma {:induction false} WeightRemove(m: map<Key, Row>, k: Key)
    requires k in m
    ensures Weight(m) == m[k].samples + Weight(m - {k})
  {
    var j :| j in m && Weight(m) == m[j].samples + Weight(m - {j});
    if j != k {
      WeightRemove(m - {j}, k);
      WeightRemove(m - {k}, j);
      assert m - {j} - {k} == m - {k} - {j};
    }
  }

  /** The union of two tables, the right one replacing rows of the left. */
  lemma {:induction false} WeightUnion(a: map<Key, Row>, b: map<Key, Row>)
    ensures Weight(a + b) == Weight(a - b.Keys) + Weight(b)
  {
    if b == map[] {
      assert a + b == a && a - b.Keys == a;
    } else {
      var k :| k in b;
      WeightRemove(a + b, k);
      WeightRemove(b, k);
      WeightUnion(a - {k}, b - {k});
      assert (a + b) - {k} == (a - {k}) + (b - {k});
      assert (a - {k}) - (b - {k}).Keys == a - b.Keys;
    }
  }

  lemma WeightSplit(m: map<Key, Row>, keys: set<Key>)
    ensures Weight(m) == Weight(m - keys) + Weight(Restrict(m, keys))
  {
    WeightUnion(m - keys, Restrict(m, keys));
    assert (m - keys) + Restrict(m, keys) == m;
    assert (m - keys) - Restrict(m, keys).Keys == m - keys;
  }

  lemma {:induction false} WeightZero(m: map<Key, Row>)
    ensures Weight(m) == 0 <==> forall k :: k in m ==> m[k].samples == 0
  {
    if m != map[] {
      var j :| j in m && Weight(m) == m[j].samples + Weight(m - {j});
      WeightZero(m - {j});
      assert forall k :: k in m ==> k == j || k in m - {j};
      assert forall k :: k in m - {j} ==> (m - {j})[k] == m[k];
    }
  }

  // ---- the samples behind a set of rows ----

  /** How many of the given rows count sample x: its minute row, its five-minute row. */
  ghost function Hits(x: Sample, keys: set<Key>): nat {
    if x.timestamp.None? then 0 else
      (if KeyOf(Minute, x) in keys then 1 else 0) + (if KeyOf(FiveMinute, x) in keys then 1 else 0)
  }

  ghost function AllHits(s: seq<Sample>, keys: set<Key>): nat {
    if |s| == 0 then 0 else AllHits(s[..|s|-1], keys) + Hits(s[|s|-1], keys)
  }

  lemma {:induction false} AllHitsRemove(s: seq<Sample>, keys: set<Key>, k: Key)
    requires k in keys
    ensures AllHits(s, keys) == |InCell(s, k)| + AllHits(s, keys - {k})
  {
    if |s| == 0 {
    } else {
      AllHitsRemove(s[..|s|-1], keys, k);
    }
  }

  /** Rows that count their samples weigh as much as the samples hit them. */
  lemma {:induction false} WeightIsHits(m: map<Key, Row>, s: seq<Sample>)
    requires forall k :: k in m ==> m[k].samples == |InCell(s, k)|
    ensures Weight(m) == AllHits(s, m.Keys)
  {
    if m == map[] {
      NoHits(s);
      assert m.Keys == {};
    } else {
      var j :| j in m && Weight(m) == m[j].samples + Weight(m - {j});
      WeightIsHits(m - {j}, s);
      AllHitsRemove(s, m.Keys, j);
      assert (m - {j}).Keys == m.Keys - {j};
    }
  }

  lemma {:induction false} NoHits(s: seq<Sample>)
    ensures AllHits(s, {}) == 0
  {
    if |s| == 0 {
    } else {
      NoHits(s[..|s|-1]);
    }
  }

  // ---- conservation over runs ----

  /** Samples whose five-minute row has been folded and has aged out. */
  ghost predicate Expired(x: Sample, c: Cutoffs) {
    Older(x, c.minute) && Start(KeyOf(FiveMinute, x)) < c.five
  }

  ghost function ExpiredCount(s: seq<Sample>, c: Cutoffs): nat {
    if |s| == 0 then 0 else
      ExpiredCount(s[..|s|-1], c) + if Expired(s[|s|-1], c) then 1 else 0
  }

  lemma CellMember(s: seq<Sample>, i: nat, r: Resolution)
    requires i < |s| && s[i].timestamp.Some?
    ensures |InCell(s, KeyOf(r, s[i]))| > 0
  {
    var k := KeyOf(r, s[i]);
    assert Within(s[i], Start(k), Start(k) + Width(r), k.host);
    InSpanNonEmpty(s, Start(k), Start(k) + Width(r), k.host);
  }

  lemma KeyEdges(x: Sample, c: Cutoffs)
    requires Aligned(c) && x.timestamp.Some?
    ensures Start(KeyOf(Minute, x)) < c.raw <==> Older(x, c.raw)
    ensures Start(KeyOf(Minute, x)) < c.minute <==> Older(x, c.minute)
    ensures Start(KeyOf(FiveMinute, x)) < c.minute <==> Older(x, c.minute)
  {
    Arithmetic.BeforeMinuteBoundary(x.timestamp.value, c.raw);
    Arithmetic.BeforeFiveBoundary(x.timestamp.value, c.minute);
  }

  /** In ideal tables a sample is raw, or expired, or counted by exactly one row. */
  lemma IdealHitsOnce(t: Tables, saved: seq<Sample>, c: Cutoffs, i: nat)
    requires Ideal(t, saved, c) && Aligned(c) && i < |saved|
    ensures Hits(saved[i], t.rollups.Keys) == if !Older(saved[i], c.raw) || Expired(saved[i], c) then 0 else 1
  {
    if saved[i].timestamp.Some? {
      CellMember(saved, i, Minute);
      CellMember(saved, i, FiveMinute);
      KeyEdges(saved[i], c);
      hide InCell, Aggregate, Kept, Start, BucketOf;
    }
  }

  lemma {:induction false} IdealHits(t: Tables, saved: seq<Sample>, c: Cutoffs, n: nat)
    requires Ideal(t, saved, c) && Aligned(c) && n <= |saved|
    ensures |Kept(saved[..n], c.raw)| + AllHits(saved[..n], t.rollups.Keys) + ExpiredCount(saved[..n], c) == n
  {
    if n == 0 {
    } else {
      IdealHits(t, saved, c, n - 1);
      IdealHitsOnce(t, saved, c, n - 1);
      assert saved[..n][..n-1] == saved[..n-1];
    }
  }

  /** Raw rows, minute rows and five-minute rows together count every sample ever saved,
      less those whose five-minute row expired by age. */
  lemma IdealConserves(t: Tables, saved: seq<Sample>, c: Cutoffs)
    requires Ideal(t, saved, c) && Aligned(c)
    ensures |t.raw| + Weight(t.rollups) + ExpiredCount(saved, c) == |saved|
  {
    WeightIsHits(t.rollups, saved);
    IdealHits(t, saved, c, |saved|);
    assert saved[..|saved|] == saved;
  }

  /** Conservation at the end of every completed pass of every allowed run. */
  lemma RunsConserve(origin: Cutoffs, events: seq<Event>)
    requires Aligned(origin) && Legal(Fresh(origin), events)
    requires Run(Fresh(origin), events).next == 4
    ensures var s := Run(Fresh(origin), events);
            var t := Next(s, Step).tables;
            |t.raw| + Weight(t.rollups) + ExpiredCount(s.saved, s.asked) == |s.saved|
  {
    RunPreserves(Fresh(origin), events);
    CompletedPassIsIdeal(origin, events);
    var s := Run(Fresh(origin), events);
    IdealConserves(Next(s, Step).tables, s.saved, s.asked);
  }

  // ---- exact accounting of one pass, with no assumption at all ----

  /** The places at which tables count samples. After a completed pass every sample has at
      most one; while a pass is under way a raw sample can be counted by its row as well. */
  ghost function Total(t: Tables): nat {
    |t.raw| + Weight(t.rollups)
  }

  /** The raw samples a pass deletes. */
  ghost function Aged(s: seq<Sample>, cutoff: int): seq<Sample> {
    if |s| == 0 then [] else
      Aged(s[..|s|-1], cutoff) + if Older(s[|s|-1], cutoff) then [s[|s|-1]] else []
  }

  lemma {:induction false} AgedSpan(s: seq<Sample>, cutoff: int, lo: int, hi: int, host: string)
    ensures |Aged(s, cutoff)| + |Kept(s, cutoff)| == |s|
    ensures InSpan(Aged(s, cutoff), lo, hi, host) == InSpan(s, lo, Min(hi, cutoff), host)
  {
    if |s| == 0 {
    } else {
      var p, x := s[..|s|-1], s[|s|-1];
      AgedSpan(p, cutoff, lo, hi, host);
      if Older(x, cutoff) {
        assert Aged(s, cutoff)[..|Aged(s, cutoff)|-1] == Aged(p, cutoff);
      } else {
        assert Aged(s, cutoff) == Aged(p, cutoff);
      }
    }
  }

  lemma {:induction false} AgedHits(s: seq<Sample>, cutoff: int, keys: set<Key>)
    requires forall i :: 0 <= i < |s| && Older(s[i], cutoff) ==> Hits(s[i], keys) == 1
    ensures AllHits(Aged(s, cutoff), keys) == |Aged(s, cutoff)|
  {
    hide Hits, Older;
    if |s| == 0 {
    } else {
      var p, x := s[..|s|-1], s[|s|-1];
      assert forall i :: 0 <= i < |p| ==> p[i] == s[i];
      AgedHits(p, cutoff, keys);
      if Older(x, cutoff) {
        assert Aged(s, cutoff)[..|Aged(s, cutoff)|-1] == Aged(p, cutoff);
      } else {
        assert Aged(s, cutoff) == Aged(p, cutoff);
      }
    }
  }

  /** The minute fold counts exactly the raw samples the raw prune deletes. */
  lemma MinuteGroupsWeight(raw: seq<Sample>, cutoff: int)
    ensures Weight(MinuteGroups(raw, cutoff)) == |raw| - |Kept(raw, cutoff)|
  {
    var g := MinuteGroups(raw, cutoff);
    forall k | k in g
      ensures g[k].samples == |InCell(Aged(raw, cutoff), k)|
    {
      AgedSpan(raw, cutoff, Start(k), Start(k) + 60_000, k.host);
    }
    WeightIsHits(g, Aged(raw, cutoff));
    AgedSpan(raw, cutoff, 0, 0, "");
    AgedHits(raw, cutoff, g.Keys);
  }

  /** Minute rows the five-minute fold reads for the buckets in keys. */
  ghost function Folded(rollups: map<Key, Row>, cutoff: int, keys: set<Key>): map<Key, Row> {
    map k | k in rollups && Foldable(rollups, cutoff, k) && Key(FiveMinute, k.bucket / 5, k.host) in keys
      :: rollups[k]
  }

  ghost function FoldedSpan(rollups: map<Key, Row>, cutoff: int, host: string, first: int, end: int): map<Key, Row> {
    map k | k in rollups && Foldable(rollups, cutoff, k) && k.host == host && first <= k.bucket < end
      :: rollups[k]
  }

  lemma FoldedSpanStep(rollups: map<Key, Row>, cutoff: int, host: string, first: int, end: int)
    requires first < end
    ensures var k := Key(Minute, end - 1, host);
            var all, less := FoldedSpan(rollups, cutoff, host, first, end), FoldedSpan(rollups, cutoff, host, first, end - 1);
            if Foldable(rollups, cutoff, k) then k in all && all[k] == rollups[k] && all - {k} == less else all == less
  {
    var k := Key(Minute, end - 1, host);
    var all, less := FoldedSpan(rollups, cutoff, host, first, end), FoldedSpan(rollups, cutoff, host, first, end - 1);
    forall j: Key
      ensures j in less <==> j in all && j != k
    {
      if j in all && j.bucket == end - 1 { assert j == k; }
    }
    assert all - {k} == less;
  }

  lemma {:induction false} MinuteRowsWeight(rollups: map<Key, Row>, cutoff: int, host: string, first: int, end: int)
    ensures TotalSamples(MinuteRows(rollups, cutoff, host, first, end))
            == Weight(FoldedSpan(rollups, cutoff, host, first, end))
    decreases end - first
  {
    if end <= first {
      assert FoldedSpan(rollups, cutoff, host, first, end) == map[];
    } else {
      var k := Key(Minute, end - 1, host);
      var before := MinuteRows(rollups, cutoff, host, first, end - 1);
      MinuteRowsWeight(rollups, cutoff, host, first, end - 1);
      FoldedSpanStep(rollups, cutoff, host, first, end);
      if Foldable(rollups, cutoff, k) {
        WeightRemove(FoldedSpan(rollups, cutoff, host, first, end), k);
        Folding.AddRow(before, rollups[k], Cpu);
      } else {
        assert before + [] == before;
      }
    }
  }

  lemma FoldedWithout(rollups: map<Key, Row>, cutoff: int, keys: set<Key>, q: Key)
    requires q in keys && q.resolution.FiveMinute?
    ensures var mine := FoldedSpan(rollups, cutoff, q.host, 5 * q.bucket, 5 * q.bucket + 5);
            Weight(Folded(rollups, cutoff, keys)) == Weight(Folded(rollups, cutoff, keys - {q})) + Weight(mine)
  {
    var all := Folded(rollups, cutoff, keys);
    var mine := FoldedSpan(rollups, cutoff, q.host, 5 * q.bucket, 5 * q.bucket + 5);
    forall k | k in rollups && Foldable(rollups, cutoff, k)
      ensures k in mine <==> Key(FiveMinute, k.bucket / 5, k.host) == q
    {}
    WeightSplit(all, mine.Keys);
    assert Restrict(all, mine.Keys) == mine;
    assert all - mine.Keys == Folded(rollups, cutoff, keys - {q});
  }

  lemma {:induction false} FiveGroupsWeightOver(g: map<Key, Row>, rollups: map<Key, Row>, cutoff: int)
    requires forall q :: q in g ==> q.resolution.FiveMinute?
    requires forall q :: q in g ==>
      g[q] == Merge(MinuteRows(rollups, cutoff, q.host, 5 * q.bucket, 5 * q.bucket + 5))
    ensures Weight(g) == Weight(Folded(rollups, cutoff, g.Keys))
  {
    if g == map[] {
      assert Folded(rollups, cutoff, g.Keys) == map[];
    } else {
      var q :| q in g && Weight(g) == g[q].samples + Weight(g - {q});
      FiveGroupsWeightOver(g - {q}, rollups, cutoff);
      assert (g - {q}).Keys == g.Keys - {q};
      FoldedWithout(rollups, cutoff, g.Keys, q);
      MinuteRowsWeight(rollups, cutoff, q.host, 5 * q.bucket, 5 * q.bucket + 5);
    }
  }

  /** Minute rows that a pass deletes. */
  ghost function Before(rollups: map<Key, Row>, r: Resolution, cutoff: int): map<Key, Row> {
    map k | k in rollups && k.resolution == r && Start(k) < cutoff :: rollups[k]
  }

  /** The five-minute fold counts exactly the samples of the minute rows the prune deletes. */
  lemma FiveGroupsWeight(rollups: map<Key, Row>, cutoff: int)
    ensures Weight(FiveGroups(rollups, cutoff)) == Weight(Before(rollups, Minute, cutoff))
  {
    hide Weight, Merge, MinuteRows;
    var g, aged := FiveGroups(rollups, cutoff), Before(rollups, Minute, cutoff);
    FiveGroupsWeightOver(g, rollups, cutoff);
    var folded := Folded(rollups, cutoff, g.Keys);
    FoldedIsAged(rollups, cutoff);
    hide FiveGroups, Before, Folded;
    WeightSplit(aged, folded.Keys);
    WeightZero(aged - folded.Keys);
  }

  /** The rows folded are the minute rows before the cutoff that count samples. */
  lemma FoldedIsAged(rollups: map<Key, Row>, cutoff: int)
    ensures var aged, folded := Before(rollups, Minute, cutoff), Folded(rollups, cutoff, FiveGroups(rollups, cutoff).Keys);
            && Restrict(aged, folded.Keys) == folded
            && forall k :: k in aged - folded.Keys ==> (aged - folded.Keys)[k].samples == 0
  {
    hide Merge, MinuteRows;
    var aged, folded := Before(rollups, Minute, cutoff), Folded(rollups, cutoff, FiveGroups(rollups, cutoff).Keys);
    forall k | k in rollups && Foldable(rollups, cutoff, k)
      ensures Key(FiveMinute, k.bucket / 5, k.host) in FiveGroups(rollups, cutoff)
    {}
    hide FiveGroups;
    assert Restrict(aged, folded.Keys) == folded;
  }

  lemma PruneWeight(t: Tables, r: Resolution, cutoff: int)
    ensures Weight(PruneRollups(t, r, cutoff).rollups) + Weight(Before(t.rollups, r, cutoff)) == Weight(t.rollups)
  {
    var aged := Before(t.rollups, r, cutoff);
    WeightSplit(t.rollups, aged.Keys);
    assert Restrict(t.rollups, aged.Keys) == aged;
    assert t.rollups - aged.Keys == PruneRollups(t, r, cutoff).rollups;
  }

  lemma ReplaceWeight(m: map<Key, Row>, g: map<Key, Row>)
    ensures Weight(m + g) + Weight(Restrict(m, g.Keys)) == Weight(m) + Weight(g)
  {
    WeightUnion(m, g);
    WeightSplit(m, g.Keys);
  }

  /** The rows INSERT OR REPLACE throws away during a pass: minute rows of buckets that
      still have raw samples to fold, and five-minute rows of buckets that still have
      minute rows to fold. */
  ghost function ReplacedMinutes(t: Tables, c: Cutoffs): map<Key, Row> {
    Restrict(t.rollups, MinuteGroups(t.raw, c.raw).Keys)
  }

  ghost function ReplacedFives(t: Tables, c: Cutoffs): map<Key, Row> {
    var after := Pass(t, c, 1).rollups;
    Restrict(after, FiveGroups(after, c.minute).Keys)
  }

  /** The rows that leave by age. */
  ghost function ExpiredFives(t: Tables, c: Cutoffs): map<Key, Row> {
    Before(Pass(t, c, 4).rollups, FiveMinute, c.five)
  }

  lemma PassStatements(t: Tables, c: Cutoffs)
    ensures Pass(t, c, 1) == FoldMinutes(t, c.raw)
    ensures Pass(t, c, 2) == FoldFives(Pass(t, c, 1), c.minute)
    ensures Pass(t, c, 3) == PruneRaw(Pass(t, c, 2), c.raw)
    ensures Pass(t, c, 4) == PruneRollups(Pass(t, c, 3), Minute, c.minute)
    ensures Pass(t, c, 5) == PruneRollups(Pass(t, c, 4), FiveMinute, c.five)
  {
    assert Pass(t, c, 1) == Statement(Pass(t, c, 0), c, 0);
  }

  lemma FoldMinutesAccounting(t: Tables, cutoff: int)
    ensures Weight(FoldMinutes(t, cutoff).rollups) + Weight(Restrict(t.rollups, MinuteGroups(t.raw, cutoff).Keys))
            == Weight(t.rollups) + |t.raw| - |Kept(t.raw, cutoff)|
  {
    MinuteGroupsWeight(t.raw, cutoff);
    ReplaceWeight(t.rollups, MinuteGroups(t.raw, cutoff));
  }

  lemma FoldFivesAccounting(t: Tables, cutoff: int)
    ensures var after := FoldFives(t, cutoff).rollups;
            && Before(after, Minute, cutoff) == Before(t.rollups, Minute, cutoff)
            && Weight(after) + Weight(Restrict(t.rollups, FiveGroups(t.rollups, cutoff).Keys))
               == Weight(t.rollups) + Weight(Before(t.rollups, Minute, cutoff))
  {
    FiveGroupsWeight(t.rollups, cutoff);
    ReplaceWeight(t.rollups, FiveGroups(t.rollups, cutoff));
    assert Before(FoldFives(t, cutoff).rollups, Minute, cutoff) == Before(t.rollups, Minute, cutoff);
  }

  /** For any tables and any cutoffs, a pass gives up the places of the rows that expire and of
      those it replaces. (Modules Losses and Splits say which samples that loses.) */
  lemma PassAccounting(t: Tables, c: Cutoffs)
    ensures Total(t) == Total(Pass(t, c, 5)) + Weight(ExpiredFives(t, c))
                        + Weight(ReplacedMinutes(t, c)) + Weight(ReplacedFives(t, c))
  {
    hide Weight, Kept, Before, Restrict, MinuteGroups, FiveGroups;
    PassStatements(t, c);
    FoldMinutesAccounting(t, c.raw);
    FoldFivesAccounting(Pass(t, c, 1), c.minute);
    PruneWeight(Pass(t, c, 3), Minute, c.minute);
    PruneWeight(Pass(t, c, 4), FiveMinute, c.five);
  }

  /** Exactly when no place is given up but by age: nothing the pass replaces counts a sample. */
  lemma PlacesKeptIff(t: Tables, c: Cutoffs)
    ensures Total(t) == Total(Pass(t, c, 5)) + Weight(ExpiredFives(t, c)) <==>
            && (forall k :: k in ReplacedMinutes(t, c) ==> ReplacedMinutes(t, c)[k].samples == 0)
            && (forall k :: k in ReplacedFives(t, c) ==> ReplacedFives(t, c)[k].samples == 0)
  {
    PassAccounting(t, c);
    WeightZero(ReplacedMinutes(t, c));
    WeightZero(ReplacedFives(t, c));
  }
}
