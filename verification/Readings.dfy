/** What the columns of a rolled-up row tell about the samples it stands for: a maximum is the
    highest reading among them, an average is their mean. */
module Readings {
  import opened Common
  import opened Retention
  import opened RetentionRuns
  import Folding

  /** v is the highest reading of column c. */
  ghost predicate IsHighest(s: seq<Sample>, c: Column, v: real) {
    && (forall x :: x in s ==> x.reading(c) <= v)
    && exists x :: x in s && x.reading(c) == v
  }

  lemma {:induction false} HighestIsHighest(s: seq<Sample>, c: Column)
    requires |s| > 0
    ensures IsHighest(s, c, Highest(s, c))
  {
    var n := |s| - 1;
    assert s == s[..n] + [s[n]];
    if n > 0 { HighestIsHighest(s[..n], c); }
  }

  /** Of the rows to merge, those that have the column and the highest of these. */
  lemma {:induction false} HighestMaxIsHighest(rows: seq<Row>, c: Column)
    ensures HighestMax(rows, c).Some? <==> exists i :: 0 <= i < |rows| && c in rows[i].max
    ensures HighestMax(rows, c).Some? ==>
              && (forall i :: 0 <= i < |rows| && c in rows[i].max ==> rows[i].max[c] <= HighestMax(rows, c).value)
              && exists i :: 0 <= i < |rows| && c in rows[i].max && rows[i].max[c] == HighestMax(rows, c).value
  {
    if |rows| > 0 {
      var front := rows[..|rows|-1];
      HighestMaxIsHighest(front, c);
      assert forall i :: 0 <= i < |front| ==> front[i] == rows[i];
    }
  }

  // ---- means ----

  /** Not all readings are above v, and not all below. */
  ghost predicate Between(s: seq<Sample>, c: Column, v: real) {
    (exists x :: x in s && x.reading(c) <= v) && (exists x :: x in s && v <= x.reading(c))
  }

  ghost function Times(v: real, n: nat): real {
    v * n as real
  }

  lemma TimesNext(v: real, n: nat)
    ensures Times(v, n + 1) == Times(v, n) + v
    ensures Times(v, 0) == 0.0
  {}

  lemma {:induction false} SumAbove(s: seq<Sample>, c: Column, v: real)
    requires |s| > 0 && forall x :: x in s ==> v < x.reading(c)
    ensures Times(v, |s|) < Sum(s, c)
  {
    hide Times;
    var n := |s| - 1;
    TimesNext(v, n);
    assert s == s[..n] + [s[n]];
    if n > 0 { SumAbove(s[..n], c, v); }
  }

  lemma {:induction false} SumBelow(s: seq<Sample>, c: Column, v: real)
    requires |s| > 0 && forall x :: x in s ==> x.reading(c) < v
    ensures Sum(s, c) < Times(v, |s|)
  {
    hide Times;
    var n := |s| - 1;
    TimesNext(v, n);
    assert s == s[..n] + [s[n]];
    if n > 0 { SumBelow(s[..n], c, v); }
  }

  lemma MeanBetween(s: seq<Sample>, c: Column)
    requires |s| > 0
    ensures Between(s, c, Average(Sum(s, c), |s|))
  {
    var v := Average(Sum(s, c), |s|);
    AverageTimes(Sum(s, c), |s|);
    hide Average, Sum, Times;
    if forall x :: x in s ==> v < x.reading(c) { SumAbove(s, c, v); }
    if forall x :: x in s ==> x.reading(c) < v { SumBelow(s, c, v); }
  }

  lemma AverageTimes(total: real, n: nat)
    requires n > 0
    ensures Times(Average(total, n), n) == total
  {
    Folding.AverageTimesCount(Average(total, n), total, n);
  }

  lemma {:induction false} SumReplaced(s: seq<Sample>, c: Column, i: nat, x: Sample)
    requires i < |s|
    ensures Sum(s[i := x], c) == Sum(s, c) - s[i].reading(c) + x.reading(c)
  {
    var n := |s| - 1;
    if i == n {
      assert s[i := x][..n] == s[..n];
    } else {
      SumReplaced(s[..n], c, i, x);
      assert s[i := x][..n] == s[..n][i := x];
    }
  }

  // ---- rows ----

  /** The row counts the samples s and tells their highest readings and their means. The only
      column without a mean is memory_total. A mean is the number that lies between the
      readings and moves by the n-th part of what one of n readings moves by. */
  ghost predicate Tells(r: Row, s: seq<Sample>) {
    && r.samples == |s| > 0
    && (forall c :: c in r.max <==> c in {Cpu, MemoryUsed, MemoryTotal, Load1, Temperature})
    && (forall c :: c in r.max ==> IsHighest(s, c, r.max[c]))
    && (forall c :: c in r.avg <==> c != MemoryTotal)
    && (forall c :: c in r.avg ==> Between(s, c, r.avg[c]))
  }

  lemma AggregateTells(s: seq<Sample>)
    requires |s| > 0
    ensures Tells(Aggregate(s), s)
  {
    hide Sum, Highest, Average, IsHighest, Between;
    forall c: Column
      ensures IsHighest(s, c, Highest(s, c)) && Between(s, c, Average(Sum(s, c), |s|))
    {
      HighestIsHighest(s, c);
      MeanBetween(s, c);
    }
  }

  /** Changing one reading of a group by d changes its mean by d / |s|. */
  lemma MeanMoves(s: seq<Sample>, c: Column, i: nat, x: Sample)
    requires i < |s| && c != MemoryTotal
    ensures var before, after := Aggregate(s), Aggregate(s[i := x]);
            && c in before.avg && c in after.avg
            && (after.avg[c] - before.avg[c]) * |s| as real == x.reading(c) - s[i].reading(c)
  {
    hide Sum, Highest, Average;
    SumReplaced(s, c, i, x);
    var n, a, b := |s|, Average(Sum(s, c), |s|), Average(Sum(s[i := x], c), |s|);
    AveragesOf(s, c);
    AveragesOf(s[i := x], c);
    Folding.AverageTimesCount(a, Sum(s, c), n);
    Folding.AverageTimesCount(b, Sum(s[i := x], c), n);
    Difference(a, b, n as real);
  }

  lemma AveragesOf(s: seq<Sample>, c: Column)
    requires |s| > 0 && c != MemoryTotal
    ensures c in Aggregate(s).avg && Aggregate(s).avg[c] == Average(Sum(s, c), |s|)
  {
    hide Sum, Highest, Average;
  }

  lemma Difference(a: real, b: real, n: real)
    ensures (b - a) * n == b * n - a * n
  {}

  lemma {:induction false} SpanMembers(s: seq<Sample>, lo: int, hi: int, host: string, x: Sample)
    ensures x in InSpan(s, lo, hi, host) <==>
              x in s && x.timestamp.Some? && lo <= x.timestamp.value < hi && x.host == host
  {
    if |s| > 0 {
      var n := |s| - 1;
      SpanMembers(s[..n], lo, hi, host, x);
      assert s == s[..n] + [s[n]];
    }
  }

  /** Sample x lies in bucket k: it is of its host and its time is in its width. */
  ghost predicate LiesIn(x: Sample, k: Key) {
    && x.host == k.host && x.timestamp.Some?
    && var ts := x.timestamp.value;
       match k.resolution
       case Minute => k.bucket * 60_000 <= ts < k.bucket * 60_000 + 60_000
       case FiveMinute => k.bucket * 300_000 <= ts < k.bucket * 300_000 + 300_000
  }

  /** What the minute fold writes: every row tells exactly the samples of its minute that are
      older than the cutoff. */
  lemma FoldedRowsTell(t: Tables, cutoff: int, k: Key)
    requires k in MinuteKeys(t.raw, cutoff)
    ensures k in FoldMinutes(t, cutoff).rollups
    ensures Tells(FoldMinutes(t, cutoff).rollups[k], MinuteGroup(t.raw, cutoff, k))
    ensures forall x :: x in MinuteGroup(t.raw, cutoff, k) <==> x in t.raw && LiesIn(x, k) && x.timestamp.value < cutoff
  {
    MinuteKeysNonEmpty(t.raw, cutoff, k);
    AggregateTells(MinuteGroup(t.raw, cutoff, k));
    forall x
      ensures x in MinuteGroup(t.raw, cutoff, k) <==> x in t.raw && LiesIn(x, k) && x.timestamp.value < cutoff
    {
      SpanMembers(t.raw, Start(k), Min(Start(k) + 60_000, cutoff), k.host, x);
    }
    hide Aggregate, InSpan, Tells, MinuteKeys;
  }

  /** What the five-minute fold writes: of every column, the highest maximum of the minute
      rows it merges. */
  lemma MergedRowsTell(rows: seq<Row>, c: Column)
    requires TotalSamples(rows) > 0
    ensures c in Merge(rows).max <==>
              c in {Cpu, MemoryUsed, MemoryTotal, Load1, Temperature} && exists i :: 0 <= i < |rows| && c in rows[i].max
    ensures c in Merge(rows).max ==>
              && (forall i :: 0 <= i < |rows| && c in rows[i].max ==> rows[i].max[c] <= Merge(rows).max[c])
              && exists i :: 0 <= i < |rows| && c in rows[i].max && rows[i].max[c] == Merge(rows).max[c]
  {
    HighestMaxIsHighest(rows, c);
    hide TotalSamples, WeightedSum, HighestMax, Average;
  }

  /** Row k tells all samples ever saved that lie in its bucket. */
  ghost predicate TellsBucket(r: Row, saved: seq<Sample>, k: Key) {
    && Tells(r, InCell(saved, k))
    && forall x :: x in InCell(saved, k) <==> x in saved && LiesIn(x, k)
  }

  lemma IdealRowsTell(t: Tables, saved: seq<Sample>, c: Cutoffs, k: Key)
    requires Ideal(t, saved, c) && k in t.rollups
    ensures TellsBucket(t.rollups[k], saved, k)
  {
    assert t.rollups[k] == Aggregate(InCell(saved, k)) && |InCell(saved, k)| > 0;
    hide Ideal, Aggregate, Tells;
    AggregateTells(InCell(saved, k));
    forall x
      ensures x in InCell(saved, k) <==> x in saved && LiesIn(x, k)
    {
      SpanMembers(saved, Start(k), Start(k) + Width(k.resolution), k.host, x);
    }
  }

  /** Over every run of ingest and interrupted passes, whenever a pass completes: every row of
      either tier tells the highest readings and the means of all samples ever saved in it. */
  lemma CompletedRowsTell(origin: Cutoffs, events: seq<Event>, k: Key)
    requires Aligned(origin) && Legal(Fresh(origin), events) && Run(Fresh(origin), events).next == 4
    ensures var s := Run(Fresh(origin), events);
            var t := Next(s, Step).tables;
            k in t.rollups ==> TellsBucket(t.rollups[k], s.saved, k)
  {
    var s := Run(Fresh(origin), events);
    CompletedPassIsIdeal(origin, events);
    hide Ideal, Legal, TellsBucket, Next, Run;
    if k in Next(s, Step).tables.rollups { IdealRowsTell(Next(s, Step).tables, s.saved, s.asked, k); }
  }
}
