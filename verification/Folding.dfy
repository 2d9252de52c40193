/** Folding raw samples into minutes and minutes into five minutes gives the row that
    aggregating the raw samples of the five minutes directly would give. */
module Folding {
  import opened Common
  import opened Retention

  /** ab holds the samples of a and b together, as far as counts, sums and maxima go. */
  ghost predicate Joined(a: seq<Sample>, b: seq<Sample>, ab: seq<Sample>, c: Column) {
    && |ab| == |a| + |b|
    && Sum(ab, c) == Sum(a, c) + Sum(b, c)
    && (|ab| > 0 ==>
          Highest(ab, c) ==
          if |a| == 0 then Highest(b, c)
          else if |b| == 0 then Highest(a, c)
          else MaxReal(Highest(a, c), Highest(b, c)))
  }

  lemma Grow(a: seq<Sample>, x: Sample, c: Column)
    ensures Sum(a + [x], c) == Sum(a, c) + x.reading(c)
    ensures Highest(a + [x], c) == if |a| == 0 then x.reading(c) else MaxReal(Highest(a, c), x.reading(c))
  {
    assert (a + [x])[..|a|] == a;
  }

  lemma JoinedGrow(a: seq<Sample>, b: seq<Sample>, ab: seq<Sample>, x: Sample, c: Column)
    requires Joined(a, b, ab, c)
    ensures Joined(a + [x], b, ab + [x], c)
    ensures Joined(a, b + [x], ab + [x], c)
  {
    Grow(a, x, c);
    Grow(b, x, c);
    Grow(ab, x, c);
  }

  /** Cutting a span at mid cuts its count, its sums and its maxima. */
  lemma {:induction false} SplitSpan(s: seq<Sample>, lo: int, mid: int, hi: int, host: string, c: Column)
    requires lo <= mid <= hi
    ensures Joined(InSpan(s, lo, mid, host), InSpan(s, mid, hi, host), InSpan(s, lo, hi, host), c)
  {
    if |s| == 0 {
    } else {
      var p, x := s[..|s|-1], s[|s|-1];
      SplitSpan(p, lo, mid, hi, host, c);
      SpanStep(s, lo, mid, host);
      SpanStep(s, mid, hi, host);
      SpanStep(s, lo, hi, host);
      JoinedGrow(InSpan(p, lo, mid, host), InSpan(p, mid, hi, host), InSpan(p, lo, hi, host), x, c);
    }
  }

  lemma SpanStep(s: seq<Sample>, lo: int, hi: int, host: string)
    requires |s| > 0
    ensures var p, x := InSpan(s[..|s|-1], lo, hi, host), s[|s|-1];
            InSpan(s, lo, hi, host) == if Within(x, lo, hi, host) then p + [x] else p
  {}

  /** Every minute row first <= bucket < end is the aggregate of its samples, and there is
      one exactly when there are samples. */
  ghost predicate MinutesExact(rollups: map<Key, Row>, s: seq<Sample>, host: string, first: int, end: int) {
    forall b :: first <= b < end ==>
      var k := Key(Minute, b, host);
      && (k in rollups <==> |InCell(s, k)| > 0)
      && (k in rollups ==> rollups[k] == Aggregate(InCell(s, k)))
  }

  /** The SQL aggregates over these minute rows are the aggregates of the samples g. */
  ghost predicate Accumulated(rows: seq<Row>, g: seq<Sample>, c: Column) {
    && TotalSamples(rows) == |g|
    && (|rows| == 0 <==> |g| == 0)
    && (c in AVERAGED ==> WeightedSum(rows, c) == Sum(g, c))
    && (c in AVERAGED ==> forall i :: 0 <= i < |rows| ==> c in rows[i].avg)
    && (c in MAXIMA ==> HighestMax(rows, c) == if |g| == 0 then None else Some(Highest(g, c)))
  }

  lemma AddRow(rows: seq<Row>, r: Row, c: Column)
    ensures TotalSamples(rows + [r]) == TotalSamples(rows) + r.samples
    ensures WeightedSum(rows + [r], c) ==
            WeightedSum(rows, c) + if c in r.avg then r.avg[c] * r.samples as real else 0.0
    ensures HighestMax(rows + [r], c) ==
            if c !in r.max then HighestMax(rows, c)
            else if HighestMax(rows, c).None? then Some(r.max[c])
            else Some(MaxReal(HighestMax(rows, c).value, r.max[c]))
  {
    assert (rows + [r])[..|rows|] == rows;
  }

  /** Column c of r holds what c of the samples adds up to. */
  ghost predicate Represents(r: Row, cell: seq<Sample>, c: Column) {
    && |cell| > 0
    && r.samples == |cell|
    && (c in AVERAGED ==> c in r.avg && r.avg[c] * |cell| as real == Sum(cell, c))
    && (c in MAXIMA ==> c in r.max && r.max[c] == Highest(cell, c))
  }

  lemma AverageTimesCount(average: real, total: real, n: nat)
    requires n > 0 && average == Average(total, n)
    ensures average * n as real == total
  {}

  lemma AggregateRepresents(cell: seq<Sample>, c: Column)
    requires |cell| > 0
    ensures Represents(Aggregate(cell), cell, c)
  {
    hide Average, Sum, Highest;
    var r := Aggregate(cell);
    if c in AVERAGED {
      var average := r.avg[c];
      assert average * |cell| as real == Sum(cell, c) by {
        AggregateAverage(cell, c);
        AverageTimesCount(average, Sum(cell, c), |cell|);
      }
    }
  }

  lemma AggregateAverage(cell: seq<Sample>, c: Column)
    requires |cell| > 0 && c in AVERAGED
    ensures Aggregate(cell).avg[c] == Average(Sum(cell, c), |cell|)
  {}

  lemma AccumulateRow(rows: seq<Row>, g: seq<Sample>, r: Row, cell: seq<Sample>, both: seq<Sample>, c: Column)
    requires Accumulated(rows, g, c) && Joined(g, cell, both, c) && Represents(r, cell, c)
    ensures Accumulated(rows + [r], both, c)
  {
    AddRow(rows, r, c);
    hide Sum, Highest, TotalSamples, WeightedSum, HighestMax, MaxReal;
  }

  /** What the fold over the minute rows accumulates is what the samples of the span hold. */
  lemma {:induction false} MinuteRowsAccumulate(
      rollups: map<Key, Row>, s: seq<Sample>, cutoff: int, host: string, first: int, end: int, c: Column)
    requires first <= end && end * 60_000 <= cutoff
    requires MinutesExact(rollups, s, host, first, end)
    ensures Accumulated(MinuteRows(rollups, cutoff, host, first, end),
                        InSpan(s, first * 60_000, end * 60_000, host), c)
    decreases end - first
  {
    if end <= first {
      EmptySpan(s, first * 60_000, host);
    } else {
      MinuteRowsAccumulate(rollups, s, cutoff, host, first, end - 1, c);
      SplitSpan(s, first * 60_000, (end - 1) * 60_000, end * 60_000, host, c);
      var k := Key(Minute, end - 1, host);
      var before := MinuteRows(rollups, cutoff, host, first, end - 1);
      var g := InSpan(s, first * 60_000, (end - 1) * 60_000, host);
      var both := InSpan(s, first * 60_000, end * 60_000, host);
      assert InCell(s, k) == InSpan(s, (end - 1) * 60_000, end * 60_000, host);
      if |InCell(s, k)| > 0 {
        assert k in rollups && Foldable(rollups, cutoff, k);
        AggregateRepresents(InCell(s, k), c);
        AccumulateRow(before, g, rollups[k], InCell(s, k), both, c);
      } else {
        assert k !in rollups;
        assert MinuteRows(rollups, cutoff, host, first, end) == before;
      }
    }
  }

  lemma {:induction false} EmptySpan(s: seq<Sample>, at: int, host: string)
    ensures InSpan(s, at, at, host) == []
  {
    if |s| == 0 {
    } else {
      EmptySpan(s[..|s|-1], at, host);
    }
  }

  lemma MergeIsAggregate(rows: seq<Row>, g: seq<Sample>)
    requires forall c: Column :: Accumulated(rows, g, c)
    ensures Merge(rows) == Aggregate(g)
  {
    assert Accumulated(rows, g, Cpu);
    if |g| > 0 {
      var m, a := Merge(rows), Aggregate(g);
      forall c: Column
        ensures c in m.avg <==> c in a.avg
        ensures c in m.avg ==> m.avg[c] == a.avg[c]
        ensures c in m.max <==> c in a.max
        ensures c in m.max ==> m.max[c] == a.max[c]
      {
        assert Accumulated(rows, g, c);
        if c in AVERAGED { assert c in rows[0].avg; }
      }
      assert m.avg == a.avg;
      assert m.max == a.max;
    }
  }

  /** Two-level folding is one-level aggregation: for every collection of samples, every
      host and every five-minute bucket whose minutes are all folded. */
  lemma TwoLevelFoldIsDirect(rollups: map<Key, Row>, s: seq<Sample>, cutoff: int, q: Key)
    requires q.resolution.FiveMinute?
    requires Start(q) + 300_000 <= cutoff
    requires MinutesExact(rollups, s, q.host, 5 * q.bucket, 5 * q.bucket + 5)
    ensures Merge(MinuteRows(rollups, cutoff, q.host, 5 * q.bucket, 5 * q.bucket + 5)) == Aggregate(InCell(s, q))
    ensures q in FiveKeys(rollups, cutoff) <==> |InCell(s, q)| > 0
  {
    var first, end := 5 * q.bucket, 5 * q.bucket + 5;
    var rows, g := MinuteRows(rollups, cutoff, q.host, first, end), InCell(s, q);
    assert g == InSpan(s, first * 60_000, end * 60_000, q.host);
    forall c: Column
      ensures Accumulated(rows, g, c)
    {
      MinuteRowsAccumulate(rollups, s, cutoff, q.host, first, end, c);
    }
    MergeIsAggregate(rows, g);
    assert Accumulated(rows, g, Cpu);
    FiveKeysAreNonEmpty(rollups, cutoff, q);
  }

  /** A five-minute key is produced exactly when its group of minute rows is non-empty. */
  lemma FiveKeysAreNonEmpty(rollups: map<Key, Row>, cutoff: int, q: Key)
    ensures q in FiveKeys(rollups, cutoff) <==>
            q.resolution.FiveMinute? && |MinuteRows(rollups, cutoff, q.host, 5 * q.bucket, 5 * q.bucket + 5)| > 0
  {
    var first, end := 5 * q.bucket, 5 * q.bucket + 5;
    MinuteRowsNonEmpty(rollups, cutoff, q.host, first, end);
    if q.resolution.FiveMinute? && exists b :: first <= b < end && Foldable(rollups, cutoff, Key(Minute, b, q.host)) {
      var b :| first <= b < end && Foldable(rollups, cutoff, Key(Minute, b, q.host));
      assert Key(FiveMinute, b / 5, q.host) == q;
    }
    if q in FiveKeys(rollups, cutoff) {
      var k :| k in rollups && Foldable(rollups, cutoff, k) && q == Key(FiveMinute, k.bucket / 5, k.host);
      assert k == Key(Minute, k.bucket, q.host);
    }
  }

  lemma {:induction false} MinuteRowsNonEmpty(rollups: map<Key, Row>, cutoff: int, host: string, first: int, end: int)
    ensures |MinuteRows(rollups, cutoff, host, first, end)| > 0 <==>
            exists b :: first <= b < end && Foldable(rollups, cutoff, Key(Minute, b, host))
    decreases end - first
  {
    if end <= first {
    } else {
      MinuteRowsNonEmpty(rollups, cutoff, host, first, end - 1);
      var rows := MinuteRows(rollups, cutoff, host, first, end);
      if exists b :: first <= b < end && Foldable(rollups, cutoff, Key(Minute, b, host)) {
        var b :| first <= b < end && Foldable(rollups, cutoff, Key(Minute, b, host));
        if b < end - 1 { assert |MinuteRows(rollups, cutoff, host, first, end - 1)| > 0; }
      }
    }
  }
}
