/** Which columns the rows of the store have set: what a fold writes, what it makes of rows
    that came back from an archive, and what an archive costs either. */
module Columns {
  import opened Common
  import opened Retention
  import opened Archive
  import Folding

  ghost predicate AllComplete(rollups: map<Key, Row>) {
    forall k :: k in rollups ==> Complete(rollups[k])
  }

  ghost predicate AllWhole(rollups: map<Key, Row>) {
    forall k :: k in rollups ==> Whole(rollups[k])
  }

  /** Every row has all columns or exactly the carried ones. */
  ghost predicate AllShaped(rollups: map<Key, Row>) {
    forall k :: k in rollups ==> Whole(rollups[k]) || Stripped(rollups[k])
  }

  /** Whatever holds of every row of a holds of every row of b. */
  ghost predicate KeepsColumns(a: map<Key, Row>, b: map<Key, Row>) {
    && (AllComplete(a) ==> AllComplete(b))
    && (AllWhole(a) ==> AllWhole(b))
    && (AllShaped(a) ==> AllShaped(b))
  }

  lemma ShapedIsComplete(rollups: map<Key, Row>)
    requires AllShaped(rollups)
    ensures AllComplete(rollups)
  {}

  // ---- merging ----

  lemma {:induction false} HighestMaxSome(rows: seq<Row>, c: Column)
    ensures HighestMax(rows, c).Some? <==> exists i :: 0 <= i < |rows| && c in rows[i].max
  {
    if |rows| == 0 {
    } else {
      var front := rows[..|rows|-1];
      HighestMaxSome(front, c);
      assert forall i :: 0 <= i < |front| ==> front[i] == rows[i];
    }
  }

  /** A merged row has the columns that some row it was merged from has. */
  lemma MergeColumns(rows: seq<Row>)
    requires TotalSamples(rows) > 0
    ensures forall c :: c in Merge(rows).avg <==> c in AVERAGED && exists i :: 0 <= i < |rows| && c in rows[i].avg
    ensures forall c :: c in Merge(rows).max <==> c in MAXIMA && exists i :: 0 <= i < |rows| && c in rows[i].max
  {
    forall c: Column
      ensures HighestMax(rows, c).Some? <==> exists i :: 0 <= i < |rows| && c in rows[i].max
    {
      HighestMaxSome(rows, c);
    }
    hide TotalSamples, WeightedSum, HighestMax, Average;
  }

  lemma MergeComplete(rows: seq<Row>)
    requires TotalSamples(rows) > 0 && forall i :: 0 <= i < |rows| ==> Complete(rows[i])
    ensures Complete(Merge(rows))
  {
    MergeColumns(rows);
    assert |rows| > 0 && Complete(rows[0]);
    hide TotalSamples, Merge;
  }

  /** The columns of a row merged from rows that each have all columns or a part of them. */
  lemma MergedKeys(has: seq<set<Column>>, merged: set<Column>, all: set<Column>, part: set<Column>)
    requires |has| > 0 && part <= all && forall i :: 0 <= i < |has| ==> has[i] == all || has[i] == part
    requires forall c :: c in merged <==> c in all && exists i :: 0 <= i < |has| && c in has[i]
    ensures merged == if exists i :: 0 <= i < |has| && has[i] == all then all else part
  {
    if i :| 0 <= i < |has| && has[i] == all {
      assert merged == all;
    } else {
      assert has[0] == part;
      assert merged == part;
    }
  }

  /** Merging whole rows gives a whole row, and so does merging any whole row with rows that
      came back from an archive; only those by themselves give a stripped one. */
  lemma MergeShapes(rows: seq<Row>)
    requires TotalSamples(rows) > 0 && forall i :: 0 <= i < |rows| ==> Whole(rows[i]) || Stripped(rows[i])
    ensures if exists i :: 0 <= i < |rows| && Whole(rows[i]) then Whole(Merge(rows)) else Stripped(Merge(rows))
  {
    var averages, maxima := AveragesOf(rows), MaximaOf(rows);
    MergeKeysOf(rows);
    hide Merge, TotalSamples, AveragesOf, MaximaOf;
    forall i | 0 <= i < |rows|
      ensures averages[i] == if Whole(rows[i]) then AVERAGED else CARRIED_AVERAGES
      ensures maxima[i] == if Whole(rows[i]) then MAXIMA else CARRIED_MAXIMA
    {}
    assert AVERAGED != CARRIED_AVERAGES && MAXIMA != CARRIED_MAXIMA by { TwoColumnsMissing(); }
    hide AVERAGED, MAXIMA, CARRIED_AVERAGES, CARRIED_MAXIMA;
    if i :| 0 <= i < |rows| && Whole(rows[i]) {
      assert averages[i] == AVERAGED && maxima[i] == MAXIMA;
    }
  }

  lemma TwoColumnsMissing()
    ensures CARRIED_AVERAGES <= AVERAGED && AVERAGED - CARRIED_AVERAGES == {DiskIops}
    ensures CARRIED_MAXIMA <= MAXIMA && MAXIMA - CARRIED_MAXIMA == {MemoryUsed}
  {}

  function AveragesOf(rows: seq<Row>): (has: seq<set<Column>>)
    ensures |has| == |rows| && forall i :: 0 <= i < |rows| ==> has[i] == rows[i].avg.Keys
  {
    seq(|rows|, i requires 0 <= i < |rows| => rows[i].avg.Keys)
  }

  function MaximaOf(rows: seq<Row>): (has: seq<set<Column>>)
    ensures |has| == |rows| && forall i :: 0 <= i < |rows| ==> has[i] == rows[i].max.Keys
  {
    seq(|rows|, i requires 0 <= i < |rows| => rows[i].max.Keys)
  }

  lemma MergeKeysOf(rows: seq<Row>)
    requires TotalSamples(rows) > 0 && forall i :: 0 <= i < |rows| ==> Whole(rows[i]) || Stripped(rows[i])
    ensures |rows| > 0
    ensures var has := AveragesOf(rows);
            Merge(rows).avg.Keys == if exists i :: 0 <= i < |rows| && has[i] == AVERAGED then AVERAGED else CARRIED_AVERAGES
    ensures var has := MaximaOf(rows);
            Merge(rows).max.Keys == if exists i :: 0 <= i < |rows| && has[i] == MAXIMA then MAXIMA else CARRIED_MAXIMA
  {
    hide Merge, TotalSamples, Whole, Stripped, AVERAGED, MAXIMA, CARRIED_AVERAGES, CARRIED_MAXIMA;
    RowKeys(rows);
    MergeColumns(rows);
    TwoColumnsMissing();
    MergedKeys(AveragesOf(rows), Merge(rows).avg.Keys, AVERAGED, CARRIED_AVERAGES);
    MergedKeys(MaximaOf(rows), Merge(rows).max.Keys, MAXIMA, CARRIED_MAXIMA);
  }

  lemma RowKeys(rows: seq<Row>)
    requires TotalSamples(rows) > 0 && forall i :: 0 <= i < |rows| ==> Whole(rows[i]) || Stripped(rows[i])
    ensures |rows| > 0
    ensures forall i :: 0 <= i < |rows| ==> AveragesOf(rows)[i] == AVERAGED || AveragesOf(rows)[i] == CARRIED_AVERAGES
    ensures forall i :: 0 <= i < |rows| ==> MaximaOf(rows)[i] == MAXIMA || MaximaOf(rows)[i] == CARRIED_MAXIMA
  {
    hide AVERAGED, MAXIMA, CARRIED_AVERAGES, CARRIED_MAXIMA;
    assert |rows| > 0;
  }

  /** The rows a fold merges are the foldable rows of the minutes. */
  lemma {:induction false} MinuteRowsAre(rollups: map<Key, Row>, cutoff: int, host: string, first: int, end: int)
    ensures forall r :: r in MinuteRows(rollups, cutoff, host, first, end) <==>
              exists b :: first <= b < end && IsFoldable(rollups, cutoff, Key(Minute, b, host), r)
    ensures |MinuteRows(rollups, cutoff, host, first, end)| > 0 ==> TotalSamples(MinuteRows(rollups, cutoff, host, first, end)) > 0
    decreases end - first
  {
    if end <= first {
    } else {
      hide MinuteRows, TotalSamples, IsFoldable;
      MinuteRowsAre(rollups, cutoff, host, first, end - 1);
      LastMinuteRow(rollups, cutoff, host, first, end);
      forall r
        ensures r in MinuteRows(rollups, cutoff, host, first, end) <==>
                  exists b :: first <= b < end && IsFoldable(rollups, cutoff, Key(Minute, b, host), r)
      {
        assert r in MinuteRows(rollups, cutoff, host, first, end) <==>
                 r in MinuteRows(rollups, cutoff, host, first, end - 1) || IsFoldable(rollups, cutoff, Key(Minute, end - 1, host), r);
      }
    }
  }

  lemma LastMinuteRow(rollups: map<Key, Row>, cutoff: int, host: string, first: int, end: int)
    requires first < end
    ensures var rows, all := MinuteRows(rollups, cutoff, host, first, end - 1), MinuteRows(rollups, cutoff, host, first, end);
            && (forall r :: r in all <==> r in rows || IsFoldable(rollups, cutoff, Key(Minute, end - 1, host), r))
            && TotalSamples(rows) <= TotalSamples(all)
            && (|all| > |rows| ==> TotalSamples(all) > 0) && (|all| == |rows| ==> all == rows)
  {
    var k, rows := Key(Minute, end - 1, host), MinuteRows(rollups, cutoff, host, first, end - 1);
    if Foldable(rollups, cutoff, k) {
      Folding.AddRow(rows, rollups[k], Cpu);
    } else {
      assert rows + [] == rows;
    }
    hide TotalSamples;
  }

  predicate IsFoldable(rollups: map<Key, Row>, cutoff: int, k: Key, r: Row) {
    Foldable(rollups, cutoff, k) && rollups[k] == r
  }

  /** What the five-minute fold makes of rows that came back from an archive: its row, which
      replaces any row of these five minutes, is whole exactly when one of the minute rows
      was not restored. */
  lemma FoldOfRestored(t: Tables, cutoff: int, q: Key)
    requires AllShaped(t.rollups) && q in FiveKeys(t.rollups, cutoff)
    ensures var after := FoldFives(t, cutoff).rollups;
            q in after && (Whole(after[q]) <==>
              exists b, r :: 5 * q.bucket <= b < 5 * q.bucket + 5
                             && IsFoldable(t.rollups, cutoff, Key(Minute, b, q.host), r) && Whole(r))
    ensures var after := FoldFives(t, cutoff).rollups; Whole(after[q]) || Stripped(after[q])
  {
    hide Whole, Stripped, Merge, TotalSamples, FiveKeys, IsFoldable;
    var rows := MinuteRows(t.rollups, cutoff, q.host, 5 * q.bucket, 5 * q.bucket + 5);
    Folding.FiveKeysAreNonEmpty(t.rollups, cutoff, q);
    MinuteRowsAre(t.rollups, cutoff, q.host, 5 * q.bucket, 5 * q.bucket + 5);
    forall i | 0 <= i < |rows|
      ensures Whole(rows[i]) || Stripped(rows[i])
    {
      assert rows[i] in rows;
      FoldableFrom(t.rollups, cutoff, rows[i]);
    }
    hide MinuteRows;
    MergeShapes(rows);
    if Whole(Merge(rows)) {
      WholeIsNotStripped(Merge(rows));
      var i :| 0 <= i < |rows| && Whole(rows[i]);
      assert rows[i] in rows;
    }
    if b, r :| 5 * q.bucket <= b < 5 * q.bucket + 5
               && IsFoldable(t.rollups, cutoff, Key(Minute, b, q.host), r) && Whole(r) {
      assert r in rows;
    }
  }

  lemma FoldableFrom(rollups: map<Key, Row>, cutoff: int, r: Row)
    requires AllShaped(rollups)
    ensures forall k :: IsFoldable(rollups, cutoff, k, r) ==> Whole(r) || Stripped(r)
  {}

  /** And the average of a column that only one of two merged rows has is diluted by the
      samples of the other. */
  lemma MixedMergeDilutes(a: Row, b: Row)
    requires Whole(a) && Stripped(b) && a.samples > 0
    ensures var r := Merge([a, b]);
            && DiskIops in r.avg
            && r.avg[DiskIops] * (a.samples + b.samples) as real == a.avg[DiskIops] * a.samples as real
            && (r.avg[DiskIops] == a.avg[DiskIops] <==> a.avg[DiskIops] == 0.0 || b.samples == 0)
  {
    hide Merge;
    MergedPair(a, b);
    Diluted(a.avg[DiskIops], a.samples, b.samples);
  }

  lemma MergedPair(a: Row, b: Row)
    requires Whole(a) && Stripped(b) && a.samples > 0
    ensures var r := Merge([a, b]);
            DiskIops in r.avg && r.avg[DiskIops] == Average(a.avg[DiskIops] * a.samples as real, a.samples + b.samples)
  {
    var rows := [a, b];
    Folding.AddRow([], a, DiskIops);
    Folding.AddRow([a], b, DiskIops);
    assert [] + [a] == [a] && [a] + [b] == rows;
    assert DiskIops in a.avg.Keys && DiskIops !in b.avg.Keys;
    hide Whole, Stripped, HighestMax, Average;
    assert TotalSamples(rows) == a.samples + b.samples && WeightedSum(rows, DiskIops) == a.avg[DiskIops] * a.samples as real;
    MergedAverage(rows, DiskIops, 0);
  }

  lemma MergedAverage(rows: seq<Row>, c: Column, i: nat)
    requires TotalSamples(rows) > 0 && c in AVERAGED && i < |rows| && c in rows[i].avg
    ensures c in Merge(rows).avg && Merge(rows).avg[c] == Average(WeightedSum(rows, c), TotalSamples(rows))
  {
    hide TotalSamples, WeightedSum, HighestMax, Average;
  }

  lemma WholeIsNotStripped(r: Row)
    ensures !(Whole(r) && Stripped(r))
  {
    assert Whole(r) ==> DiskIops in r.avg.Keys;
  }

  lemma Diluted(y: real, m: nat, n: nat)
    requires m > 0
    ensures var x := Average(y * m as real, m + n);
            x * (m + n) as real == y * m as real && (x == y <==> y == 0.0 || n == 0)
  {
    var x := Average(y * m as real, m + n);
    Folding.AverageTimesCount(x, y * m as real, m + n);
    hide Average;
    SameProduct(x, y, m, n);
  }

  lemma SameProduct(x: real, y: real, m: nat, n: nat)
    requires m > 0 && x * (m + n) as real == y * m as real
    ensures x == y <==> y == 0.0 || n == 0
  {
    assert (m + n) as real == m as real + n as real;
    assert x * (m + n) as real == x * m as real + x * n as real;
    if x == y { assert y * n as real == 0.0; }
    if y == 0.0 { assert x * (m + n) as real == 0.0; }
  }

  // ---- a pass ----

  /** Every row the minute fold writes is whole. */
  lemma FoldedMinutesWhole(raw: seq<Sample>, cutoff: int)
    ensures AllWhole(MinuteGroups(raw, cutoff))
  {
    forall k | k in MinuteGroups(raw, cutoff)
      ensures Whole(Aggregate(MinuteGroup(raw, cutoff, k)))
    {
      MinuteKeysNonEmpty(raw, cutoff, k);
      hide MinuteKeys, MinuteGroup;
    }
    hide Whole, Aggregate;
  }

  lemma FiveGroupsColumns(rollups: map<Key, Row>, cutoff: int)
    ensures KeepsColumns(rollups, FiveGroups(rollups, cutoff))
  {
    hide Complete, Whole, Stripped, Merge, TotalSamples, FiveKeys, MinuteRows;
    var groups := FiveGroups(rollups, cutoff);
    forall q | q in groups
      ensures AllComplete(rollups) ==> Complete(groups[q])
      ensures AllWhole(rollups) ==> Whole(groups[q])
      ensures AllShaped(rollups) ==> Whole(groups[q]) || Stripped(groups[q])
    {
      FiveGroupColumns(rollups, cutoff, q);
    }
    hide FiveGroups;
  }

  lemma FiveGroupColumns(rollups: map<Key, Row>, cutoff: int, q: Key)
    requires q in FiveKeys(rollups, cutoff)
    ensures var r := Merge(MinuteRows(rollups, cutoff, q.host, 5 * q.bucket, 5 * q.bucket + 5));
            && (AllComplete(rollups) ==> Complete(r))
            && (AllWhole(rollups) ==> Whole(r))
            && (AllShaped(rollups) ==> Whole(r) || Stripped(r))
  {
    hide Complete, Whole, Stripped, Merge, TotalSamples, FiveKeys;
    var rows := MinuteRows(rollups, cutoff, q.host, 5 * q.bucket, 5 * q.bucket + 5);
    Folding.FiveKeysAreNonEmpty(rollups, cutoff, q);
    MinuteRowsAre(rollups, cutoff, q.host, 5 * q.bucket, 5 * q.bucket + 5);
    hide MinuteRows;
    forall i | 0 <= i < |rows|
      ensures exists k :: k in rollups && rows[i] == rollups[k]
    {
      assert rows[i] in rows;
      var b :| 5 * q.bucket <= b < 5 * q.bucket + 5 && IsFoldable(rollups, cutoff, Key(Minute, b, q.host), rows[i]);
    }
    if AllComplete(rollups) { MergeComplete(rows); }
    if AllWhole(rollups) || AllShaped(rollups) { MergeShapes(rows); }
    assert Whole(rows[0]) || !AllWhole(rollups);
  }

  lemma StatementColumns(t: Tables, c: Cutoffs, i: nat)
    requires i < 5
    ensures KeepsColumns(t.rollups, Statement(t, c, i).rollups)
  {
    hide Complete, Whole, Stripped, MinuteGroups, FiveGroups, Kept;
    match i
    case 0 =>
      FoldedMinutesWhole(t.raw, c.raw);
      WholeIsComplete(MinuteGroups(t.raw, c.raw));
    case 1 => FiveGroupsColumns(t.rollups, c.minute);
    case _ =>
  }

  lemma WholeIsComplete(rollups: map<Key, Row>)
    requires AllWhole(rollups)
    ensures AllComplete(rollups)
  {}

  /** On the columns a point carries no row a pass writes has a NULL, so archiving and
      restoring does not change those. */
  lemma {:induction false} PassComplete(t: Tables, c: Cutoffs, n: nat)
    requires AllComplete(t.rollups) && n <= 5
    ensures AllComplete(Pass(t, c, n).rollups)
  {
    hide Statement, AllComplete, AllWhole, AllShaped;
    if n == 0 {
    } else {
      PassComplete(t, c, n - 1);
      StatementColumns(Pass(t, c, n - 1), c, n - 1);
    }
  }

  /** But every row a pass writes from whole rows loses disk_iops_avg and memory_used_max by
      being archived and restored. */
  lemma PassRowsLoseColumns(t: Tables, c: Cutoffs, n: nat, k: Key)
    requires AllWhole(t.rollups) && n <= 5 && k in Pass(t, c, n).rollups
    ensures var r := Pass(t, c, n).rollups[k];
            var back := ToRow(ToPoint(k, r));
            && back != r && r.avg.Keys - back.avg.Keys == {DiskIops} && r.max.Keys - back.max.Keys == {MemoryUsed}
  {
    PassWhole(t, c, n);
    hide Pass;
    WholeRowLosesColumns(k, Pass(t, c, n).rollups[k]);
  }

  lemma {:induction false} PassWhole(t: Tables, c: Cutoffs, n: nat)
    requires AllWhole(t.rollups) && n <= 5
    ensures AllWhole(Pass(t, c, n).rollups)
  {
    hide Statement, AllComplete, AllWhole, AllShaped;
    if n == 0 {
    } else {
      PassWhole(t, c, n - 1);
      StatementColumns(Pass(t, c, n - 1), c, n - 1);
    }
  }
}
