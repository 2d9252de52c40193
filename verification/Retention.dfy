/** The tiered store of internal/storage/rollup.go: raw samples, per-minute rows and
    per-five-minute rows, with every SQL statement as one atomic table update.

    Times are UTC milliseconds, the precision `sqlTime` keeps; module SqlTime proves that
    the string comparisons the SQL makes are comparisons of these numbers. */
module Retention {
  import opened Common

  /** The numeric columns of a raw sample that the roll-up reads. */
  datatype Column =
    | Cpu | MemoryUsed | MemoryTotal | SwapUsed | Load1
    | DiskRead | DiskWrite | DiskIops | NetSent | NetRecv | Temperature

  /** Columns with an `..._avg` in metric_rollups, and columns with an `..._max`
      (memory_total is kept as a maximum only). */
  const AVERAGED: set<Column> :=
    {Cpu, MemoryUsed, SwapUsed, Load1, DiskRead, DiskWrite, DiskIops, NetSent, NetRecv, Temperature}
  const MAXIMA: set<Column> := {Cpu, MemoryUsed, MemoryTotal, Load1, Temperature}

  datatype Sample = Sample(timestamp: Option<int>, host: string, reading: Column -> real)

  datatype Resolution = Minute | FiveMinute

  /** The UNIQUE(bucket, resolution, host_id) key. A bucket is named by its index, the
      start time divided by the width. */
  datatype Key = Key(resolution: Resolution, bucket: int, host: string)

  /** A row of metric_rollups; a column that is NULL is absent from the map. */
  datatype Row = Row(samples: nat, avg: map<Column, real>, max: map<Column, real>)

  datatype Tables = Tables(raw: seq<Sample>, rollups: map<Key, Row>)

  function Width(r: Resolution): int {
    if r.Minute? then 60_000 else 300_000
  }

  function Start(k: Key): int {
    if k.resolution.Minute? then k.bucket * 60_000 else k.bucket * 300_000
  }

  function BucketOf(r: Resolution, ts: int): int {
    if r.Minute? then ts / 60_000 else ts / 300_000
  }

  function KeyOf(r: Resolution, x: Sample): Key
    requires x.timestamp.Some?
  {
    Key(r, BucketOf(r, x.timestamp.value), x.host)
  }

  // ---- selections over raw samples ----

  predicate Older(x: Sample, cutoff: int) {
    x.timestamp.Some? && x.timestamp.value < cutoff
  }

  predicate Within(x: Sample, lo: int, hi: int, host: string) {
    x.timestamp.Some? && lo <= x.timestamp.value < hi && x.host == host
  }

  /** The samples of one host with lo <= timestamp < hi, in table order. */
  function InSpan(s: seq<Sample>, lo: int, hi: int, host: string): seq<Sample> {
    if |s| == 0 then [] else
      InSpan(s[..|s|-1], lo, hi, host) + if Within(s[|s|-1], lo, hi, host) then [s[|s|-1]] else []
  }

  /** The samples a rolled-up row stands for. */
  function InCell(s: seq<Sample>, k: Key): seq<Sample> {
    InSpan(s, Start(k), Start(k) + Width(k.resolution), k.host)
  }

  /** The samples that DELETE ... WHERE timestamp < cutoff leaves. */
  function Kept(s: seq<Sample>, cutoff: int): seq<Sample> {
    if |s| == 0 then [] else
      Kept(s[..|s|-1], cutoff) + if Older(s[|s|-1], cutoff) then [] else [s[|s|-1]]
  }

  // ---- aggregation ----

  function Sum(s: seq<Sample>, c: Column): real {
    if |s| == 0 then 0.0 else Sum(s[..|s|-1], c) + s[|s|-1].reading(c)
  }

  function MaxReal(a: real, b: real): real {
    if a < b then b else a
  }

  function Highest(s: seq<Sample>, c: Column): real
    requires |s| > 0
  {
    if |s| == 1 then s[0].reading(c) else MaxReal(Highest(s[..|s|-1], c), s[|s|-1].reading(c))
  }

  function Average(total: real, n: nat): real
    requires n > 0
  {
    total / n as real
  }

  /** COUNT(*), AVG(...) and MAX(...) of one group of raw samples. */
  function Aggregate(s: seq<Sample>): Row {
    if |s| == 0 then Row(0, map[], map[]) else
      Row(|s|,
          map c | c in AVERAGED :: Average(Sum(s, c), |s|),
          map c | c in MAXIMA :: Highest(s, c))
  }

  function TotalSamples(rows: seq<Row>): nat {
    if |rows| == 0 then 0 else TotalSamples(rows[..|rows|-1]) + rows[|rows|-1].samples
  }

  /** SUM(col_avg * samples); SUM passes over NULL. */
  function WeightedSum(rows: seq<Row>, c: Column): real {
    if |rows| == 0 then 0.0 else
      var r := rows[|rows|-1];
      WeightedSum(rows[..|rows|-1], c) + if c in r.avg then r.avg[c] * r.samples as real else 0.0
  }

  /** MAX(col_max); MAX passes over NULL and is NULL when nothing is left. */
  function HighestMax(rows: seq<Row>, c: Column): Option<real> {
    if |rows| == 0 then None else
      var before := HighestMax(rows[..|rows|-1], c);
      var r := rows[|rows|-1];
      if c !in r.max then before
      else if before.None? then Some(r.max[c])
      else Some(MaxReal(before.value, r.max[c]))
  }

  /** One five-minute row from the minute rows of its group. */
  function Merge(rows: seq<Row>): Row {
    var total := TotalSamples(rows);
    if total == 0 then Row(0, map[], map[]) else
      Row(total,
          map c | c in AVERAGED && (exists i :: 0 <= i < |rows| && c in rows[i].avg)
            :: Average(WeightedSum(rows, c), total),
          map c | c in MAXIMA && HighestMax(rows, c).Some? :: HighestMax(rows, c).value)
  }

  // ---- the five statements of one maintenance pass ----

  /** Raw samples with timestamp < cutoff that fall in bucket k. */
  function MinuteGroup(raw: seq<Sample>, cutoff: int, k: Key): seq<Sample> {
    InSpan(raw, Start(k), Min(Start(k) + 60_000, cutoff), k.host)
  }

  function MinuteKeys(raw: seq<Sample>, cutoff: int): set<Key> {
    set i | 0 <= i < |raw| && Older(raw[i], cutoff) :: KeyOf(Minute, raw[i])
  }

  function MinuteGroups(raw: seq<Sample>, cutoff: int): map<Key, Row> {
    map k | k in MinuteKeys(raw, cutoff) :: Aggregate(MinuteGroup(raw, cutoff, k))
  }

  /** INSERT OR REPLACE of per-minute rows from raw samples (rollup.go:95). */
  function FoldMinutes(t: Tables, cutoff: int): Tables {
    t.(rollups := t.rollups + MinuteGroups(t.raw, cutoff))
  }

  /** WHERE resolution = '1m' AND bucket < ? AND samples > 0 */
  predicate Foldable(rollups: map<Key, Row>, cutoff: int, k: Key) {
    k in rollups && k.resolution.Minute? && Start(k) < cutoff && rollups[k].samples > 0
  }

  /** The foldable rows of one host in minutes first <= bucket < end. */
  function MinuteRows(rollups: map<Key, Row>, cutoff: int, host: string, first: int, end: int): seq<Row>
    decreases end - first
  {
    if end <= first then [] else
      var k := Key(Minute, end - 1, host);
      MinuteRows(rollups, cutoff, host, first, end - 1)
        + if Foldable(rollups, cutoff, k) then [rollups[k]] else []
  }

  function FiveKeys(rollups: map<Key, Row>, cutoff: int): set<Key> {
    set k | k in rollups && Foldable(rollups, cutoff, k) :: Key(FiveMinute, k.bucket / 5, k.host)
  }

  function FiveGroups(rollups: map<Key, Row>, cutoff: int): map<Key, Row> {
    map q | q in FiveKeys(rollups, cutoff)
      :: Merge(MinuteRows(rollups, cutoff, q.host, 5 * q.bucket, 5 * q.bucket + 5))
  }

  /** INSERT OR REPLACE of five-minute rows from minute rows (rollup.go:123). */
  function FoldFives(t: Tables, cutoff: int): Tables {
    t.(rollups := t.rollups + FiveGroups(t.rollups, cutoff))
  }

  /** DELETE FROM metrics WHERE timestamp < ? (rollup.go:161) */
  function PruneRaw(t: Tables, cutoff: int): Tables {
    t.(raw := Kept(t.raw, cutoff))
  }

  /** DELETE FROM metric_rollups WHERE resolution = ? AND bucket < ? (rollup.go:167, 174) */
  function PruneRollups(t: Tables, r: Resolution, cutoff: int): Tables {
    t.(rollups := map k | k in t.rollups && !(k.resolution == r && Start(k) < cutoff) :: t.rollups[k])
  }

  /** The three instants a pass works with: now minus the three retention settings. */
  datatype Cutoffs = Cutoffs(raw: int, minute: int, five: int)

  /** The instant at which rows of a tier leave it. */
  function CutoffOf(r: Resolution, c: Cutoffs): int {
    if r.Minute? then c.minute else c.five
  }

  /** Statement number i of a pass, 0 to 4, in the order maintenance.run issues them. */
  function Statement(t: Tables, c: Cutoffs, i: nat): Tables
    requires i < 5
  {
    match i
    case 0 => FoldMinutes(t, c.raw)
    case 1 => FoldFives(t, c.minute)
    case 2 => PruneRaw(t, c.raw)
    case 3 => PruneRollups(t, Minute, c.minute)
    case _ => PruneRollups(t, FiveMinute, c.five)
  }

  /** The first n statements of a pass: where a crash or an SQL error can leave the tables. */
  function Pass(t: Tables, c: Cutoffs, n: nat): Tables
    requires n <= 5
  {
    if n == 0 then t else Statement(Pass(t, c, n - 1), c, n - 1)
  }

  // ---- facts about the selections ----

  lemma {:induction false} InSpanNonEmpty(s: seq<Sample>, lo: int, hi: int, host: string)
    ensures |InSpan(s, lo, hi, host)| > 0 <==> exists i :: 0 <= i < |s| && Within(s[i], lo, hi, host)
  {
    if |s| == 0 {
    } else {
      var p := s[..|s|-1];
      InSpanNonEmpty(p, lo, hi, host);
      assert forall i :: 0 <= i < |p| ==> p[i] == s[i];
      if exists i :: 0 <= i < |s| && Within(s[i], lo, hi, host) {
        var i :| 0 <= i < |s| && Within(s[i], lo, hi, host);
        if i < |p| { assert Within(p[i], lo, hi, host); }
      }
    }
  }

  lemma {:induction false} InSpanKept(s: seq<Sample>, cutoff: int, lo: int, hi: int, host: string)
    requires cutoff <= lo
    ensures InSpan(Kept(s, cutoff), lo, hi, host) == InSpan(s, lo, hi, host)
  {
    if |s| == 0 {
    } else {
      var p, x := s[..|s|-1], s[|s|-1];
      InSpanKept(p, cutoff, lo, hi, host);
      if Older(x, cutoff) {
        assert Kept(s, cutoff) == Kept(p, cutoff);
      } else {
        assert Kept(s, cutoff)[..|Kept(s, cutoff)|-1] == Kept(p, cutoff);
      }
    }
  }

  /** A bucket is rolled up exactly when an old enough sample lies in it. */
  lemma MinuteKeysNonEmpty(raw: seq<Sample>, cutoff: int, k: Key)
    ensures k in MinuteKeys(raw, cutoff) <==> k.resolution.Minute? && |MinuteGroup(raw, cutoff, k)| > 0
  {
    var lo, hi := Start(k), Min(Start(k) + 60_000, cutoff);
    InSpanNonEmpty(raw, lo, hi, k.host);
    if k.resolution.Minute? {
      forall i | 0 <= i < |raw|
        ensures Within(raw[i], lo, hi, k.host) <==> Older(raw[i], cutoff) && KeyOf(Minute, raw[i]) == k
      {}
    }
  }
}
