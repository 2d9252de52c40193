/** One maintenance pass on arbitrary tables with arbitrary cutoffs: resuming it, what its
    deletes leave counted, and how it loses a bucket that a cutoff splits. */
module Reruns {
  import opened Common
  import opened Retention
  import opened Conservation
  import opened RetentionRuns

  // ---- resuming a pass ----

  lemma Absorb(m: map<Key, Row>, g: map<Key, Row>)
    requires forall k :: k in g ==> k in m && m[k] == g[k]
    ensures m + g == m
  {}

  /** The five-minute fold reads minute rows only. */
  lemma {:induction false} MinuteRowsDependOn(a: map<Key, Row>, b: map<Key, Row>, cutoff: int, host: string, first: int, end: int)
    requires forall k: Key :: k.resolution.Minute? ==> (k in a <==> k in b) && (k in a ==> a[k] == b[k])
    ensures MinuteRows(a, cutoff, host, first, end) == MinuteRows(b, cutoff, host, first, end)
    decreases end - first
  {
    if end <= first {
    } else {
      MinuteRowsDependOn(a, b, cutoff, host, first, end - 1);
    }
  }

  lemma FiveKeysDependOn(a: map<Key, Row>, b: map<Key, Row>, cutoff: int)
    requires forall k: Key :: k.resolution.Minute? ==> (k in a <==> k in b) && (k in a ==> a[k] == b[k])
    ensures FiveKeys(a, cutoff) <= FiveKeys(b, cutoff)
  {
    forall q | q in FiveKeys(a, cutoff)
      ensures q in FiveKeys(b, cutoff)
    {
      var k :| k in a && Foldable(a, cutoff, k) && q == Key(FiveMinute, k.bucket / 5, k.host);
      assert Foldable(b, cutoff, k);
    }
  }

  lemma FiveGroupsDependOn(a: map<Key, Row>, b: map<Key, Row>, cutoff: int)
    requires forall k: Key :: k.resolution.Minute? ==> (k in a <==> k in b) && (k in a ==> a[k] == b[k])
    ensures FiveGroups(a, cutoff) == FiveGroups(b, cutoff)
  {
    hide FiveKeys, Merge, MinuteRows;
    FiveKeysDependOn(a, b, cutoff);
    FiveKeysDependOn(b, a, cutoff);
    var x, y := FiveGroups(a, cutoff), FiveGroups(b, cutoff);
    assert x.Keys == FiveKeys(a, cutoff) && y.Keys == FiveKeys(b, cutoff);
    forall q | q in x
      ensures x[q] == y[q]
    {
      MinuteRowsDependOn(a, b, cutoff, q.host, 5 * q.bucket, 5 * q.bucket + 5);
    }
  }

  lemma NothingOlderKept(s: seq<Sample>, cutoff: int)
    ensures MinuteKeys(Kept(s, cutoff), cutoff) == {}
  {
    KeptMembers(s, cutoff);
  }

  /** A statement that has run changes nothing when it runs again, wherever the pass stopped. */
  lemma Settled(t: Tables, c: Cutoffs, n: nat, i: nat)
    requires i < n <= 5
    ensures Statement(Pass(t, c, n), c, i) == Pass(t, c, n)
  {
    match i
    case 0 => FoldMinutesSettled(t, c, n);
    case 1 => FoldFivesSettled(t, c, n);
    case _ => PrunesSettled(t, c, n, i);
  }

  ghost predicate PrunedOf(rollups: map<Key, Row>, r: Resolution, cutoff: int) {
    forall k :: k in rollups ==> !(k.resolution == r && Start(k) < cutoff)
  }

  lemma PruneSettled(u: Tables, r: Resolution, cutoff: int)
    requires PrunedOf(u.rollups, r, cutoff)
    ensures PruneRollups(u, r, cutoff) == u
  {
    assert PruneRollups(u, r, cutoff).rollups == u.rollups;
  }

  lemma NothingToFold(rollups: map<Key, Row>, cutoff: int)
    requires PrunedOf(rollups, Minute, cutoff)
    ensures FiveGroups(rollups, cutoff) == map[]
  {
    assert FiveKeys(rollups, cutoff) == {};
  }

  lemma PassPrunes(t: Tables, c: Cutoffs)
    ensures PrunedOf(Pass(t, c, 4).rollups, Minute, c.minute)
    ensures PrunedOf(Pass(t, c, 5).rollups, Minute, c.minute)
    ensures PrunedOf(Pass(t, c, 5).rollups, FiveMinute, c.five)
  {
    PassStatements(t, c);
    hide Pass;
  }

  lemma PrunesSettled(t: Tables, c: Cutoffs, n: nat, i: nat)
    requires 2 <= i < n <= 5
    ensures Statement(Pass(t, c, n), c, i) == Pass(t, c, n)
  {
    var u := Pass(t, c, n);
    match i
    case 2 =>
      PassStatements(t, c);
      KeptTwice(t.raw, c.raw, c.raw);
      hide Pass, Kept;
    case 3 =>
      PassPrunes(t, c);
      hide PrunedOf;
      PruneSettled(u, Minute, c.minute);
    case _ =>
      PassPrunes(t, c);
      hide PrunedOf;
      PruneSettled(u, FiveMinute, c.five);
  }

  lemma FoldMinutesSettled(t: Tables, c: Cutoffs, n: nat)
    requires 1 <= n <= 5
    ensures FoldMinutes(Pass(t, c, n), c.raw) == Pass(t, c, n)
  {
    PassStatements(t, c);
    hide Pass, Kept, FiveGroups, MinuteKeys;
    var u := Pass(t, c, n);
    assert n >= 3 ==> u.raw == Kept(t.raw, c.raw);
    hide PruneRollups;
    if n < 3 {
      FoldedIn(t, c);
      Absorb(u.rollups, MinuteGroups(t.raw, c.raw));
    } else {
      NothingOlderKept(t.raw, c.raw);
      Absorb(u.rollups, map[]);
    }
  }

  /** After the folds, and before any delete, the minute rows written are there. */
  lemma FoldedIn(t: Tables, c: Cutoffs)
    ensures forall k :: k in MinuteGroups(t.raw, c.raw) ==>
              && k in Pass(t, c, 1).rollups && Pass(t, c, 1).rollups[k] == MinuteGroups(t.raw, c.raw)[k]
              && k in Pass(t, c, 2).rollups && Pass(t, c, 2).rollups[k] == MinuteGroups(t.raw, c.raw)[k]
  {
    PassStatements(t, c);
    hide Pass, MinuteGroup, Aggregate, Merge, MinuteRows;
    assert forall k :: k in MinuteGroups(t.raw, c.raw) ==> k.resolution.Minute?;
    assert forall q :: q in FiveGroups(Pass(t, c, 1).rollups, c.minute) ==> q.resolution.FiveMinute?;
    hide MinuteGroups, FiveGroups;
  }

  lemma FoldFivesSettled(t: Tables, c: Cutoffs, n: nat)
    requires 2 <= n <= 5
    ensures FoldFives(Pass(t, c, n), c.minute) == Pass(t, c, n)
  {
    var r1, u := Pass(t, c, 1).rollups, Pass(t, c, n).rollups;
    if n < 4 {
      PassStatements(t, c);
      hide Pass, Kept, FiveGroups, PruneRollups;
      assert u == r1 + FiveGroups(r1, c.minute);
      FoldTwice(r1, c.minute);
    } else {
      PassPrunes(t, c);
      NothingToFold(u, c.minute);
      hide FiveGroups, PrunedOf;
      Absorb(u, map[]);
    }
  }

  lemma FoldTwice(rollups: map<Key, Row>, cutoff: int)
    ensures var once := rollups + FiveGroups(rollups, cutoff);
            once + FiveGroups(once, cutoff) == once
  {
    var once := rollups + FiveGroups(rollups, cutoff);
    assert forall q :: q in FiveGroups(rollups, cutoff) ==> q.resolution.FiveMinute?;
    FiveGroupsDependOn(rollups, once, cutoff);
    hide FiveGroups;
    Absorb(once, FiveGroups(once, cutoff));
  }

  /** Running the first j statements again after a stop at n, with the same cutoffs, ends
      where an uninterrupted pass of the longer length ends. With n == j == 2 the roll-up is
      idempotent; with n == 5 and j == 2 it does nothing after the prune; with j == 5 a
      rerun completes any interrupted pass. */
  lemma {:induction false} ResumeIsRun(t: Tables, c: Cutoffs, n: nat, j: nat)
    requires n <= 5 && j <= 5
    ensures Pass(Pass(t, c, n), c, j) == Pass(t, c, if j < n then n else j)
  {
    hide Statement;
    if j == 0 {
    } else {
      ResumeIsRun(t, c, n, j - 1);
      if j <= n { Settled(t, c, n, j - 1); }
    }
  }

  // ---- what is deleted stays counted ----

  /** Every copy of a sample in the span is selected. */
  lemma {:induction false} SpanCopies(s: seq<Sample>, lo: int, hi: int, host: string, x: Sample)
    requires Within(x, lo, hi, host)
    ensures multiset(InSpan(s, lo, hi, host))[x] == multiset(s)[x]
  {
    if |s| == 0 {
    } else {
      SpanCopies(s[..|s|-1], lo, hi, host, x);
      assert s == s[..|s|-1] + [s[|s|-1]];
    }
  }

  /** The place of the row of minute k among the rows of its host from minute `first` on. */
  ghost function PlaceOf(rollups: map<Key, Row>, cutoff: int, k: Key, first: int): nat {
    |MinuteRows(rollups, cutoff, k.host, first, k.bucket)|
  }

  lemma {:induction false} FoldablePlace(rollups: map<Key, Row>, cutoff: int, k: Key, first: int, end: int)
    requires Foldable(rollups, cutoff, k) && first <= k.bucket < end
    ensures var rows := MinuteRows(rollups, cutoff, k.host, first, end);
            PlaceOf(rollups, cutoff, k, first) < |rows| && rows[PlaceOf(rollups, cutoff, k, first)] == rollups[k]
    decreases end - first
  {
    if k.bucket == end - 1 {
      assert k == Key(Minute, end - 1, k.host);
    } else {
      FoldablePlace(rollups, cutoff, k, first, end - 1);
    }
  }

  /** Different minutes of a host have different places. */
  lemma OwnPlaces(rollups: map<Key, Row>, cutoff: int, j: Key, k: Key, first: int)
    requires Foldable(rollups, cutoff, j) && Foldable(rollups, cutoff, k) && j.host == k.host
    requires first <= j.bucket < k.bucket
    ensures PlaceOf(rollups, cutoff, j, first) < PlaceOf(rollups, cutoff, k, first)
  {
    FoldablePlace(rollups, cutoff, j, first, k.bucket);
  }

  /** The minute rows that five-minute row q is merged from during a pass. */
  ghost function MergedInto(t: Tables, c: Cutoffs, q: Key): seq<Row> {
    MinuteRows(Pass(t, c, 1).rollups, c.minute, q.host, 5 * q.bucket, 5 * q.bucket + 5)
  }

  lemma MergedSurvives(t: Tables, c: Cutoffs, k: Key)
    requires Foldable(Pass(t, c, 1).rollups, c.minute, k)
    ensures var q, r5 := Key(FiveMinute, k.bucket / 5, k.host), Pass(t, c, 5).rollups;
            && k !in r5
            && (c.five <= Start(q) ==> q in r5 && r5[q] == Merge(MergedInto(t, c, q)))
  {
    var r1, q := Pass(t, c, 1).rollups, Key(FiveMinute, k.bucket / 5, k.host);
    FoldableGroup(r1, c.minute, k);
    AfterFolds(t, c, k);
    AfterFolds(t, c, q);
    hide Pass, Merge, FiveGroups;
  }

  /** What a whole pass does to one row, given the five-minute groups. */
  lemma AfterFolds(t: Tables, c: Cutoffs, k: Key)
    ensures var r1, r5 := Pass(t, c, 1).rollups, Pass(t, c, 5).rollups;
            var g := FiveGroups(r1, c.minute);
            var gone := if k.resolution.Minute? then Start(k) < c.minute else Start(k) < c.five;
            && (k in r5 <==> !gone && (k in g || k in r1))
            && (k in r5 ==> r5[k] == if k in g then g[k] else r1[k])
  {
    PassStatements(t, c);
    hide Pass, Kept, FiveGroups;
    var r4 := Pass(t, c, 4).rollups;
    assert k in Pass(t, c, 5).rollups <==> k in r4 && !(k.resolution.FiveMinute? && Start(k) < c.five);
  }

  lemma FoldableGroup(rollups: map<Key, Row>, cutoff: int, k: Key)
    requires Foldable(rollups, cutoff, k)
    ensures var q := Key(FiveMinute, k.bucket / 5, k.host);
            && q in FiveGroups(rollups, cutoff)
            && FiveGroups(rollups, cutoff)[q] == Merge(MinuteRows(rollups, cutoff, q.host, 5 * q.bucket, 5 * q.bucket + 5))
  {}

  /** A minute row that a pass deletes has its place among the rows its surviving five-minute
      row was merged from, unless that row is itself past the last cutoff. */
  lemma DeletedMinuteIsCounted(t: Tables, c: Cutoffs, k: Key)
    requires Foldable(Pass(t, c, 1).rollups, c.minute, k)
    ensures var q, r1, r5 := Key(FiveMinute, k.bucket / 5, k.host), Pass(t, c, 1).rollups, Pass(t, c, 5).rollups;
            var place, rows := PlaceOf(r1, c.minute, k, 5 * q.bucket), MergedInto(t, c, q);
            && k !in r5
            && place < |rows| && rows[place] == r1[k]
            && (c.five <= Start(q) ==> q in r5 && r5[q] == Merge(rows))
  {
    hide Pass, Merge, MinuteRows, PlaceOf;
    var first := 5 * (k.bucket / 5);
    MergedSurvives(t, c, k);
    FoldablePlace(Pass(t, c, 1).rollups, c.minute, k, first, first + 5);
  }

  /** And no other minute row has that place. */
  lemma DeletedMinutesApart(rollups: map<Key, Row>, cutoff: int, j: Key, k: Key)
    requires Foldable(rollups, cutoff, j) && Foldable(rollups, cutoff, k) && j != k
    requires j.host == k.host && j.bucket / 5 == k.bucket / 5
    ensures PlaceOf(rollups, cutoff, j, 5 * (k.bucket / 5)) != PlaceOf(rollups, cutoff, k, 5 * (k.bucket / 5))
  {
    var first := 5 * (k.bucket / 5);
    if j.bucket < k.bucket {
      OwnPlaces(rollups, cutoff, j, k, first);
    } else {
      OwnPlaces(rollups, cutoff, k, j, first);
    }
  }

  lemma GroupHolds(raw: seq<Sample>, cutoff: int, i: nat)
    requires i < |raw| && Older(raw[i], cutoff)
    ensures var k := KeyOf(Minute, raw[i]);
            && multiset(MinuteGroup(raw, cutoff, k))[raw[i]] == multiset(raw)[raw[i]] > 0
            && k in MinuteGroups(raw, cutoff) && |MinuteGroup(raw, cutoff, k)| > 0
  {
    var k, x := KeyOf(Minute, raw[i]), raw[i];
    SpanCopies(raw, Start(k), Min(Start(k) + 60_000, cutoff), k.host, x);
    assert x in multiset(raw);
    hide InSpan, MinuteGroup, Aggregate;
    MinuteKeysNonEmpty(raw, cutoff, k);
    assert k in MinuteKeys(raw, cutoff);
    hide MinuteKeys;
  }

  lemma FoldedMinute(t: Tables, c: Cutoffs, i: nat)
    requires i < |t.raw| && Older(t.raw[i], c.raw)
    ensures var k, r1 := KeyOf(Minute, t.raw[i]), Pass(t, c, 1).rollups;
            && multiset(MinuteGroup(t.raw, c.raw, k))[t.raw[i]] == multiset(t.raw)[t.raw[i]] > 0
            && k in r1 && r1[k] == Aggregate(MinuteGroup(t.raw, c.raw, k)) && r1[k].samples > 0
            && (c.minute <= Start(k) ==> k in Pass(t, c, 5).rollups && Pass(t, c, 5).rollups[k] == r1[k])
  {
    var k := KeyOf(Minute, t.raw[i]);
    GroupHolds(t.raw, c.raw, i);
    PassStatements(t, c);
    AfterFolds(t, c, k);
    hide Pass, MinuteGroup, MinuteRows, Merge, MinuteKeys, Kept;
    assert k !in FiveGroups(Pass(t, c, 1).rollups, c.minute);
    hide FiveGroups, FiveKeys;
  }

  /** Every raw sample a pass deletes is in the group its minute row was aggregated from, as
      often as it is in the table, and that row survives or has a place of its own one tier
      further down. */
  lemma DeletedSampleIsCounted(t: Tables, c: Cutoffs, i: nat)
    requires i < |t.raw| && Older(t.raw[i], c.raw)
    ensures var k := KeyOf(Minute, t.raw[i]);
            var q, r1, r5 := Key(FiveMinute, k.bucket / 5, k.host), Pass(t, c, 1).rollups, Pass(t, c, 5).rollups;
            var place, rows := PlaceOf(r1, c.minute, k, 5 * q.bucket), MergedInto(t, c, q);
            && multiset(MinuteGroup(t.raw, c.raw, k))[t.raw[i]] == multiset(t.raw)[t.raw[i]]
            && k in r1 && r1[k] == Aggregate(MinuteGroup(t.raw, c.raw, k))
            && (if c.minute <= Start(k) then k in r5 && r5[k] == r1[k]
                else place < |rows| && rows[place] == r1[k]
                     && (c.five <= Start(q) ==> q in r5 && r5[q] == Merge(rows)))
  {
    FoldedMinute(t, c, i);
    hide Pass, MinuteGroup, Aggregate, MergedInto, Merge, PlaceOf;
    var k := KeyOf(Minute, t.raw[i]);
    if Start(k) < c.minute { DeletedMinuteIsCounted(t, c, k); }
  }

  // ---- a bucket split by a cutoff ----

  /** A minute fold gives up the places of a row it replaces. */
  lemma ReplacingGivesUpPlaces(t: Tables, c: Cutoffs, i: nat)
    requires i < |t.raw| && Older(t.raw[i], c.raw)
    requires KeyOf(Minute, t.raw[i]) in t.rollups && t.rollups[KeyOf(Minute, t.raw[i])].samples > 0
    ensures Total(Pass(t, c, 5)) + Weight(ExpiredFives(t, c)) < Total(t)
  {
    var k := KeyOf(Minute, t.raw[i]);
    assert k in ReplacedMinutes(t, c) && ReplacedMinutes(t, c)[k].samples > 0;
    PlacesKeptIff(t, c);
    PassAccounting(t, c);
  }

  /** For any two samples of one minute that the first raw cutoff separates and the second
      one covers, two passes keep one sample of the two. */
  lemma SplitMinuteLosesASample(a: Sample, b: Sample, c1: Cutoffs, c2: Cutoffs)
    requires a.timestamp.Some? && b.timestamp.Some? && KeyOf(Minute, a) == KeyOf(Minute, b)
    requires a.timestamp.value < c1.raw <= b.timestamp.value < c2.raw
    requires c1.minute <= Start(KeyOf(Minute, a))
    ensures var t := Pass(Tables([a, b], map[]), c1, 5);
            Total(Pass(t, c2, 5)) + Weight(ExpiredFives(t, c2)) < Total(t) <= 2
  {
    var t0, t := Tables([a, b], map[]), Pass(Tables([a, b], map[]), c1, 5);
    assert t.raw == [b] by {
      PassStatements(t0, c1);
      hide Pass;
      assert [a, b][..1] == [a] && [a][..0] == [];
      assert Kept([a], c1.raw) == [];
    }
    FoldedMinute(t0, c1, 0);
    PassAccounting(t0, c1);
    hide Pass;
    ReplacingGivesUpPlaces(t, c2, 0);
  }
}
