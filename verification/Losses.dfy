/** Exactly what a store loses: over any run, the samples that a fold overtook. */
module Losses {
  import opened Retention
  import opened RetentionRuns
  import opened Selection
  import opened Lineage
  import opened Conservation

  /** All samples that some row counts. */
  ghost function CountedAt(counted: map<Key, set<nat>>): set<nat> {
    set k, i | k in counted && i in counted[k] :: i
  }

  ghost predicate Disjoint(counted: map<Key, set<nat>>) {
    forall j, k, i: nat :: InRow(counted, j, i) && InRow(counted, k, i) ==> j == k
  }

  lemma {:induction false} WeightIsCount(m: map<Key, Row>, counted: map<Key, set<nat>>)
    requires m.Keys == counted.Keys && Disjoint(counted)
    requires forall k :: k in m ==> m[k].samples == |counted[k]|
    ensures Weight(m) == |CountedAt(counted)|
  {
    if m == map[] {
      assert CountedAt(counted) == {};
    } else {
      var k :| k in m && Weight(m) == m[k].samples + Weight(m - {k});
      var rest := counted - {k};
      assert forall j, i: nat :: InRow(rest, j, i) ==> InRow(counted, j, i);
      WeightIsCount(m - {k}, rest);
      CountedWithout(counted, k);
      hide CountedAt, Disjoint;
    }
  }

  lemma CountedWithout(counted: map<Key, set<nat>>, k: Key)
    requires k in counted && Disjoint(counted)
    ensures CountedAt(counted) == CountedAt(counted - {k}) + counted[k] && CountedAt(counted - {k}) !! counted[k]
  {
    var rest := counted - {k};
    forall i: nat
      ensures i in CountedAt(counted) <==> i in CountedAt(rest) || i in counted[k]
      ensures !(i in CountedAt(rest) && i in counted[k])
    {
      if i in CountedAt(counted) {
        var j :| j in counted && i in counted[j];
        assert j == k || (j in rest && rest[j] == counted[j]);
      }
      if i in CountedAt(rest) && i in counted[k] {
        var j :| j in rest && i in rest[j];
        assert InRow(counted, j, i) && InRow(counted, k, i);
        assert false;
      }
    }
  }

  // ---- the end of a pass ----

  /** Samples whose five-minute bucket is past the last cutoff. */
  ghost predicate AgedOut(l: Ledger, i: nat)
    requires i < |l.store.saved|
  {
    && i !in l.raw
    && Start(CellOf(l.store.saved, Minute, i)) < l.store.asked.minute
    && Start(CellOf(l.store.saved, FiveMinute, i)) < l.store.asked.five
  }

  ghost function AgedOutAt(l: Ledger): set<nat> {
    set i: nat | i < |l.store.saved| && AgedOut(l, i)
  }

  /** Samples that were overtaken and have not aged out since. */
  ghost function LostAt(l: Ledger): set<nat> {
    set i: nat | i < |l.store.saved| && i in l.overtaken && !AgedOut(l, i)
  }

  /** What holds besides when a pass has just completed. */
  ghost predicate Completed(l: Ledger) {
    var saved, a := l.store.saved, l.store.asked;
    && Sound(l) && l.store.next == 0
    && (forall i: nat :: i in l.raw && i < |saved| && i !in l.recent ==> !Older(saved[i], a.raw))
    && (forall k :: k in l.counted ==> (if k.resolution.Minute? then a.minute else a.five) <= Start(k))
    && (forall i: nat :: i < |saved| && i !in l.raw && Start(CellOf(saved, Minute, i)) < a.minute ==> i in l.moved)
    && (forall i: nat :: i in l.overtaken && i < |saved| ==> !InRow(l.counted, CellOf(saved, FiveMinute, i), i))
  }

  lemma LastStepCompletes(l: Ledger)
    requires Sound(l) && l.store.next == 4
    ensures Completed(Track(l, Step))
  {
    PruneFivesParts(l);
    PruneFivesSound(l);
    hide Track, Next, Recorded, Placed, FromFolds, Present, Deleted, Cell, CellOf, Older, Start;
  }

  /** Where a sample is when a pass has completed: in the raw table, in one row, aged out, or
      lost; and nowhere twice. */
  lemma Whereabouts(l: Ledger, i: nat)
    requires Completed(l) && i < |l.store.saved|
    ensures i in l.raw ==> i !in CountedAt(l.counted) && i !in l.overtaken
    ensures i !in l.raw ==>
              (i in CountedAt(l.counted) <==> i !in l.overtaken && !AgedOut(l, i))
  {
    var saved := l.store.saved;
    CellFacts(saved, i);
    CellIs(saved, i, Minute);
    CellIs(saved, i, FiveMinute);
    hide Recorded, Cell, CellOf, Start, Older;
    if i in CountedAt(l.counted) {
      var k :| k in l.counted && i in l.counted[k];
      assert InRow(l.counted, k, i);
    }
  }

  lemma RowsDisjoint(l: Ledger)
    requires Completed(l)
    ensures Disjoint(l.counted)
  {
    hide Recorded, Cell, CellOf, Start, Older, InRow;
    forall j, k, i: nat | InRow(l.counted, j, i) && InRow(l.counted, k, i)
      ensures j == k
    {
      assert j in l.counted && k in l.counted by { InRowIs(l.counted, j, i); InRowIs(l.counted, k, i); }
      assert j.resolution.Minute? ==> j == Cell(Minute, l.store.saved[i]);
      assert k.resolution.Minute? ==> k == Cell(Minute, l.store.saved[i]);
    }
  }

  lemma InRowIs(counted: map<Key, set<nat>>, k: Key, i: nat)
    requires InRow(counted, k, i)
    ensures k in counted && i in counted[k]
  {}

  ghost function UpTo(n: nat): (r: set<nat>)
    ensures |r| == n
    ensures forall i: nat :: i in r <==> i < n
  {
    if n == 0 then {} else UpTo(n - 1) + {n - 1}
  }

  /** Raw, counted, aged out and lost are all there is, and do not overlap. */
  lemma Partition(l: Ledger)
    requires Completed(l)
    ensures var counted, aged, lost := CountedAt(l.counted), AgedOutAt(l), LostAt(l);
            && UpTo(|l.store.saved|) == l.raw + counted + aged + lost
            && l.raw !! counted && l.raw !! aged && l.raw !! lost && counted !! aged && counted !! lost && aged !! lost
  {
    var n, counted, aged, lost := |l.store.saved|, CountedAt(l.counted), AgedOutAt(l), LostAt(l);
    CountedBelow(l);
    assert Positions(l.store.saved, l.raw);
    forall i: nat | i < n
      ensures i in l.raw ==> i !in counted && i !in aged && i !in lost
      ensures i !in l.raw ==> (i in counted <==> i !in aged && i !in lost)
      ensures !(i in aged && i in lost)
    {
      Whereabouts(l, i);
      hide Completed, CountedAt, AgedOut;
    }
    hide Completed, CountedAt, AgedOutAt, LostAt;
  }

  lemma CountedBelow(l: Ledger)
    requires Completed(l)
    ensures forall i: nat :: i in CountedAt(l.counted) ==> i < |l.store.saved|
  {
    forall i: nat | i in CountedAt(l.counted)
      ensures i < |l.store.saved|
    {
      var k :| k in l.counted && i in l.counted[k];
      assert InRow(l.counted, k, i);
    }
  }

  /** The exact account when a pass has completed. */
  lemma CompletedAccount(l: Ledger)
    requires Completed(l)
    ensures |l.store.tables.raw| + Weight(l.store.tables.rollups) + |AgedOutAt(l)| + |LostAt(l)| == |l.store.saved|
  {
    RowsDisjoint(l);
    Partition(l);
    assert Recorded(l) && Placed(l);
    hide Completed, CountedAt, AgedOutAt, LostAt, Disjoint, Weight, Select;
    SelectSize(l.store.saved, l.raw);
    WeightIsCount(l.store.tables.rollups, l.counted);
    FourParts(l.raw, CountedAt(l.counted), AgedOutAt(l), LostAt(l));
  }

  lemma FourParts(a: set<nat>, b: set<nat>, c: set<nat>, d: set<nat>)
    requires a !! b && a !! c && a !! d && b !! c && b !! d && c !! d
    ensures |a + b + c + d| == |a| + |b| + |c| + |d|
  {
    assert |a + b| == |a| + |b|;
    assert (a + b) !! c;
    assert |a + b + c| == |a + b| + |c|;
    assert (a + b + c) !! d;
  }

  // ---- runs ----

  lemma EmptySound(origin: Cutoffs)
    ensures Sound(Empty(origin))
  {}

  /** Raw rows, minute rows and five-minute rows together count every sample ever saved, less
      those whose five-minute row has aged out. */
  ghost predicate Conserves(l: Ledger) {
    |l.store.tables.raw| + Weight(l.store.tables.rollups) + |AgedOutAt(l)| == |l.store.saved|
  }

  /** For every run, whatever its cutoffs, its stops and the times of its samples: when a pass
      completes, the samples that are counted nowhere and have not aged out are exactly those
      overtaken by a fold or saved too late for the one before their deletion. */
  lemma RunsAccount(origin: Cutoffs, events: seq<Event>)
    requires Runs(Empty(origin), events) && After(Empty(origin), events).store.next == 4
    ensures var l := Track(After(Empty(origin), events), Step);
            |l.store.tables.raw| + Weight(l.store.tables.rollups) + |AgedOutAt(l)| + |LostAt(l)| == |l.store.saved|
  {
    EmptySound(origin);
    RunSound(Empty(origin), events);
    LastStepCompletes(After(Empty(origin), events));
    CompletedAccount(Track(After(Empty(origin), events), Step));
  }

  /** Exactly when a run conserves. */
  lemma RunsConserveIff(origin: Cutoffs, events: seq<Event>)
    requires Runs(Empty(origin), events) && After(Empty(origin), events).store.next == 4
    ensures var l := Track(After(Empty(origin), events), Step);
            Conserves(l) <==> forall i: nat :: i in l.overtaken && i < |l.store.saved| ==> AgedOut(l, i)
  {
    var l := Track(After(Empty(origin), events), Step);
    RunsAccount(origin, events);
    hide Weight, AgedOut, Track, After, Runs;
    NothingLost(l);
  }

  lemma NothingLost(l: Ledger)
    ensures |LostAt(l)| == 0 <==> forall i: nat :: i in l.overtaken && i < |l.store.saved| ==> AgedOut(l, i)
  {
    hide AgedOut;
    if |LostAt(l)| == 0 {
      forall i: nat | i in l.overtaken && i < |l.store.saved|
        ensures AgedOut(l, i)
      {
        assert i !in LostAt(l);
      }
    } else {
      var i :| i in LostAt(l);
    }
  }

  // ---- one whole pass ----

  ghost function PassOf(l: Ledger, c: Cutoffs): Ledger
    requires Possible(l.store, Begin(c))
  {
    Track(Track(Track(Track(Track(l, Begin(c)), Step), Step), Step), Step)
  }

  lemma PassCompletes(l: Ledger, c: Cutoffs)
    requires Sound(l) && Possible(l.store, Begin(c))
    ensures var m := PassOf(l, c);
            && Completed(m) && m.store.saved == l.store.saved && m.store.asked == c
            && m.store.tables == Pass(l.store.tables, c, 5)
            && l.overtaken + OvertakenMinutes(l, c.raw) <= m.overtaken
  {
    hide Sound, Completed, MinuteGroups, FiveGroups, Kept, PruneRollups, Groups, Merges, OvertakenMinutes, OvertakenFives, Pruned, Moving, Slipped, KeptAt, Track;
    var a := Track(l, Begin(c));
    BeginParts(l, c);
    TrackSound(l, Begin(c));
    var b := Track(a, Step);
    FoldParts(a);
    TrackSound(a, Step);
    var d := Track(b, Step);
    PruneRawParts(b);
    TrackSound(b, Step);
    var e := Track(d, Step);
    PruneMinutesParts(d);
    TrackSound(d, Step);
    PruneFivesParts(e);
    LastStepCompletes(e);
    PassStatements(l.store.tables, c);
    hide Pass;
  }

  /** When a pass has completed and a sample is then saved although the raw samples of its
      minute have been deleted, the next pass that folds it loses every sample the row of
      that minute counted, unless they age out. */
  lemma LateSampleErasesMinute(l: Ledger, x: Sample, c: Cutoffs)
    requires Completed(l) && Possible(l.store, Begin(c))
    requires Older(x, c.raw) && Cell(Minute, x) in l.counted
    requires c.minute <= Start(Cell(Minute, x)) || c.five <= Start(Cell(FiveMinute, x))
    ensures var m := PassOf(Track(l, Save(x)), c);
            && m.store.saved == l.store.saved + [x]
            && |m.store.tables.raw| + Weight(m.store.tables.rollups) + |AgedOutAt(m)|
               <= |m.store.saved| - l.store.tables.rollups[Cell(Minute, x)].samples < |m.store.saved|
  {
    var s, k := Track(l, Save(x)), Cell(Minute, x);
    SaveSound(l, x);
    PassCompletes(s, c);
    var m := PassOf(s, c);
    CompletedAccount(m);
    LateSampleOvertakes(l, x, c);
    FiveOfMinute(x);
    forall i | i in l.counted[k]
      ensures i in LostAt(m)
    {
      RowMember(l, k, i);
      assert m.store.saved[i] == l.store.saved[i];
      assert CellOf(m.store.saved, Minute, i) == k;
      CellFacts(m.store.saved, i);
    }
    SubsetSize(l.counted[k], LostAt(m));
    hide Completed, PassOf, Track, Weight, AgedOutAt, LostAt, Start, Cell;
  }

  lemma RowMember(l: Ledger, k: Key, i: nat)
    requires Completed(l) && k in l.counted && i in l.counted[k]
    ensures i < |l.store.saved| && Cell(k.resolution, l.store.saved[i]) == k && i !in l.raw
    ensures |l.counted[k]| == l.store.tables.rollups[k].samples > 0
  {
    assert InRow(l.counted, k, i);
    hide Cell, Start, Older;
  }

  lemma LateSampleOvertakes(l: Ledger, x: Sample, c: Cutoffs)
    requires Completed(l) && Older(x, c.raw) && Cell(Minute, x) in l.counted
    ensures l.counted[Cell(Minute, x)] <= OvertakenMinutes(Track(l, Save(x)), c.raw)
    ensures l.store.tables.rollups[Cell(Minute, x)].samples == |l.counted[Cell(Minute, x)]| > 0
  {
    var s, k := Track(l, Save(x)), Cell(Minute, x);
    var raw := s.store.tables.raw;
    assert raw[|raw|-1] == x;
    assert k in MinuteKeys(raw, c.raw);
    forall i | i in l.counted[k]
      ensures i in OvertakenMinutes(s, c.raw)
    {
      RowMember(l, k, i);
    }
  }

  lemma SubsetSize(a: set<nat>, b: set<nat>)
    requires a <= b
    ensures |a| <= |b|
  {
    assert b == a + (b - a);
  }
}
