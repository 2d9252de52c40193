/** What a run loses when no sample comes late, in terms of the samples and the cutoffs alone:
    the buckets that a cutoff has split. */
module Splits {
  import opened Common
  import opened Retention
  import opened RetentionRuns
  import opened Selection
  import opened Lineage
  import opened Losses
  import Conservation

  /** A ledger with the cutoffs its deletes have used: those of all raw prunes, those of all
      minute prunes, and those of the last minute prune. */
  datatype Past = Past(l: Ledger, raws: set<int>, minutes: set<Cutoffs>, last: Option<Cutoffs>)

  ghost function Advance(p: Past, e: Event): Past
    requires Possible(p.l.store, e)
  {
    var a := p.l.store.asked;
    Past(Track(p.l, e),
         if e.Step? && p.l.store.next == 2 then p.raws + {a.raw} else p.raws,
         if e.Step? && p.l.store.next == 3 then p.minutes + {a} else p.minutes,
         if e.Step? && p.l.store.next == 3 then Some(a) else p.last)
  }

  /** A pass with cutoffs c deletes the sample's raw row and its minute row. */
  predicate Passed(x: Sample, c: Cutoffs) {
    Older(x, c.raw) && Start(Cell(Minute, x)) < c.minute
  }

  /** x and y are of one minute, and the raw cutoff r deletes only x. */
  ghost predicate SplitsMinute(x: Sample, y: Sample, r: int) {
    Older(x, r) && !Older(y, r) && Cell(Minute, x) == Cell(Minute, y)
  }

  /** One of the raw cutoffs has split sample i from one of its minute that a fold before
      `cutoff` has read. */
  ghost predicate MinuteSplit(saved: seq<Sample>, raws: set<int>, cutoff: int, i: nat)
    requires i < |saved|
  {
    exists r, j: nat :: r in raws && j < |saved| && SplitsMinute(saved[i], saved[j], r) && Older(saved[j], cutoff)
  }

  /** x and y are of the same five minutes, and a pass with cutoffs b deletes the minute row
      of x but not that of y. */
  ghost predicate SplitsFive(x: Sample, y: Sample, b: Cutoffs) {
    Passed(x, b) && !Passed(y, b) && Cell(FiveMinute, x) == Cell(FiveMinute, y)
  }

  /** One of the minute cutoffs has split sample i from one of its five minutes whose minute
      row a fold with cutoffs c has read. */
  ghost predicate FiveSplit(saved: seq<Sample>, minutes: set<Cutoffs>, c: Cutoffs, i: nat)
    requires i < |saved|
  {
    exists b, j: nat :: b in minutes && j < |saved| && SplitsFive(saved[i], saved[j], b) && Passed(saved[j], c)
  }

  ghost predicate NoLater(b: Cutoffs, c: Cutoffs) {
    b.raw <= c.raw && b.minute <= c.minute
  }

  /** What is split stays split. */
  lemma SplitsStay(
      saved: seq<Sample>, more: seq<Sample>, raws: set<int>, raws': set<int>, minutes: set<Cutoffs>, minutes': set<Cutoffs>,
      b: Cutoffs, c: Cutoffs, i: nat)
    requires saved <= more && raws <= raws' && minutes <= minutes' && NoLater(b, c) && i < |saved|
    ensures MinuteSplit(saved, raws, b.raw, i) ==> MinuteSplit(more, raws', c.raw, i)
    ensures FiveSplit(saved, minutes, b, i) ==> FiveSplit(more, minutes', c, i)
  {
    hide Start, Cell;
    if MinuteSplit(saved, raws, b.raw, i) {
      var r, j: nat :| r in raws && j < |saved| && SplitsMinute(saved[i], saved[j], r) && Older(saved[j], b.raw);
      assert more[j] == saved[j] && more[i] == saved[i];
    }
    if FiveSplit(saved, minutes, b, i) {
      var a, j: nat :| a in minutes && j < |saved| && SplitsFive(saved[i], saved[j], a) && Passed(saved[j], b);
      assert more[j] == saved[j] && more[i] == saved[i];
    }
  }

  // ---- what holds while samples come in time ----

  /** The raw table holds the samples not older than the last raw cutoff, and those saved
      since the fold are not older than its cutoff either. */
  ghost predicate InTime(p: Past) {
    var l, saved, s := p.l, p.l.store.saved, p.l.store;
    && Sound(l)
    && s.pruned.raw <= s.asked.raw
    && (s.next >= 3 ==> s.pruned.raw == s.asked.raw)
    && (forall i: nat :: i < |saved| ==> (i in l.raw <==> !Older(saved[i], s.pruned.raw)))
    && (s.next >= 1 ==> forall i: nat :: i in l.recent && i < |saved| ==> !Older(saved[i], s.asked.raw))
    && (forall r :: r in p.raws ==> r <= s.pruned.raw)
    && (s.pruned.raw in p.raws || forall i: nat :: i < |saved| ==> i in l.raw)
  }

  /** The minute rows deleted so far, and those still there. */
  ghost predicate MinutesInTime(p: Past) {
    var l, saved, s := p.l, p.l.store.saved, p.l.store;
    && (forall b :: b in p.minutes ==> p.last.Some? && NoLater(b, p.last.value))
    && (p.last.Some? ==> p.last.value in p.minutes && p.last.value.raw <= s.pruned.raw && p.last.value.minute <= s.asked.minute)
    && (forall i: nat :: i in l.moved && i < |saved| ==> p.last.Some? && Passed(saved[i], p.last.value))
    && (forall b, i: nat :: b in p.minutes && i < |saved| && Passed(saved[i], b) ==> i in l.moved)
    && (forall k, i: nat :: InRow(l.counted, k, i) && i < |saved| && k.resolution.Minute? ==>
          p.last.None? || !Passed(saved[i], p.last.value))
    && (forall i: nat :: i < |saved| && i !in l.raw && i !in l.moved ==> CellOf(saved, Minute, i) in l.counted)
  }

  /** Whatever was overtaken was split off. */
  ghost predicate OnlySplit(p: Past) {
    forall i: nat :: i in p.l.overtaken && i < |p.l.store.saved| ==>
      || MinuteSplit(p.l.store.saved, p.raws, p.l.store.asked.raw, i)
      || FiveSplit(p.l.store.saved, p.minutes, p.l.store.asked, i)
  }

  /** Sample j has been folded into its minute, or into its five minutes. */
  ghost predicate FoldedOnce(l: Ledger, j: nat)
    requires j < |l.store.saved|
  {
    j !in l.raw || (1 <= l.store.next && j !in l.recent && Older(l.store.saved[j], l.store.asked.raw))
  }

  ghost predicate FoldedTwice(l: Ledger, j: nat)
    requires j < |l.store.saved|
  {
    j in l.moved || (2 <= l.store.next <= 3 && Passed(l.store.saved[j], l.store.asked))
  }

  /** Whatever was split off from a sample folded since was overtaken. */
  ghost predicate AllSplit(p: Past) {
    AllMinuteSplit(p) && AllFiveSplit(p)
  }

  ghost predicate AllMinuteSplit(p: Past) {
    var l, saved := p.l, p.l.store.saved;
    forall r, i: nat, j: nat ::
      r in p.raws && i < |saved| && j < |saved| && SplitsMinute(saved[i], saved[j], r) && FoldedOnce(l, j) ==>
        i in l.overtaken
  }

  ghost predicate AllFiveSplit(p: Past) {
    var l, saved := p.l, p.l.store.saved;
    forall b, i: nat, j: nat ::
      b in p.minutes && i < |saved| && j < |saved| && SplitsFive(saved[i], saved[j], b) && FoldedTwice(l, j) ==>
        i in l.overtaken
  }

  ghost predicate Steady(p: Past) {
    Sound(p.l) && InTime(p) && MinutesInTime(p) && OnlySplit(p) && AllSplit(p)
  }

  // ---- one event ----

  lemma OnlySplitStays(p: Past, m: Past)
    requires OnlySplit(p) && p.l.store.saved <= m.l.store.saved && p.raws <= m.raws && p.minutes <= m.minutes
    requires NoLater(p.l.store.asked, m.l.store.asked)
    requires forall i: nat :: i in m.l.overtaken && i < |m.l.store.saved| && !(i in p.l.overtaken && i < |p.l.store.saved|) ==>
               || MinuteSplit(m.l.store.saved, m.raws, m.l.store.asked.raw, i)
               || FiveSplit(m.l.store.saved, m.minutes, m.l.store.asked, i)
    ensures OnlySplit(m)
  {
    hide MinuteSplit, FiveSplit;
    forall i: nat | i in p.l.overtaken && i < |p.l.store.saved|
      ensures || MinuteSplit(m.l.store.saved, m.raws, m.l.store.asked.raw, i)
              || FiveSplit(m.l.store.saved, m.minutes, m.l.store.asked, i)
    {
      SplitsStay(p.l.store.saved, m.l.store.saved, p.raws, m.raws, p.minutes, m.minutes, p.l.store.asked, m.l.store.asked, i);
    }
  }

  lemma SaveInTime(p: Past, m: Past, x: Sample)
    requires InTime(p) && MinutesInTime(p) && Timely(p.l.store, Save(x)) && m == Advance(p, Save(x)) && Sound(m.l)
    ensures InTime(m) && MinutesInTime(m)
  {
    var saved := p.l.store.saved;
    SaveParts(p.l, x);
    hide Track, Next, Sound, Start, Cell, Select;
    assert Placed(p.l) && FromFolds(p.l) by { SoundHas(p.l); }
    assert forall i: nat :: i < |saved| ==> m.l.store.saved[i] == saved[i];
    assert forall i: nat :: i < |saved| ==> CellOf(m.l.store.saved, Minute, i) == CellOf(saved, Minute, i);
    hide CellOf, InRow;
    assert InTime(m);
  }

  lemma SoundHas(l: Ledger)
    requires Sound(l)
    ensures Placed(l) && FromFolds(l) && Present(l) && Underway(l) && Deleted(l)
  {
    hide Placed, FromFolds, Present, Underway, Deleted, Absent, Recorded;
  }

  lemma SaveSplit(p: Past, m: Past, x: Sample)
    requires Steady(p) && Timely(p.l.store, Save(x)) && m == Advance(p, Save(x))
    ensures OnlySplit(m) && AllSplit(m)
  {
    var saved := p.l.store.saved;
    SaveParts(p.l, x);
    hide Track, Next, Start, Cell, Select, Sound;
    assert Placed(p.l) by { SoundHas(p.l); }
    assert forall i: nat :: i < |saved| ==> m.l.store.saved[i] == saved[i];
    OnlySplitStays(p, m);
    hide MinuteSplit, FiveSplit, OnlySplit;
    assert AllSplit(m);
  }

  lemma StopInTime(p: Past, m: Past)
    requires InTime(p) && MinutesInTime(p) && Possible(p.l.store, Stop) && m == Advance(p, Stop) && Sound(m.l)
    ensures InTime(m) && MinutesInTime(m)
  {
    hide Sound, Older, InRow, CellOf, Passed, NoLater;
  }

  lemma StopSplit(p: Past, m: Past)
    requires OnlySplit(p) && AllSplit(p) && Possible(p.l.store, Stop) && m == Advance(p, Stop)
    ensures OnlySplit(m) && AllSplit(m)
  {
    hide Older, MinuteSplit, FiveSplit, SplitsMinute, SplitsFive, Passed;
    OnlySplitStays(p, m);
    assert forall j: nat :: j < |m.l.store.saved| && FoldedOnce(m.l, j) ==> FoldedOnce(p.l, j);
    assert forall j: nat :: j < |m.l.store.saved| && FoldedTwice(m.l, j) ==> FoldedTwice(p.l, j);
    hide FoldedOnce, FoldedTwice, OnlySplit;
  }

  lemma GroupsOf(l: Ledger, cutoff: int)
    requires Sound(l)
    ensures forall i: nat :: i in l.raw && i < |l.store.saved| && Older(l.store.saved[i], cutoff) ==>
              CellOf(l.store.saved, Minute, i) in Groups(l, cutoff)
    ensures forall k: Key :: k in Groups(l, cutoff) ==>
              && k.resolution.Minute?
              && exists j: nat :: j in l.raw && j < |l.store.saved| && Older(l.store.saved[j], cutoff) && CellOf(l.store.saved, Minute, j) == k
  {
    assert l.store.tables.raw == Select(l.store.saved, l.raw);
    hide Sound;
    GroupsRecorded(l, cutoff);
    forall k: Key | k in Groups(l, cutoff)
      ensures exists j: nat :: j in l.raw && j < |l.store.saved| && Older(l.store.saved[j], cutoff) && CellOf(l.store.saved, Minute, j) == k
    {
      var j :| j in Groups(l, cutoff)[k];
    }
    hide Groups, CellOf;
  }

  lemma BeginInTime(p: Past, m: Past, c: Cutoffs)
    requires InTime(p) && Possible(p.l.store, Begin(c)) && m == Advance(p, Begin(c)) && Sound(m.l)
    ensures InTime(m)
  {
    hide Track, Next, Sound, Start, Cell, Select, MinuteGroups, OvertakenMinutes, Groups;
    BeginParts(p.l, c);
  }

  lemma BeginMinutesInTime(p: Past, m: Past, c: Cutoffs)
    requires InTime(p) && MinutesInTime(p) && Possible(p.l.store, Begin(c)) && m == Advance(p, Begin(c))
    ensures MinutesInTime(m)
  {
    var saved, g := p.l.store.saved, Groups(p.l, c.raw);
    assert Recorded(p.l) && Placed(p.l);
    BeginParts(p.l, c);
    BeginRegroups(p.l, c);
    hide Track, Next, Sound, Start, Cell, Select, MinuteGroups, MinuteKeys, OvertakenMinutes, Groups, Recorded, Placed, CellOf, InRow;
    forall k, i: nat | InRow(m.l.counted, k, i) && i < |saved| && k.resolution.Minute?
      ensures m.last.None? || !Passed(saved[i], m.last.value)
    {
      if k in g {
        assert i in g[k];
        assert !Older(saved[i], p.l.store.pruned.raw);
      } else {
        assert InRow(p.l.counted, k, i);
      }
    }
    hide Regroups;
  }

  lemma BeginOvertakes(p: Past, c: Cutoffs, i: nat)
    requires InTime(p) && Sound(p.l) && i in OvertakenMinutes(p.l, c.raw)
    ensures i < |p.l.store.saved| && MinuteSplit(p.l.store.saved, p.raws, c.raw, i)
  {
    hide Sound, Cell, Groups, MinuteKeys;
    var saved := p.l.store.saved;
    OvertakenAtBegin(p.l, c, i);
    GroupsOf(p.l, c.raw);
    var j: nat :| j in p.l.raw && j < |saved| && Older(saved[j], c.raw) && CellOf(saved, Minute, j) == CellOf(saved, Minute, i);
    CellIs(saved, i, Minute);
    CellIs(saved, j, Minute);
    assert SplitsMinute(saved[i], saved[j], p.l.store.pruned.raw);
  }

  lemma BeginOnlySplit(p: Past, m: Past, c: Cutoffs)
    requires Steady(p) && Possible(p.l.store, Begin(c)) && m == Advance(p, Begin(c))
    ensures OnlySplit(m)
  {
    hide Track, Next, Sound, InTime, OvertakenMinutes, Groups, MinuteGroups, MinutesInTime, AllSplit, MinuteSplit, FiveSplit;
    BeginParts(p.l, c);
    forall i: nat | i in OvertakenMinutes(p.l, c.raw)
      ensures i < |p.l.store.saved| && MinuteSplit(p.l.store.saved, p.raws, c.raw, i)
    {
      BeginOvertakes(p, c, i);
    }
    OnlySplitStays(p, m);
  }

  lemma BeginAllSplit(p: Past, m: Past, c: Cutoffs)
    requires Steady(p) && Possible(p.l.store, Begin(c)) && m == Advance(p, Begin(c))
    ensures AllSplit(m)
  {
    var saved := p.l.store.saved;
    assert Recorded(p.l) && Placed(p.l);
    BeginParts(p.l, c);
    BeginRegroups(p.l, c);
    GroupsOf(p.l, c.raw);
    hide Track, Next, Start, Select, Sound, MinuteGroups, MinuteKeys, OvertakenMinutes, Groups, Recorded, MinutesInTime, OnlySplit, InRow, Placed;
    forall r, i: nat, j: nat |
        r in m.raws && i < |saved| && j < |saved| && SplitsMinute(saved[i], saved[j], r) && FoldedOnce(m.l, j)
      ensures i in m.l.overtaken
    {
      CellIs(saved, i, Minute);
      CellIs(saved, j, Minute);
      if j !in p.l.raw { assert FoldedOnce(p.l, j); }
    }
    forall b, i: nat, j: nat |
        b in m.minutes && i < |saved| && j < |saved| && SplitsFive(saved[i], saved[j], b) && FoldedTwice(m.l, j)
      ensures i in m.l.overtaken
    {
      assert FoldedTwice(p.l, j);
    }
    hide Regroups, AllSplit, InTime, SplitsFive, SplitsMinute, FoldedOnce, FoldedTwice;
  }

  lemma FoldInTime(p: Past, m: Past)
    requires InTime(p) && MinutesInTime(p) && p.l.store.next == 1 && m == Advance(p, Step) && Sound(m.l)
    ensures InTime(m) && MinutesInTime(m)
  {
    var saved, f := p.l.store.saved, FiveKeys(p.l.store.tables.rollups, p.l.store.asked.minute);
    FoldParts(p.l);
    FoldRemerges(p.l);
    hide Track, Next, Sound, Start, Cell, Select, FiveKeys, FiveGroups, OvertakenFives, Refolds;
    assert InTime(m);
    forall k, i: nat | InRow(m.l.counted, k, i) && i < |saved| && k.resolution.Minute?
      ensures m.last.None? || !Passed(saved[i], m.last.value)
    {
      assert k !in f;
      assert InRow(p.l.counted, k, i);
    }
    hide CellOf, InRow, Merges;
  }

  lemma FoldOnlySplit(p: Past, m: Past)
    requires Steady(p) && p.l.store.next == 1 && m == Advance(p, Step)
    ensures OnlySplit(m)
  {
    var saved, a := p.l.store.saved, p.l.store.asked;
    FoldParts(p.l);
    FoldRemerges(p.l);
    SoundHas(p.l);
    hide Track, Next, Sound, Start, Select, FiveKeys, FiveGroups, Merges;
    forall i: nat | i in m.l.overtaken && i < |saved| && i !in p.l.overtaken
      ensures FiveSplit(saved, m.minutes, a, i)
    {
      var q := CellOf(saved, FiveMinute, i);
      var k :| k in p.l.counted && k.resolution.Minute? && FiveOf(k) == q && Start(k) < a.minute;
      var j := RowHas(p.l, k);
      CellFacts(saved, j);
      CellIs(saved, i, FiveMinute);
      CellIs(saved, j, FiveMinute);
      assert SplitsFive(saved[i], saved[j], p.last.value);
      assert Passed(saved[j], a);
    }
    OnlySplitStays(p, m);
  }

  lemma RowHas(l: Ledger, k: Key) returns (j: nat)
    requires Sound(l) && k in l.counted
    ensures InRow(l.counted, k, j) && j < |l.store.saved| && Cell(k.resolution, l.store.saved[j]) == k
    ensures CellOf(l.store.saved, k.resolution, j) == k && Older(l.store.saved[j], l.store.asked.raw)
  {
    assert l.counted[k] != {};
    j :| j in l.counted[k];
    assert InRow(l.counted, k, j);
    hide Cell, Start, Older;
  }

  lemma FoldMinuteSplit(p: Past, m: Past)
    requires AllMinuteSplit(p) && p.l.store.next == 1 && m == Advance(p, Step)
    ensures AllMinuteSplit(m)
  {
    hide Older, SplitsMinute, Track, Next, FiveGroups, Merges, OvertakenFives;
    FoldParts(p.l);
    assert forall j: nat :: j < |m.l.store.saved| && FoldedOnce(m.l, j) ==> FoldedOnce(p.l, j);
    hide FoldedOnce;
  }

  lemma FoldFiveSplit(p: Past, m: Past)
    requires Steady(p) && p.l.store.next == 1 && m == Advance(p, Step)
    ensures AllFiveSplit(m)
  {
    var saved, a := p.l.store.saved, p.l.store.asked;
    hide Track, Next, Select, FiveKeys, FiveGroups, Merges, AllMinuteSplit, OnlySplit;
    FoldParts(p.l);
    SoundHas(p.l);
    assert Recorded(p.l) by { hide Placed, FromFolds, Present, Absent, Deleted, Underway; }
    hide Sound;
    FoldRemerges(p.l);
    forall b, i: nat, j: nat |
        b in m.minutes && i < |saved| && j < |saved| && SplitsFive(saved[i], saved[j], b) && FoldedTwice(m.l, j)
      ensures i in m.l.overtaken
    {
      if j in p.l.moved {
        assert FoldedTwice(p.l, j);
      } else {
        RowStillThere(p, j);
        CellFacts(saved, j);
        CellIs(saved, i, FiveMinute);
        CellIs(saved, j, FiveMinute);
        CellIs(saved, j, Minute);
        hide Cell, CellOf, Start;
        assert Refolds(p.l.counted, a.minute, CellOf(saved, FiveMinute, j));
        assert i in p.l.moved;
        hide Refolds, FromFolds, Present, Deleted, Underway;
      }
    }
  }

  /** The minute row of a sample that has been folded, and not deleted, is there. */
  lemma RowStillThere(p: Past, j: nat)
    requires InTime(p) && MinutesInTime(p) && p.l.store.next == 1 && j < |p.l.store.saved|
    requires j !in p.l.moved && Older(p.l.store.saved[j], p.l.store.asked.raw)
    ensures CellOf(p.l.store.saved, Minute, j) in p.l.counted
  {
    SoundHas(p.l);
    InRowIs'(p.l.counted, CellOf(p.l.store.saved, Minute, j), j);
    hide Sound, CellOf, Cell, Start, Older, Passed, FromFolds, Present, Deleted, InRow;
  }

  lemma InRowIs'(counted: map<Key, set<nat>>, k: Key, i: nat)
    ensures InRow(counted, k, i) ==> k in counted
  {}

  lemma PruneRawInTime(p: Past, m: Past)
    requires InTime(p) && MinutesInTime(p) && p.l.store.next == 2 && m == Advance(p, Step) && Sound(m.l)
    ensures InTime(m) && MinutesInTime(m)
  {
    var saved := p.l.store.saved;
    SoundHas(p.l);
    PruneRawParts(p.l);
    hide Track, Next, Sound, Start, Cell, Select, Kept, Slipped, Placed, FromFolds, Present, Deleted, CellOf;
    assert InTime(m);
    forall i: nat | i < |saved| && i !in m.l.raw && i !in m.l.moved
      ensures CellOf(saved, Minute, i) in m.l.counted
    {
      InRowIs'(p.l.counted, CellOf(saved, Minute, i), i);
    }
    hide InRow, Underway;
  }

  lemma PruneRawSplit(p: Past, m: Past)
    requires Steady(p) && p.l.store.next == 2 && m == Advance(p, Step)
    ensures OnlySplit(m) && AllSplit(m)
  {
    var saved := p.l.store.saved;
    PruneRawParts(p.l);
    SoundHas(p.l);
    hide Track, Next, Sound, Start, Cell, Select, Kept, Present, Deleted, CellOf, FromFolds, Underway;
    assert m.l.overtaken == p.l.overtaken;
    hide MinuteSplit, FiveSplit;
    OnlySplitStays(p, m);
    hide OnlySplit, MinutesInTime;
    forall r, i: nat, j: nat |
        r in m.raws && i < |saved| && j < |saved| && SplitsMinute(saved[i], saved[j], r) && FoldedOnce(m.l, j)
      ensures i in m.l.overtaken
    {
      assert r in p.raws && FoldedOnce(p.l, j);
    }
    forall b, i: nat, j: nat |
        b in m.minutes && i < |saved| && j < |saved| && SplitsFive(saved[i], saved[j], b) && FoldedTwice(m.l, j)
      ensures i in m.l.overtaken
    {
      assert FoldedTwice(p.l, j);
    }
    hide InTime, SplitsFive, SplitsMinute, FoldedOnce, FoldedTwice;
  }

  lemma PruneMinutesRawInTime(p: Past, m: Past)
    requires InTime(p) && p.l.store.next == 3 && m == Advance(p, Step) && Sound(m.l)
    ensures InTime(m)
  {
    hide Track, Next, Sound, Start, Older, PruneRollups, Pruned, Moving;
    PruneMinutesParts(p.l);
  }

  lemma PruneMinutesRowsInTime(p: Past, m: Past)
    requires InTime(p) && MinutesInTime(p) && p.l.store.next == 3 && m == Advance(p, Step)
    ensures MinutesInTime(m)
  {
    hide Track, Next, Sound, Start, Cell, Select, PruneRollups, Placed, Present, Deleted, Underway;
    var saved := p.l.store.saved;
    SoundHas(p.l);
    PruneMinutesParts(p.l);
    forall i: nat | i < |saved|
      ensures CellOf(saved, Minute, i) == Cell(Minute, saved[i])
    {
      CellIs(saved, i, Minute);
    }
    forall k, i: nat | InRow(m.l.counted, k, i) && i < |saved| && k.resolution.Minute?
      ensures m.last.None? || !Passed(saved[i], m.last.value)
    {
      assert InRow(p.l.counted, k, i);
    }
    hide CellOf, InRow, FromFolds;
  }

  lemma PruneMinutesSplit(p: Past, m: Past)
    requires Steady(p) && p.l.store.next == 3 && m == Advance(p, Step)
    ensures OnlySplit(m) && AllSplit(m)
  {
    var saved, a := p.l.store.saved, p.l.store.asked;
    PruneMinutesParts(p.l);
    SoundHas(p.l);
    hide Track, Next, Sound, Start, Cell, Select, PruneRollups, Pruned, Present, Deleted, Underway;
    hide MinuteSplit, FiveSplit;
    OnlySplitStays(p, m);
    hide OnlySplit, FromFolds;
    forall b, i: nat, j: nat |
        b in m.minutes && i < |saved| && j < |saved| && SplitsFive(saved[i], saved[j], b) && FoldedTwice(m.l, j)
      ensures i in m.l.overtaken
    {
      CellIs(saved, j, Minute);
      if j !in p.l.moved { assert Passed(saved[j], a); }
      assert b != a;
      assert FoldedTwice(p.l, j);
    }
    forall r, i: nat, j: nat |
        r in m.raws && i < |saved| && j < |saved| && SplitsMinute(saved[i], saved[j], r) && FoldedOnce(m.l, j)
      ensures i in m.l.overtaken
    {
      assert FoldedOnce(p.l, j);
    }
    hide InTime, MinutesInTime, SplitsFive, SplitsMinute, FoldedOnce, FoldedTwice;
  }

  lemma PruneFivesInTime(p: Past, m: Past)
    requires InTime(p) && MinutesInTime(p) && p.l.store.next == 4 && m == Advance(p, Step) && Sound(m.l)
    ensures InTime(m) && MinutesInTime(m)
  {
    var saved := p.l.store.saved;
    SoundHas(p.l);
    PruneFivesParts(p.l);
    hide Track, Next, Sound, Start, Cell, Select, PruneRollups, Placed, Present, Deleted, Underway, FromFolds;
    assert InTime(m);
    forall i: nat | i < |saved|
      ensures CellOf(saved, Minute, i).resolution == Minute
    {
      CellFacts(saved, i);
    }
    hide CellOf;
    forall k, i: nat | InRow(m.l.counted, k, i) && i < |saved| && k.resolution.Minute?
      ensures m.last.None? || !Passed(saved[i], m.last.value)
    {
      assert InRow(p.l.counted, k, i);
    }
    hide InRow;
  }

  lemma PruneFivesSplit(p: Past, m: Past)
    requires Steady(p) && p.l.store.next == 4 && m == Advance(p, Step)
    ensures OnlySplit(m) && AllSplit(m)
  {
    var saved := p.l.store.saved;
    PruneFivesParts(p.l);
    hide Track, Next, Sound, Start, Cell, Select, PruneRollups, Pruned;
    hide MinuteSplit, FiveSplit;
    OnlySplitStays(p, m);
    hide OnlySplit;
    assert forall j: nat :: j < |saved| && FoldedOnce(m.l, j) ==> FoldedOnce(p.l, j);
    assert forall j: nat :: j < |saved| && FoldedTwice(m.l, j) ==> FoldedTwice(p.l, j);
    hide InTime, MinutesInTime, SplitsFive, SplitsMinute, FoldedOnce, FoldedTwice;
  }

  // ---- runs ----

  lemma AdvanceSteady(p: Past, e: Event)
    requires Steady(p) && Possible(p.l.store, e) && Timely(p.l.store, e)
    ensures Steady(Advance(p, e))
  {
    hide Track, Sound, InTime, MinutesInTime, OnlySplit, AllSplit;
    var m := Advance(p, e);
    TrackSound(p.l, e);
    match e
    case Save(x) =>
      SaveInTime(p, m, x);
      SaveSplit(p, m, x);
    case Begin(c) =>
      BeginInTime(p, m, c);
      BeginMinutesInTime(p, m, c);
      BeginOnlySplit(p, m, c);
      BeginAllSplit(p, m, c);
    case Stop =>
      StopInTime(p, m);
      StopSplit(p, m);
    case Step => StepSteady(p, m);
  }

  lemma StepSteady(p: Past, m: Past)
    requires Steady(p) && 1 <= p.l.store.next < 5 && m == Advance(p, Step) && Sound(m.l)
    ensures Steady(m)
  {
    hide Advance, Sound, InTime, MinutesInTime, OnlySplit, AllMinuteSplit, AllFiveSplit;
    if p.l.store.next == 1 {
      FoldInTime(p, m);
      FoldOnlySplit(p, m);
      FoldMinuteSplit(p, m);
      FoldFiveSplit(p, m);
    } else if p.l.store.next == 2 {
      PruneRawInTime(p, m);
      PruneRawSplit(p, m);
    } else if p.l.store.next == 3 {
      PruneMinutesRawInTime(p, m);
      PruneMinutesRowsInTime(p, m);
      PruneMinutesSplit(p, m);
    } else {
      PruneFivesInTime(p, m);
      PruneFivesSplit(p, m);
    }
  }

  /** A run in which no sample comes late; its cutoffs need only not go back. */
  ghost predicate RunsTimely(p: Past, events: seq<Event>)
    decreases |events|
  {
    |events| == 0
    || (Possible(p.l.store, events[0]) && Timely(p.l.store, events[0]) && RunsTimely(Advance(p, events[0]), events[1..]))
  }

  ghost function PastOf(p: Past, events: seq<Event>): Past
    requires RunsTimely(p, events)
    decreases |events|
  {
    if |events| == 0 then p else PastOf(Advance(p, events[0]), events[1..])
  }

  lemma {:induction false} RunSteady(p: Past, events: seq<Event>)
    requires Steady(p) && RunsTimely(p, events)
    ensures Steady(PastOf(p, events))
    decreases |events|
  {
    if |events| == 0 {
    } else {
      AdvanceSteady(p, events[0]);
      RunSteady(Advance(p, events[0]), events[1..]);
    }
  }

  ghost function NoPast(origin: Cutoffs): Past {
    Past(Empty(origin), {}, {}, None)
  }

  lemma NoPastSteady(origin: Cutoffs)
    ensures Steady(NoPast(origin))
  {
    EmptySound(origin);
  }

  /** One of the cutoffs of the run has split a bucket between sample i and another sample,
      and both have since been folded. */
  ghost predicate SplitOff(p: Past, i: nat)
    requires i < |p.l.store.saved|
  {
    || MinuteSplit(p.l.store.saved, p.raws, p.l.store.asked.raw, i)
    || FiveSplit(p.l.store.saved, p.minutes, p.l.store.asked, i)
  }

  lemma OvertakenIsSplitOff(p: Past, i: nat)
    requires Steady(p) && Completed(p.l) && p.l.store.pruned.raw == p.l.store.asked.raw && i < |p.l.store.saved|
    ensures i in p.l.overtaken <==> SplitOff(p, i)
  {
    var saved, a := p.l.store.saved, p.l.store.asked;
    hide Sound, Start, Cell, Recorded, MinutesInTime;
    if MinuteSplit(saved, p.raws, a.raw, i) {
      var r, j: nat :| r in p.raws && j < |saved| && SplitsMinute(saved[i], saved[j], r) && Older(saved[j], a.raw);
      assert FoldedOnce(p.l, j);
    }
    if FiveSplit(saved, p.minutes, a, i) {
      var b, j: nat :| b in p.minutes && j < |saved| && SplitsFive(saved[i], saved[j], b) && Passed(saved[j], a);
      CellIs(saved, j, Minute);
      assert FoldedTwice(p.l, j);
    }
    hide MinuteSplit, FiveSplit, Completed, AllSplit, InTime;
  }

  lemma LastStep(p: Past)
    requires Steady(p) && p.l.store.next == 4
    ensures var m := Advance(p, Step);
            Steady(m) && Completed(m.l) && m.l.store.pruned.raw == m.l.store.asked.raw
  {
    AdvanceSteady(p, Step);
    LastStepCompletes(p.l);
    PruneFivesParts(p.l);
    hide Steady, Completed, Track, PruneRollups, Pruned, Next;
  }

  /** Over every run in which no sample comes late, whatever its cutoffs and stops: when a pass
      completes, nothing is lost exactly when no raw cutoff has split a minute between samples,
      and no minute cutoff five minutes, that were both folded and have not aged out. */
  lemma TimelyRunsConserveIff(origin: Cutoffs, events: seq<Event>)
    requires RunsTimely(NoPast(origin), events) && PastOf(NoPast(origin), events).l.store.next == 4
    ensures var p := Advance(PastOf(NoPast(origin), events), Step);
            Conserves(p.l) <==> forall i: nat :: i < |p.l.store.saved| && SplitOff(p, i) ==> AgedOut(p.l, i)
  {
    var p := Advance(PastOf(NoPast(origin), events), Step);
    NoPastSteady(origin);
    RunSteady(NoPast(origin), events);
    LastStep(PastOf(NoPast(origin), events));
    CompletedAccount(p.l);
    NothingLost(p.l);
    hide Advance, PastOf, RunsTimely, Steady, Completed, Conservation.Weight, AgedOutAt, LostAt, SplitOff, AgedOut;
    forall i: nat | i < |p.l.store.saved|
      ensures i in p.l.overtaken <==> SplitOff(p, i)
    {
      OvertakenIsSplitOff(p, i);
    }
  }
}
