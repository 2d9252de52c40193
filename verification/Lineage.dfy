/** Which saved samples every row counts, over any run: samples as late as they like, passes
    that stop anywhere, cutoffs that only must not go back. */
module Lineage {
  import opened Retention
  import opened RetentionRuns
  import opened Selection
  import Folding

  /** A store with the history of its samples, which are named by their position in `saved`:
      those in the raw table, those saved since the last minute fold, those whose minute row
      has been deleted after they left the raw table, those whose bucket was folded again
      without them, and the samples every row counts. */
  datatype Ledger = Ledger(
    store: Store, raw: set<nat>, recent: set<nat>, moved: set<nat>, overtaken: set<nat>, counted: map<Key, set<nat>>)

  ghost function Empty(origin: Cutoffs): Ledger {
    Ledger(Fresh(origin), {}, {}, {}, {}, map[])
  }

  // ---- what a statement does to the samples ----

  ghost predicate InRow(counted: map<Key, set<nat>>, k: Key, i: nat) {
    k in counted && i in counted[k]
  }

  ghost function CellOf(saved: seq<Sample>, r: Resolution, i: nat): Key
    requires i < |saved|
  {
    Cell(r, saved[i])
  }

  /** The samples a minute fold counts, by bucket. */
  ghost function Groups(l: Ledger, cutoff: int): map<Key, set<nat>> {
    map k | k in MinuteKeys(l.store.tables.raw, cutoff) :: GroupAt(l.store.saved, l.raw, cutoff, k)
  }

  /** Samples that have left the raw table although their minute still has raw samples that
      a minute fold will read: its row is replaced by one that does not count them. */
  ghost function OvertakenMinutes(l: Ledger, cutoff: int): set<nat> {
    set i: nat | i < |l.store.saved| && i !in l.raw && CellOf(l.store.saved, Minute, i) in MinuteKeys(l.store.tables.raw, cutoff)
  }

  /** The samples a five-minute fold counts in bucket q. */
  ghost function MergedAt(l: Ledger, q: Key): set<nat> {
    set k, i | k in l.counted && Foldable(l.store.tables.rollups, l.store.asked.minute, k) && FiveOf(k) == q && i in l.counted[k] :: i
  }

  ghost function Merges(l: Ledger): map<Key, set<nat>> {
    map q | q in FiveKeys(l.store.tables.rollups, l.store.asked.minute) :: MergedAt(l, q)
  }

  /** Samples whose minute row is gone although their five minutes still have minute rows
      that a five-minute fold will read. */
  ghost function OvertakenFives(l: Ledger): set<nat> {
    set i | i in l.moved && i < |l.store.saved| && CellOf(l.store.saved, FiveMinute, i) in FiveKeys(l.store.tables.rollups, l.store.asked.minute)
  }

  /** Samples saved after the minute fold that the raw prune of the same pass deletes. */
  ghost function Slipped(l: Ledger): set<nat> {
    set i | i in l.recent && i < |l.store.saved| && Older(l.store.saved[i], l.store.asked.raw)
  }

  /** Samples no longer raw whose minute row the minute prune deletes. */
  ghost function Moving(l: Ledger): set<nat> {
    set i: nat | i < |l.store.saved| && i !in l.raw && Start(CellOf(l.store.saved, Minute, i)) < l.store.asked.minute
  }

  ghost function Pruned(l: Ledger, r: Resolution, cutoff: int): map<Key, set<nat>> {
    map k | k in l.counted && !(k.resolution == r && Start(k) < cutoff) :: l.counted[k]
  }

  ghost function Track(l: Ledger, e: Event): Ledger
    requires Possible(l.store, e)
  {
    var s, after := l.store, Next(l.store, e);
    match e
    case Save(x) => l.(store := after, raw := l.raw + {|s.saved|}, recent := l.recent + {|s.saved|})
    case Begin(c) =>
      l.(store := after, recent := {}, counted := l.counted + Groups(l, c.raw),
         overtaken := l.overtaken + OvertakenMinutes(l, c.raw))
    case Stop => l.(store := after)
    case Step =>
      match s.next
      case 1 => l.(store := after, counted := l.counted + Merges(l), overtaken := l.overtaken + OvertakenFives(l))
      case 2 =>
        l.(store := after, raw := KeptAt(s.saved, l.raw, s.asked.raw), recent := KeptAt(s.saved, l.recent, s.asked.raw),
           overtaken := l.overtaken + Slipped(l))
      case 3 => l.(store := after, counted := Pruned(l, Minute, s.asked.minute), moved := l.moved + Moving(l))
      case _ => l.(store := after, counted := Pruned(l, FiveMinute, s.asked.five))
  }

  // ---- what holds between any two statements ----

  /** The tables are what the ledger says. */
  ghost predicate Recorded(l: Ledger) {
    var t, saved := l.store.tables, l.store.saved;
    && l.store.next < 5
    && t.raw == Select(saved, l.raw)
    && t.rollups.Keys == l.counted.Keys
    && forall k :: k in l.counted ==> t.rollups[k].samples == |l.counted[k]| > 0
  }

  ghost predicate Placed(l: Ledger) {
    var saved := l.store.saved;
    && Positions(saved, l.raw) && Positions(saved, l.moved) && Positions(saved, l.overtaken)
    && l.recent <= l.raw && l.moved !! l.raw && l.overtaken !! l.raw
    && forall i: nat :: i < |saved| && i !in l.raw ==> saved[i].timestamp.Some?
  }

  /** A row counts samples of its own bucket that a fold has read. */
  ghost predicate FromFolds(l: Ledger) {
    var saved, a := l.store.saved, l.store.asked;
    forall k, i: nat :: InRow(l.counted, k, i) ==>
      && i < |saved| && i !in l.recent && Older(saved[i], a.raw) && Cell(k.resolution, saved[i]) == k
      && (k.resolution.FiveMinute? ==> Start(Cell(Minute, saved[i])) < a.minute)
  }

  /** A sample that has left the raw table, and was not overtaken, is in the row of its
      minute; once that is deleted, in that of its five minutes, until it ages out. */
  ghost predicate Present(l: Ledger) {
    forall i: nat :: i < |l.store.saved| && i !in l.raw && i !in l.overtaken ==>
      if i !in l.moved then InRow(l.counted, CellOf(l.store.saved, Minute, i), i)
      else InRow(l.counted, CellOf(l.store.saved, FiveMinute, i), i) || Start(CellOf(l.store.saved, FiveMinute, i)) < l.store.asked.five
  }

  /** The five-minute row q has minute rows that a completed pass will fold. */
  ghost predicate Refolds(counted: map<Key, set<nat>>, cutoff: int, q: Key) {
    exists k :: k in counted && k.resolution.Minute? && FiveOf(k) == q && Start(k) < cutoff
  }

  /** An overtaken sample is in no row, or in a five-minute row about to be replaced. */
  ghost predicate Absent(l: Ledger) {
    forall i: nat :: i in l.overtaken && i < |l.store.saved| ==>
      && !InRow(l.counted, CellOf(l.store.saved, Minute, i), i)
      && (InRow(l.counted, CellOf(l.store.saved, FiveMinute, i), i) ==> l.store.next < 2 && Refolds(l.counted, l.store.asked.minute, CellOf(l.store.saved, FiveMinute, i)))
  }

  ghost predicate Deleted(l: Ledger) {
    forall i: nat :: i in l.moved && i < |l.store.saved| ==>
      !InRow(l.counted, CellOf(l.store.saved, Minute, i), i) && Start(CellOf(l.store.saved, Minute, i)) < l.store.asked.minute
  }

  /** Where the running pass stands. */
  ghost predicate Underway(l: Ledger) {
    var saved, a, next := l.store.saved, l.store.asked, l.store.next;
    && (1 <= next <= 2 ==> forall i: nat :: i in l.raw && i < |saved| && i !in l.recent && Older(saved[i], a.raw) ==>
          InRow(l.counted, CellOf(l.store.saved, Minute, i), i))
    && (2 <= next <= 3 ==> forall k, i: nat :: InRow(l.counted, k, i) && k.resolution.Minute? && Start(k) < a.minute ==>
          InRow(l.counted, FiveOf(k), i))
    && (3 <= next ==> forall i: nat :: i in l.raw && i < |saved| && i !in l.recent ==> !Older(saved[i], a.raw))
    && (4 <= next ==> forall k :: k in l.counted && k.resolution.Minute? ==> a.minute <= Start(k))
    && (4 <= next ==> forall i: nat :: i < |saved| && i !in l.raw && Start(CellOf(l.store.saved, Minute, i)) < a.minute ==> i in l.moved)
  }

  ghost predicate Sound(l: Ledger) {
    Recorded(l) && Placed(l) && FromFolds(l) && Present(l) && Absent(l) && Deleted(l) && Underway(l)
  }

  // ---- one event ----

  lemma SaveParts(l: Ledger, x: Sample)
    ensures var m, s, n := Track(l, Save(x)), l.store, |l.store.saved|;
            m == Ledger(s.(tables := s.tables.(raw := s.tables.raw + [x]), saved := s.saved + [x]),
                        l.raw + {n}, l.recent + {n}, l.moved, l.overtaken, l.counted)
  {}

  /** m is l with one more sample, in the raw table only. */
  ghost predicate Extends(l: Ledger, m: Ledger) {
    var saved, n := l.store.saved, |l.store.saved|;
    && |m.store.saved| == n + 1
    && (forall i: nat :: i < n ==> m.store.saved[i] == saved[i])
    && (forall i: nat, r :: i < n ==> CellOf(m.store.saved, r, i) == CellOf(saved, r, i))
    && m.raw == l.raw + {n} && m.recent == l.recent + {n} && m.moved == l.moved
    && m.overtaken == l.overtaken && m.counted == l.counted
    && m.store.asked == l.store.asked && m.store.next == l.store.next
  }

  lemma SaveExtends(l: Ledger, x: Sample)
    ensures Extends(l, Track(l, Save(x)))
  {
    SaveParts(l, x);
    var m := Track(l, Save(x));
    hide Track;
    assert forall i: nat :: i < |l.store.saved| ==> m.store.saved[i] == l.store.saved[i];
    hide Cell;
  }

  lemma SavePlaced(l: Ledger, m: Ledger)
    requires Extends(l, m) && Placed(l) && FromFolds(l)
    ensures Placed(m) && FromFolds(m)
  {
    hide CellOf, Cell, Start, Older, InRow;
  }

  lemma SavePresent(l: Ledger, m: Ledger)
    requires Extends(l, m) && Placed(l) && Present(l) && Absent(l) && Deleted(l)
    ensures Present(m) && Absent(m) && Deleted(m)
  {
    hide CellOf, Start, InRow, Refolds;
  }

  lemma SaveUnderway(l: Ledger, m: Ledger)
    requires Extends(l, m) && Underway(l)
    ensures Underway(m)
  {
    hide CellOf, Start, Older, InRow;
  }

  lemma SaveRecorded(l: Ledger, x: Sample)
    requires Recorded(l)
    ensures Recorded(Track(l, Save(x)))
  {
    hide Select, Track, Next;
    SaveParts(l, x);
    SelectSave(l.store.saved, l.raw, x);
  }

  lemma SaveSound(l: Ledger, x: Sample)
    requires Sound(l)
    ensures Sound(Track(l, Save(x)))
  {
    hide Track, Extends, Recorded, Placed, FromFolds, Present, Absent, Deleted, Underway;
    var m := Track(l, Save(x));
    SaveExtends(l, x);
    SavePlaced(l, m);
    SavePresent(l, m);
    SaveUnderway(l, m);
    SaveRecorded(l, x);
  }

  lemma StopSound(l: Ledger)
    requires Sound(l) && Possible(l.store, Stop)
    ensures Sound(Track(l, Stop))
  {
    hide Select, Cell, Start, Older, CellOf, InRow, Refolds;
  }

  lemma GroupsRecorded(l: Ledger, cutoff: int)
    requires l.store.tables.raw == Select(l.store.saved, l.raw)
    ensures var g, rows := Groups(l, cutoff), MinuteGroups(l.store.tables.raw, cutoff);
            && g.Keys == rows.Keys
            && (forall k :: k in g ==> k.resolution.Minute? && rows[k].samples == |g[k]| > 0)
            && GroupsRaw(l.store.saved, l.raw, cutoff, g)
            && (forall i: nat :: i in l.raw && i < |l.store.saved| && Older(l.store.saved[i], cutoff) ==>
                  CellOf(l.store.saved, Minute, i) in g && i in g[CellOf(l.store.saved, Minute, i)])
  {
    forall k: Key | k.resolution.Minute?
      ensures |MinuteGroup(l.store.tables.raw, cutoff, k)| == |GroupAt(l.store.saved, l.raw, cutoff, k)|
      ensures k in MinuteKeys(l.store.tables.raw, cutoff) <==> GroupAt(l.store.saved, l.raw, cutoff, k) != {}
    {
      SelectGroup(l.store.saved, l.raw, cutoff, k);
    }
    hide Select, MinuteGroup;
    forall i: nat | i in l.raw && i < |l.store.saved| && Older(l.store.saved[i], cutoff)
      ensures CellOf(l.store.saved, Minute, i) in Groups(l, cutoff)
    {
      assert i in GroupAt(l.store.saved, l.raw, cutoff, CellOf(l.store.saved, Minute, i));
    }
  }

  /** How m follows from l by a minute fold with groups g: rows with a group are replaced,
      and the samples of their minutes that are no longer raw are overtaken. */
  ghost predicate Regroups(l: Ledger, m: Ledger, g: map<Key, set<nat>>) {
    && m.store.saved == l.store.saved && m.raw == l.raw && m.moved == l.moved && m.recent == {}
    && l.store.next == 0 && m.store.next == 1 && l.store.asked.raw <= m.store.asked.raw
    && l.store.asked.minute <= m.store.asked.minute && l.store.asked.five <= m.store.asked.five
    && RowsReplaced(l.counted, m.counted, g)
    && GroupsRaw(l.store.saved, l.raw, m.store.asked.raw, g)
    && (forall i: nat :: i in l.raw && i < |l.store.saved| && Older(l.store.saved[i], m.store.asked.raw) ==>
          InRow(m.counted, CellOf(l.store.saved, Minute, i), i))
    && (forall i: nat :: i in m.overtaken <==>
          i in l.overtaken || (i < |l.store.saved| && i !in l.raw && CellOf(l.store.saved, Minute, i) in g))
  }

  ghost predicate RowsReplaced(a: map<Key, set<nat>>, b: map<Key, set<nat>>, g: map<Key, set<nat>>) {
    && (forall k: Key, i: nat :: InRow(b, k, i) <==> if k in g then i in g[k] else InRow(a, k, i))
    && (forall k :: k in a || k in g ==> k in b)
  }

  /** The groups hold raw samples of their minute older than the cutoff. */
  ghost predicate GroupsRaw(saved: seq<Sample>, raw: set<nat>, cutoff: int, g: map<Key, set<nat>>) {
    && (forall k: Key :: k in g ==> k.resolution.Minute?)
    && (forall k: Key, i: nat :: k in g && i in g[k] ==>
          i in raw && i < |saved| && Older(saved[i], cutoff) && CellOf(saved, Minute, i) == k)
  }

  lemma BeginParts(l: Ledger, c: Cutoffs)
    requires Possible(l.store, Begin(c))
    ensures var m, t := Track(l, Begin(c)), l.store.tables;
            && m == Ledger(Store(t.(rollups := t.rollups + MinuteGroups(t.raw, c.raw)), l.store.saved, l.store.pruned, c, 1),
                           l.raw, {}, l.moved, l.overtaken + OvertakenMinutes(l, c.raw), l.counted + Groups(l, c.raw))
  {
    hide MinuteGroups, Groups, OvertakenMinutes;
  }

  lemma RowsOfUnion(a: map<Key, set<nat>>, g: map<Key, set<nat>>)
    ensures RowsReplaced(a, a + g, g)
  {}

  lemma OvertakenAtBegin(l: Ledger, c: Cutoffs, i: nat)
    ensures i in OvertakenMinutes(l, c.raw) <==>
              i < |l.store.saved| && i !in l.raw && CellOf(l.store.saved, Minute, i) in Groups(l, c.raw)
  {
    hide CellOf, MinuteKeys;
  }

  lemma GroupsAreRaw(l: Ledger, cutoff: int)
    requires l.store.tables.raw == Select(l.store.saved, l.raw)
    ensures GroupsRaw(l.store.saved, l.raw, cutoff, Groups(l, cutoff))
    ensures forall i: nat :: i in l.raw && i < |l.store.saved| && Older(l.store.saved[i], cutoff) ==>
              InRow(Groups(l, cutoff), CellOf(l.store.saved, Minute, i), i)
  {
    hide Select, MinuteGroups, Groups, CellOf, Older;
    GroupsRecorded(l, cutoff);
  }

  lemma BeginRegroups(l: Ledger, c: Cutoffs)
    requires Recorded(l) && Placed(l) && Possible(l.store, Begin(c))
    ensures Regroups(l, Track(l, Begin(c)), Groups(l, c.raw))
  {
    hide Track, Next, Select, Older, CellOf, Groups, OvertakenMinutes, MinuteGroups, GroupsRaw, Placed;
    BeginParts(l, c);
    var m, g := Track(l, Begin(c)), Groups(l, c.raw);
    GroupsAreRaw(l, c.raw);
    RowsOfUnion(l.counted, g);
    forall i: nat
      ensures i in m.overtaken <==>
                i in l.overtaken || (i < |l.store.saved| && i !in l.raw && CellOf(l.store.saved, Minute, i) in g)
    {
      OvertakenAtBegin(l, c, i);
    }
  }

  lemma BeginRecorded(l: Ledger, c: Cutoffs)
    requires Recorded(l) && Possible(l.store, Begin(c))
    ensures Recorded(Track(l, Begin(c)))
  {
    hide Track, Next, Groups, MinuteGroups, Select, Cell, Older, CellOf;
    BeginParts(l, c);
    GroupsRecorded(l, c.raw);
  }

  lemma CellFacts(saved: seq<Sample>, i: nat)
    requires i < |saved|
    ensures CellOf(saved, Minute, i).resolution == Minute && CellOf(saved, FiveMinute, i).resolution == FiveMinute
    ensures FiveOf(CellOf(saved, Minute, i)) == CellOf(saved, FiveMinute, i)
  {
    FiveOfMinute(saved[i]);
  }

  lemma BeginFromFolds(l: Ledger, m: Ledger, g: map<Key, set<nat>>)
    requires Regroups(l, m, g) && Placed(l) && FromFolds(l)
    ensures Placed(m) && FromFolds(m)
  {
    hide Start, InRow;
    assert forall i: nat, r :: i < |m.store.saved| ==> CellOf(m.store.saved, r, i) == Cell(r, m.store.saved[i]);
    hide CellOf, Cell;
  }

  lemma BeginPresent(l: Ledger, m: Ledger, g: map<Key, set<nat>>)
    requires Regroups(l, m, g) && Placed(l) && Present(l) && Deleted(l)
    ensures Present(m) && Deleted(m)
  {
    forall i: nat | i < |l.store.saved|
      ensures CellOf(l.store.saved, FiveMinute, i).resolution == FiveMinute
    {
      CellFacts(l.store.saved, i);
    }
    hide Start, InRow, CellOf, Cell;
  }

  lemma BeginAbsent(l: Ledger, m: Ledger, g: map<Key, set<nat>>)
    requires Regroups(l, m, g) && Placed(l) && Absent(l) && FromFolds(l)
    ensures Absent(m)
  {
    var saved := l.store.saved;
    hide Start;
    forall i: nat | i in m.overtaken && i < |saved| && InRow(m.counted, CellOf(saved, FiveMinute, i), i)
      ensures Refolds(m.counted, m.store.asked.minute, CellOf(saved, FiveMinute, i))
    {
      CellFacts(saved, i);
      var q := CellOf(saved, FiveMinute, i);
      assert InRow(l.counted, q, i);
      assert CellOf(saved, Minute, i) == Cell(Minute, saved[i]);
      if i in l.overtaken {
        var k :| k in l.counted && k.resolution.Minute? && FiveOf(k) == q && Start(k) < l.store.asked.minute;
        assert k in m.counted;
      }
    }
    hide CellOf, Cell, Refolds;
  }

  lemma BeginUnderway(l: Ledger, m: Ledger, g: map<Key, set<nat>>)
    requires Regroups(l, m, g)
    ensures Underway(m)
  {
    hide InRow, CellOf, Start, Older, RowsReplaced, GroupsRaw;
  }

  // ---- the five-minute fold ----

  /** The samples of the foldable rows of one host in minutes first <= bucket < end. */
  ghost function SpanAt(rollups: map<Key, Row>, counted: map<Key, set<nat>>, cutoff: int, host: string, first: int, end: int): set<nat> {
    set k, i | k in counted && Foldable(rollups, cutoff, k) && k.host == host && first <= k.bucket < end && i in counted[k] :: i
  }

  /** No sample is counted by two minute rows. */
  ghost predicate Apart(counted: map<Key, set<nat>>) {
    forall j, k, i: nat :: InRow(counted, j, i) && InRow(counted, k, i) && j.resolution == k.resolution ==> j == k
  }

  lemma FoldsApart(l: Ledger)
    requires FromFolds(l)
    ensures Apart(l.counted)
  {
    hide Cell, Start, InRow;
  }

  lemma {:induction false} SpanCounts(rollups: map<Key, Row>, counted: map<Key, set<nat>>, cutoff: int, host: string, first: int, end: int)
    requires rollups.Keys == counted.Keys && Apart(counted)
    requires forall k :: k in counted ==> rollups[k].samples == |counted[k]|
    ensures TotalSamples(MinuteRows(rollups, cutoff, host, first, end)) == |SpanAt(rollups, counted, cutoff, host, first, end)|
    decreases end - first
  {
    var all := SpanAt(rollups, counted, cutoff, host, first, end);
    if end <= first {
      assert all == {};
    } else {
      var k := Key(Minute, end - 1, host);
      var before, rows := SpanAt(rollups, counted, cutoff, host, first, end - 1), MinuteRows(rollups, cutoff, host, first, end - 1);
      SpanCounts(rollups, counted, cutoff, host, first, end - 1);
      SpanStep(rollups, counted, cutoff, host, first, end);
      if Foldable(rollups, cutoff, k) {
        Folding.AddRow(rows, rollups[k], Cpu);
      } else {
        assert rows + [] == rows;
      }
      hide SpanAt, TotalSamples, Apart;
    }
  }

  lemma SpanStep(rollups: map<Key, Row>, counted: map<Key, set<nat>>, cutoff: int, host: string, first: int, end: int)
    requires rollups.Keys == counted.Keys && Apart(counted) && first < end
    ensures var k := Key(Minute, end - 1, host);
            var all, before := SpanAt(rollups, counted, cutoff, host, first, end), SpanAt(rollups, counted, cutoff, host, first, end - 1);
            if Foldable(rollups, cutoff, k) then all == before + counted[k] && before !! counted[k] else all == before
  {
    var k := Key(Minute, end - 1, host);
    var all, before := SpanAt(rollups, counted, cutoff, host, first, end), SpanAt(rollups, counted, cutoff, host, first, end - 1);
    forall i: nat
      ensures i in all <==> i in before || (Foldable(rollups, cutoff, k) && i in counted[k])
      ensures i in before && Foldable(rollups, cutoff, k) ==> i !in counted[k]
    {
      if i in all {
        var j :| j in counted && Foldable(rollups, cutoff, j) && j.host == host && first <= j.bucket < end && i in counted[j];
        if j.bucket == end - 1 { assert j == k; }
      }
      if i in before && Foldable(rollups, cutoff, k) && i in counted[k] {
        var j :| j in counted && Foldable(rollups, cutoff, j) && j.host == host && first <= j.bucket < end - 1 && i in counted[j];
        assert InRow(counted, j, i) && InRow(counted, k, i);
        assert false;
      }
    }
  }

  lemma MergedIsSpan(l: Ledger, q: Key)
    requires q.resolution.FiveMinute?
    ensures MergedAt(l, q) == SpanAt(l.store.tables.rollups, l.counted, l.store.asked.minute, q.host, 5 * q.bucket, 5 * q.bucket + 5)
  {
    hide Foldable;
    assert forall k: Key :: FiveOf(k) == q <==> k.host == q.host && 5 * q.bucket <= k.bucket < 5 * q.bucket + 5;
  }

  lemma MergedNonEmpty(l: Ledger, q: Key)
    requires Recorded(l) && q in FiveKeys(l.store.tables.rollups, l.store.asked.minute)
    ensures q.resolution.FiveMinute? && MergedAt(l, q) != {}
  {
    var rollups, cutoff := l.store.tables.rollups, l.store.asked.minute;
    hide Select;
    var k :| k in rollups && Foldable(rollups, cutoff, k) && q == Key(FiveMinute, k.bucket / 5, k.host);
    var i :| i in l.counted[k];
    assert i in MergedAt(l, q);
  }

  lemma MergesRecorded(l: Ledger, q: Key)
    requires Recorded(l) && FromFolds(l) && q in FiveKeys(l.store.tables.rollups, l.store.asked.minute)
    ensures q.resolution.FiveMinute?
    ensures FiveGroups(l.store.tables.rollups, l.store.asked.minute)[q].samples == |MergedAt(l, q)| > 0
  {
    var rollups, cutoff := l.store.tables.rollups, l.store.asked.minute;
    hide Select, SpanAt, MinuteRows, Apart, FiveKeys, MergedAt, FromFolds;
    FoldsApart(l);
    MergedNonEmpty(l, q);
    MergedIsSpan(l, q);
    SpanCounts(rollups, l.counted, cutoff, q.host, 5 * q.bucket, 5 * q.bucket + 5);
  }

  lemma FoldParts(l: Ledger)
    requires Possible(l.store, Step) && l.store.next == 1
    ensures var m, t, c := Track(l, Step), l.store.tables, l.store.asked;
            && m == Ledger(Store(t.(rollups := t.rollups + FiveGroups(t.rollups, c.minute)), l.store.saved, l.store.pruned, c, 2),
                           l.raw, l.recent, l.moved, l.overtaken + OvertakenFives(l), l.counted + Merges(l))
  {
    hide FiveGroups, Merges, OvertakenFives;
  }

  lemma FoldRecorded(l: Ledger)
    requires Recorded(l) && FromFolds(l) && l.store.next == 1
    ensures Recorded(Track(l, Step))
  {
    hide Track, Next, FiveKeys, MergedAt, Merge, MinuteRows, Select, FromFolds, Foldable;
    FoldParts(l);
    var rollups, cutoff := l.store.tables.rollups, l.store.asked.minute;
    forall q | q in FiveKeys(rollups, cutoff)
      ensures FiveGroups(rollups, cutoff)[q].samples == |MergedAt(l, q)| > 0
    {
      MergesRecorded(l, q);
    }
    var rows, g := FiveGroups(rollups, cutoff), Merges(l);
    assert rows.Keys == g.Keys;
    hide FiveGroups, Merges;
  }

  /** How m follows from l by a five-minute fold that writes the rows f. */
  ghost predicate Remerges(l: Ledger, m: Ledger, f: set<Key>) {
    var saved, cutoff := l.store.saved, l.store.asked.minute;
    && m.store.saved == saved && m.store.asked == l.store.asked && l.store.next == 1 && m.store.next == 2
    && m.raw == l.raw && m.recent == l.recent && m.moved == l.moved
    && (forall q :: q in f <==> Refolds(l.counted, cutoff, q))
    && (forall q :: q in f ==> q.resolution.FiveMinute?)
    && (forall k: Key, i: nat :: k !in f ==> (InRow(m.counted, k, i) <==> InRow(l.counted, k, i)))
    && (forall q: Key, i: nat :: q in f ==>
          (InRow(m.counted, q, i) <==>
             && i < |saved| && q == CellOf(saved, FiveMinute, i)
             && InRow(l.counted, CellOf(saved, Minute, i), i) && Start(CellOf(saved, Minute, i)) < cutoff))
    && (forall i: nat :: i in m.overtaken <==>
          i in l.overtaken || (i in l.moved && i < |saved| && CellOf(saved, FiveMinute, i) in f))
  }

  lemma MergedAtIs(l: Ledger, q: Key, i: nat)
    requires Recorded(l) && FromFolds(l)
    ensures i in MergedAt(l, q) <==>
            && i < |l.store.saved| && q == CellOf(l.store.saved, FiveMinute, i)
            && InRow(l.counted, CellOf(l.store.saved, Minute, i), i)
            && Start(CellOf(l.store.saved, Minute, i)) < l.store.asked.minute
  {
    var saved := l.store.saved;
    if i < |saved| { CellFacts(saved, i); }
    if i in MergedAt(l, q) {
      var k :| k in l.counted && Foldable(l.store.tables.rollups, l.store.asked.minute, k) && FiveOf(k) == q && i in l.counted[k];
      assert InRow(l.counted, k, i);
    }
    hide Cell, Start, Select;
  }

  lemma FoldKeys(l: Ledger, q: Key)
    requires Recorded(l)
    ensures q in FiveKeys(l.store.tables.rollups, l.store.asked.minute) <==> Refolds(l.counted, l.store.asked.minute, q)
    ensures q in FiveKeys(l.store.tables.rollups, l.store.asked.minute) ==> q.resolution.FiveMinute?
  {
    var rollups, cutoff := l.store.tables.rollups, l.store.asked.minute;
    hide Select;
    if q in FiveKeys(rollups, cutoff) {
      var k :| k in rollups && Foldable(rollups, cutoff, k) && q == Key(FiveMinute, k.bucket / 5, k.host);
      assert k in l.counted && FiveOf(k) == q;
    }
    if Refolds(l.counted, cutoff, q) {
      var k :| k in l.counted && k.resolution.Minute? && FiveOf(k) == q && Start(k) < cutoff;
      assert k in rollups && Foldable(rollups, cutoff, k);
    }
  }

  lemma FoldRemerges(l: Ledger)
    requires Recorded(l) && FromFolds(l) && l.store.next == 1
    ensures Remerges(l, Track(l, Step), FiveKeys(l.store.tables.rollups, l.store.asked.minute))
  {
    hide Track, Next, FromFolds, Select, CellOf, Cell, MergedAt, Start, FiveGroups, FiveKeys, Refolds;
    FoldParts(l);
    forall q: Key, i: nat
      ensures i in MergedAt(l, q) <==>
              && i < |l.store.saved| && q == CellOf(l.store.saved, FiveMinute, i)
              && InRow(l.counted, CellOf(l.store.saved, Minute, i), i)
              && Start(CellOf(l.store.saved, Minute, i)) < l.store.asked.minute
    {
      MergedAtIs(l, q, i);
    }
    forall q
      ensures q in FiveKeys(l.store.tables.rollups, l.store.asked.minute) <==> Refolds(l.counted, l.store.asked.minute, q)
      ensures q in FiveKeys(l.store.tables.rollups, l.store.asked.minute) ==> q.resolution.FiveMinute?
    {
      FoldKeys(l, q);
    }
    hide Recorded;
  }

  lemma FoldFromFolds(l: Ledger, m: Ledger, f: set<Key>)
    requires Remerges(l, m, f) && Placed(l) && FromFolds(l)
    ensures Placed(m) && FromFolds(m)
  {
    var saved := l.store.saved;
    forall i: nat | i < |saved|
      ensures CellOf(saved, Minute, i) == Cell(Minute, saved[i]) && CellOf(saved, FiveMinute, i) == Cell(FiveMinute, saved[i])
    {
      CellIs(saved, i, Minute);
      CellIs(saved, i, FiveMinute);
    }
    hide Cell, CellOf, Start, InRow, Refolds;
  }

  lemma FoldPresent(l: Ledger, m: Ledger, f: set<Key>)
    requires Remerges(l, m, f) && Placed(l) && Present(l) && Deleted(l)
    ensures Present(m) && Deleted(m)
  {
    var saved := l.store.saved;
    forall i: nat | i < |saved|
      ensures CellOf(saved, Minute, i).resolution == Minute
    {
      CellFacts(saved, i);
    }
    hide Cell, CellOf, Start, InRow, Refolds;
  }

  lemma FoldAbsent(l: Ledger, m: Ledger, f: set<Key>)
    requires Remerges(l, m, f) && Placed(l) && FromFolds(l) && Absent(l) && Deleted(l) && Underway(l)
    ensures Absent(m) && Underway(m)
  {
    var saved := l.store.saved;
    forall i: nat | i < |saved|
      ensures CellOf(saved, Minute, i).resolution == Minute && FiveOf(CellOf(saved, Minute, i)) == CellOf(saved, FiveMinute, i)
      ensures CellOf(saved, Minute, i) == Cell(Minute, saved[i])
    {
      CellFacts(saved, i);
    }
    hide Cell, CellOf, Start, Older;
    forall k: Key, i: nat | InRow(m.counted, k, i) && k.resolution.Minute? && Start(k) < m.store.asked.minute
      ensures InRow(m.counted, FiveOf(k), i)
    {
      assert InRow(l.counted, k, i);
      assert Refolds(l.counted, l.store.asked.minute, FiveOf(k));
    }
    hide InRow, Refolds;
  }

  // ---- the deletes ----

  lemma PruneRawParts(l: Ledger)
    requires Possible(l.store, Step) && l.store.next == 2
    ensures var m, s, c := Track(l, Step), l.store, l.store.asked;
            && m == Ledger(Store(s.tables.(raw := Kept(s.tables.raw, c.raw)), s.saved, s.pruned.(raw := c.raw), c, 3),
                           KeptAt(s.saved, l.raw, c.raw), KeptAt(s.saved, l.recent, c.raw), l.moved,
                           l.overtaken + Slipped(l), l.counted)
  {
    hide Kept, KeptAt, Slipped;
  }

  lemma PruneRawSound(l: Ledger)
    requires Sound(l) && l.store.next == 2
    ensures Sound(Track(l, Step))
  {
    hide Track, Next, Kept, Select, CellOf, Cell, Start, InRow, Refolds;
    PruneRawParts(l);
    SelectKept(l.store.saved, l.raw, l.store.asked.raw);
    var m, saved := Track(l, Step), l.store.saved;
    forall k: Key, i: nat | i < |saved| && InRow(l.counted, k, i)
      ensures k == CellOf(saved, k.resolution, i)
    {
      assert CellOf(saved, k.resolution, i) == Cell(k.resolution, saved[i]) by { CellIs(saved, i, k.resolution); }
    }
    assert Placed(m);
    assert Present(m);
    assert Absent(m);
  }

  lemma CellIs(saved: seq<Sample>, i: nat, r: Resolution)
    requires i < |saved|
    ensures CellOf(saved, r, i) == Cell(r, saved[i])
  {}

  lemma PruneMinutesParts(l: Ledger)
    requires Possible(l.store, Step) && l.store.next == 3
    ensures var m, s, c := Track(l, Step), l.store, l.store.asked;
            && m == Ledger(Store(PruneRollups(s.tables, Minute, c.minute), s.saved, s.pruned.(minute := c.minute), c, 4),
                           l.raw, l.recent, l.moved + Moving(l), l.overtaken, Pruned(l, Minute, c.minute))
  {
    hide PruneRollups, Pruned, Moving;
  }

  lemma PruneMinutesRecorded(l: Ledger)
    requires Recorded(l) && l.store.next == 3
    ensures Recorded(Track(l, Step))
  {
    hide Track, Next, Select, Start;
    PruneMinutesParts(l);
  }

  lemma PruneMinutesSound(l: Ledger)
    requires Sound(l) && l.store.next == 3
    ensures Sound(Track(l, Step))
  {
    hide Track, Next, Select, Cell, Start, Older, Recorded, PruneRollups;
    PruneMinutesRecorded(l);
    PruneMinutesParts(l);
    var m, saved := Track(l, Step), l.store.saved;
    forall i: nat | i < |saved|
      ensures CellOf(saved, Minute, i).resolution == Minute && CellOf(saved, FiveMinute, i).resolution == FiveMinute
      ensures FiveOf(CellOf(saved, Minute, i)) == CellOf(saved, FiveMinute, i)
    {
      CellFacts(saved, i);
    }
    assert forall k: Key, i: nat :: InRow(m.counted, k, i) <==>
             InRow(l.counted, k, i) && !(k.resolution == Minute && Start(k) < l.store.asked.minute);
    hide CellOf, InRow, Pruned, Refolds;
    assert Placed(m) && FromFolds(m);
    assert Present(m);
    assert Absent(m) && Deleted(m);
  }

  lemma PruneFivesParts(l: Ledger)
    requires Possible(l.store, Step) && l.store.next == 4
    ensures var m, s, c := Track(l, Step), l.store, l.store.asked;
            && m == Ledger(Store(PruneRollups(s.tables, FiveMinute, c.five), s.saved, c, c, 0),
                           l.raw, l.recent, l.moved, l.overtaken, Pruned(l, FiveMinute, c.five))
  {
    hide PruneRollups, Pruned;
  }

  lemma PruneFivesRecorded(l: Ledger)
    requires Recorded(l) && l.store.next == 4
    ensures Recorded(Track(l, Step))
  {
    hide Track, Next, Select, Start;
    PruneFivesParts(l);
  }

  lemma PruneFivesSound(l: Ledger)
    requires Sound(l) && l.store.next == 4
    ensures Sound(Track(l, Step))
  {
    hide Track, Next, Select, Cell, Start, Older, Recorded, PruneRollups;
    PruneFivesRecorded(l);
    PruneFivesParts(l);
    var m, saved := Track(l, Step), l.store.saved;
    forall i: nat | i < |saved|
      ensures CellOf(saved, Minute, i).resolution == Minute && CellOf(saved, FiveMinute, i).resolution == FiveMinute
    {
      CellFacts(saved, i);
    }
    assert forall k: Key, i: nat :: InRow(m.counted, k, i) <==>
             InRow(l.counted, k, i) && !(k.resolution == FiveMinute && Start(k) < l.store.asked.five);
    hide CellOf, InRow, Pruned, Refolds;
    assert Placed(m) && FromFolds(m);
    assert Present(m);
    assert Absent(m) && Deleted(m);
  }

  // ---- runs ----

  lemma TrackSound(l: Ledger, e: Event)
    requires Sound(l) && Possible(l.store, e)
    ensures Sound(Track(l, e))
  {
    hide Track, Groups, Recorded, Placed, FromFolds, Present, Absent, Deleted, Underway, Regroups, Remerges, FiveKeys;
    var m := Track(l, e);
    match e
    case Save(x) => SaveSound(l, x);
    case Stop => StopSound(l);
    case Begin(c) =>
      var g := Groups(l, c.raw);
      BeginRegroups(l, c);
      BeginRecorded(l, c);
      BeginFromFolds(l, m, g);
      BeginPresent(l, m, g);
      BeginAbsent(l, m, g);
      BeginUnderway(l, m, g);
    case Step =>
      if l.store.next == 1 {
        var f := FiveKeys(l.store.tables.rollups, l.store.asked.minute);
        FoldRecorded(l);
        FoldRemerges(l);
        FoldFromFolds(l, m, f);
        FoldPresent(l, m, f);
        FoldAbsent(l, m, f);
      } else if l.store.next == 2 {
        PruneRawSound(l);
      } else if l.store.next == 3 {
        PruneMinutesSound(l);
      } else {
        PruneFivesSound(l);
      }
  }

  ghost predicate Runs(l: Ledger, events: seq<Event>)
    decreases |events|
  {
    |events| == 0 || (Possible(l.store, events[0]) && Runs(Track(l, events[0]), events[1..]))
  }

  ghost function After(l: Ledger, events: seq<Event>): Ledger
    requires Runs(l, events)
    decreases |events|
  {
    if |events| == 0 then l else After(Track(l, events[0]), events[1..])
  }

  /** Over every run the ledger's account of its rows is sound. */
  lemma {:induction false} RunSound(l: Ledger, events: seq<Event>)
    requires Sound(l) && Runs(l, events)
    ensures Sound(After(l, events))
    decreases |events|
  {
    if |events| == 0 {
    } else {
      TrackSound(l, events[0]);
      RunSound(Track(l, events[0]), events[1..]);
    }
  }
}
