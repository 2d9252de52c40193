/** Archiving a tier to a file and restoring it (internal/storage/archive.go), as the steps
    between which the process can stop. */
module Archive {
  import opened Common
  import opened Retention

  /** The cap on one range query (timerange.go:24). */
  const MAX_RANGE_ROWS: nat := 20_000

  /** The columns RollupPoint carries: not disk_iops_avg and not memory_used_max. */
  const CARRIED_AVERAGES: set<Column> := AVERAGED - {DiskIops}
  const CARRIED_MAXIMA: set<Column> := MAXIMA - {MemoryUsed}

  datatype Point = Point(key: Key, samples: nat, avg: map<Column, real>, max: map<Column, real>)

  /** One row as GetRollupsRange reads it: COALESCE turns NULL into 0. */
  function ToPoint(k: Key, r: Row): Point {
    Point(k, r.samples,
          map c | c in CARRIED_AVERAGES :: if c in r.avg then r.avg[c] else 0.0,
          map c | c in CARRIED_MAXIMA :: if c in r.max then r.max[c] else 0.0)
  }

  /** The row INSERT OR REPLACE writes for a point; columns not listed become NULL. */
  function ToRow(p: Point): Row {
    Row(p.samples, p.avg, p.max)
  }

  /** Every carried column of the row is set. */
  predicate Complete(r: Row) {
    CARRIED_AVERAGES <= r.avg.Keys && CARRIED_MAXIMA <= r.max.Keys
  }

  /** Every column a fold fills is set. */
  predicate Whole(r: Row) {
    r.avg.Keys == AVERAGED && r.max.Keys == MAXIMA
  }

  /** Exactly the carried columns are set. */
  predicate Stripped(r: Row) {
    r.avg.Keys == CARRIED_AVERAGES && r.max.Keys == CARRIED_MAXIMA
  }

  predicate SameOnCarried(a: Row, b: Row) {
    && a.samples == b.samples
    && (forall c :: c in CARRIED_AVERAGES ==> c in a.avg && c in b.avg && a.avg[c] == b.avg[c])
    && (forall c :: c in CARRIED_MAXIMA ==> c in a.max && c in b.max && a.max[c] == b.max[c])
  }

  /** Rows the closing DELETE removes: bucket <= before. */
  function Doomed(rollups: map<Key, Row>, r: Resolution, before: int): set<Key> {
    set k | k in rollups && k.resolution == r && Start(k) <= before
  }

  /** Rows the query sees: not before the Unix epoch either. */
  function Eligible(rollups: map<Key, Row>, r: Resolution, before: int): set<Key> {
    set k | k in Doomed(rollups, r, before) && 0 <= Start(k)
  }

  function KeysOf(keys: seq<Key>): set<Key> {
    set i | 0 <= i < |keys| :: keys[i]
  }

  predicate Distinct(keys: seq<Key>) {
    forall i, j :: 0 <= i < j < |keys| ==> keys[i] != keys[j]
  }

  /** Any answer ORDER BY bucket ASC LIMIT may give: the order of equal buckets, and which
      of them a limit cuts off, is the engine's choice. */
  ghost predicate Answers(keys: seq<Key>, rollups: map<Key, Row>, r: Resolution, before: int) {
    var eligible := Eligible(rollups, r, before);
    && Distinct(keys)
    && (forall i :: 0 <= i < |keys| ==> keys[i] in eligible)
    && |keys| == Min(MAX_RANGE_ROWS, |eligible|)
    && (forall i, j :: 0 <= i < j < |keys| ==> Start(keys[i]) <= Start(keys[j]))
    && (forall i, k :: 0 <= i < |keys| && k in eligible && k !in KeysOf(keys) ==> Start(keys[i]) <= Start(k))
  }

  function Points(rollups: map<Key, Row>, keys: seq<Key>): seq<Point>
    requires forall i :: 0 <= i < |keys| ==> keys[i] in rollups
  {
    seq(|keys|, i requires 0 <= i < |keys| => ToPoint(keys[i], rollups[keys[i]]))
  }

  /** The database and the archive directory; a file is named by its path. */
  datatype State = State(rollups: map<Key, Row>, files: map<string, seq<Point>>)

  /** The ways ArchiveTier can end. It returns, or the process stops: with nothing written
      (or nothing to write), with some first points in the temporary file, with that file
      complete, after an error that removed it, with the file in place but the rows still
      there, or with the rows deleted. */
  datatype Ending = Unread | Torn(partial: nat) | Written | Removed | InPlace | Done

  predicate Fits(e: Ending, keys: seq<Key>) {
    e.Torn? ==> e.partial <= |keys|
  }

  /** What ArchiveTier leaves. An empty answer writes and deletes nothing. */
  function ArchiveSteps(s: State, path: string, keys: seq<Key>, r: Resolution, before: int, e: Ending): State
    requires forall i :: 0 <= i < |keys| ==> keys[i] in s.rollups
    requires Fits(e, keys)
  {
    var points, temporary := Points(s.rollups, keys), path + ".tmp";
    if |keys| == 0 then s else
      match e
      case Unread => s
      case Torn(partial) => s.(files := s.files[temporary := points[..partial]])
      case Written => s.(files := s.files[temporary := points])
      case Removed => s.(files := s.files - {temporary})
      case InPlace => s.(files := s.files[path := points] - {temporary})
      case Done =>
        State(s.rollups - Doomed(s.rollups, r, before), s.files[path := points] - {temporary})
  }

  /** Names of finished files do not end as those of temporary ones do. */
  predicate Final(path: string) {
    !(4 <= |path| && path[|path|-4..] == ".tmp")
  }

  /** The archiving leaves a finished file. */
  predicate Finishes(keys: seq<Key>, ending: Ending) {
    |keys| > 0 && (ending.InPlace? || ending.Done?)
  }

  lemma TemporaryIsNotFinal(path: string)
    ensures !Final(path + ".tmp")
  {
    assert (path + ".tmp")[|path|..] == ".tmp";
  }

  /** Archiving touches no finished file but its own, and that one it leaves as it was or
      complete: a reader never sees a part of an archive. */
  lemma ArchiveFiles(s: State, path: string, keys: seq<Key>, r: Resolution, before: int, e: Ending)
    requires (forall i :: 0 <= i < |keys| ==> keys[i] in s.rollups) && Fits(e, keys) && Final(path)
    ensures var after := ArchiveSteps(s, path, keys, r, before, e);
            && (forall p :: Final(p) && p != path ==> (p in after.files <==> p in s.files) && (p in after.files ==> after.files[p] == s.files[p]))
            && (if Finishes(keys, e) then path in after.files && after.files[path] == Points(s.rollups, keys)
                else (path in after.files <==> path in s.files) && (path in after.files ==> after.files[path] == s.files[path]))
            && after.rollups == if |keys| > 0 && e.Done? then s.rollups - Doomed(s.rollups, r, before) else s.rollups
  {
    TemporaryIsNotFinal(path);
    hide Final, Points, Doomed;
  }

  /** The row is still in the table, or its point is in the finalised file. */
  ghost predicate Safe(before: State, after: State, path: string, k: Key)
    requires k in before.rollups
  {
    || (k in after.rollups && after.rollups[k] == before.rollups[k])
    || (path in after.files && ToPoint(k, before.rollups[k]) in after.files[path])
  }

  lemma {:induction false} DistinctCount(keys: seq<Key>)
    requires Distinct(keys)
    ensures |KeysOf(keys)| == |keys|
  {
    if |keys| == 0 {
      assert KeysOf(keys) == {};
    } else {
      var front := keys[..|keys|-1];
      DistinctCount(front);
      assert KeysOf(keys) == KeysOf(front) + {keys[|keys|-1]};
      assert keys[|keys|-1] !in KeysOf(front);
    }
  }

  lemma SameSizeSubset(a: set<Key>, b: set<Key>)
    requires a <= b && |a| == |b|
    ensures a == b
  {
    assert |b - a| == 0;
  }

  lemma PointOf(rollups: map<Key, Row>, keys: seq<Key>, k: Key)
    requires forall i :: 0 <= i < |keys| ==> keys[i] in rollups
    requires k in KeysOf(keys)
    ensures ToPoint(k, rollups[k]) in Points(rollups, keys)
  {
    var i :| 0 <= i < |keys| && keys[i] == k;
    assert Points(rollups, keys)[i] == ToPoint(k, rollups[k]);
  }

  /** With at most MAX_RANGE_ROWS rows to archive, none of them from before 1970, every row
      is in the table or in the finalised file however the archiving ends. */
  lemma ArchiveNeverLoses(
      s: State, path: string, keys: seq<Key>, r: Resolution, before: int, e: Ending, k: Key)
    requires Answers(keys, s.rollups, r, before) && Fits(e, keys)
    requires |Doomed(s.rollups, r, before)| <= MAX_RANGE_ROWS
    requires Doomed(s.rollups, r, before) == Eligible(s.rollups, r, before)
    requires k in s.rollups
    ensures Safe(s, ArchiveSteps(s, path, keys, r, before, e), path, k)
  {
    if k in Doomed(s.rollups, r, before) {
      DistinctCount(keys);
      SameSizeSubset(KeysOf(keys), Doomed(s.rollups, r, before));
      PointOf(s.rollups, keys, k);
      assert |path + ".tmp"| > |path|;
    }
  }

  /** Exactly when a completed archiving loses nothing: nothing was read, or everything the
      DELETE removes was read. */
  lemma ArchiveLosesNothingIff(s: State, path: string, keys: seq<Key>, r: Resolution, before: int)
    requires Answers(keys, s.rollups, r, before)
    ensures (forall k :: k in s.rollups ==> Safe(s, ArchiveSteps(s, path, keys, r, before, Done), path, k)) <==>
            var doomed, eligible := Doomed(s.rollups, r, before), Eligible(s.rollups, r, before);
            eligible == {} || (doomed == eligible && |doomed| <= 20_000)
  {
    var doomed, eligible := Doomed(s.rollups, r, before), Eligible(s.rollups, r, before);
    var after := ArchiveSteps(s, path, keys, r, before, Done);
    DistinctCount(keys);
    if eligible == {} {
      assert |keys| == 0;
    } else if doomed == eligible && |doomed| <= MAX_RANGE_ROWS {
      forall k | k in s.rollups
        ensures Safe(s, after, path, k)
      {
        ArchiveNeverLoses(s, path, keys, r, before, Done, k);
      }
    } else {
      assert |eligible| > 0;
      assert KeysOf(keys) <= eligible <= doomed;
      assert doomed <= KeysOf(keys) ==> doomed == KeysOf(keys);
      var k :| k in doomed && k !in KeysOf(keys);
      assert k !in after.rollups;
      forall i | 0 <= i < |keys|
        ensures Points(s.rollups, keys)[i] != ToPoint(k, s.rollups[k])
      {
        assert keys[i] in KeysOf(keys);
      }
      assert !Safe(s, after, path, k);
    }
  }

  // ---- file names ----

  function NameOf(r: Resolution): string {
    if r.Minute? then "1m" else "5m"
  }

  /** Where the archive of a tier goes: its name carries the resolution and the cutoff as
      20060102T150405. */
  function ArchivePath(dir: string, r: Resolution, stamp: string): string {
    dir + "/sys-sentient_" + NameOf(r) + "_" + stamp + ".jsonl.gz"
  }

  /** The archives of the two tiers go to different files, neither of them a temporary one. */
  lemma PathsDiffer(dir: string, stamp: string, other: string)
    ensures ArchivePath(dir, Minute, stamp) != ArchivePath(dir, FiveMinute, other)
    ensures forall r :: Final(ArchivePath(dir, r, stamp))
  {
    var at := |dir| + 14;
    forall r, s
      ensures at < |ArchivePath(dir, r, s)| && ArchivePath(dir, r, s)[at] == NameOf(r)[0]
      ensures Final(ArchivePath(dir, r, s))
    {
      NamePlace(dir, r, s);
    }
  }

  lemma NamePlace(dir: string, r: Resolution, stamp: string)
    ensures var path := ArchivePath(dir, r, stamp);
            && |dir| + 14 < |path| && path[|dir| + 14] == NameOf(r)[0] && Final(path)
  {
    var path := ArchivePath(dir, r, stamp);
    assert path == (dir + "/sys-sentient_") + (NameOf(r) + "_" + stamp + ".jsonl.gz");
    assert path[|path|-1] == 'z';
    assert path[|path|-4..][3] == 'z';
  }

  // ---- restoring ----

  /** INSERT OR REPLACE of each point in turn. */
  function Restored(rollups: map<Key, Row>, points: seq<Point>): map<Key, Row> {
    if |points| == 0 then rollups else
      var p := points[|points|-1];
      Restored(rollups, points[..|points|-1])[p.key := ToRow(p)]
  }

  lemma {:induction false} RestoredAt(rollups: map<Key, Row>, base: map<Key, Row>, keys: seq<Key>, k: Key)
    requires forall i :: 0 <= i < |keys| ==> keys[i] in base
    ensures var after := Restored(rollups, Points(base, keys));
            if k in KeysOf(keys) then k in after && after[k] == ToRow(ToPoint(k, base[k]))
            else (k in after <==> k in rollups) && (k in after ==> after[k] == rollups[k])
  {
    if |keys| == 0 {
    } else {
      var front := keys[..|keys|-1];
      RestoredAt(rollups, base, front, k);
      assert Points(base, keys)[..|keys|-1] == Points(base, front);
      assert KeysOf(keys) == KeysOf(front) + {keys[|keys|-1]};
    }
  }

  /** Restoring an archive twice is restoring it once. */
  lemma RestoreTwice(rollups: map<Key, Row>, base: map<Key, Row>, keys: seq<Key>)
    requires forall i :: 0 <= i < |keys| ==> keys[i] in base
    ensures var points := Points(base, keys);
            Restored(Restored(rollups, points), points) == Restored(rollups, points)
  {
    var points := Points(base, keys);
    var once := Restored(rollups, points);
    var twice := Restored(once, points);
    forall k: Key
      ensures k in twice <==> k in once
      ensures k in twice ==> twice[k] == once[k]
    {
      RestoredAt(rollups, base, keys, k);
      RestoredAt(once, base, keys, k);
    }
  }

  lemma ArchivedState(s: State, path: string, keys: seq<Key>, r: Resolution, before: int)
    requires Answers(keys, s.rollups, r, before) && |keys| > 0
    ensures var archived := ArchiveSteps(s, path, keys, r, before, Done);
            && archived.rollups == s.rollups - Doomed(s.rollups, r, before)
            && path in archived.files && archived.files[path] == Points(s.rollups, keys)
  {
    assert |path + ".tmp"| > |path|;
  }

  /** A row comes back with the carried columns only, NULL as 0: equal on those exactly when
      none of them is NULL, and the same row exactly when it has those and no others. */
  lemma CarriedRoundTrip(k: Key, r: Row)
    ensures var back := ToRow(ToPoint(k, r));
            && Stripped(back) && back.samples == r.samples
            && (SameOnCarried(back, r) <==> Complete(r))
            && (back == r <==> Stripped(r))
            && (forall c :: c in CARRIED_AVERAGES && c !in r.avg ==> back.avg[c] == 0.0)
            && (forall c :: c in CARRIED_MAXIMA && c !in r.max ==> back.max[c] == 0.0)
  {
    var back := ToRow(ToPoint(k, r));
    if Stripped(r) {
      assert back.avg == r.avg;
      assert back.max == r.max;
    }
  }

  /** What restoring an archived row costs: disk_iops_avg and memory_used_max. */
  lemma WholeRowLosesColumns(k: Key, r: Row)
    requires Whole(r)
    ensures var back := ToRow(ToPoint(k, r));
            && back != r && SameOnCarried(back, r)
            && r.avg.Keys - back.avg.Keys == {DiskIops} && r.max.Keys - back.max.Keys == {MemoryUsed}
  {
    CarriedRoundTrip(k, r);
    assert DiskIops in r.avg.Keys && DiskIops !in CARRIED_AVERAGES;
  }

  /** Archiving a tier and restoring the file reinstates exactly the archived rows and leaves
      every other row as it was. An archived row comes back with the carried columns only. */
  lemma ArchiveRoundTrip(s: State, path: string, keys: seq<Key>, r: Resolution, before: int, k: Key)
    requires Answers(keys, s.rollups, r, before)
    requires |Doomed(s.rollups, r, before)| <= MAX_RANGE_ROWS
    requires Doomed(s.rollups, r, before) == Eligible(s.rollups, r, before) != {}
    ensures var archived := ArchiveSteps(s, path, keys, r, before, Done);
            && path in archived.files
            && var restored := Restored(archived.rollups, archived.files[path]);
               && (k in restored <==> k in s.rollups)
               && (k in s.rollups && k !in Doomed(s.rollups, r, before) ==> restored[k] == s.rollups[k])
               && (k in Doomed(s.rollups, r, before) ==>
                     && Stripped(restored[k]) && restored[k].samples == s.rollups[k].samples
                     && (SameOnCarried(restored[k], s.rollups[k]) <==> Complete(s.rollups[k]))
                     && (restored[k] == s.rollups[k] <==> Stripped(s.rollups[k])))
  {
    DistinctCount(keys);
    SameSizeSubset(KeysOf(keys), Doomed(s.rollups, r, before));
    assert |keys| > 0;
    ArchivedState(s, path, keys, r, before);
    RestoredAt(s.rollups - Doomed(s.rollups, r, before), s.rollups, keys, k);
    hide ArchiveSteps, Restored, Points, SameOnCarried, ToPoint, ToRow, Complete, Stripped;
    if k in s.rollups { CarriedRoundTrip(k, s.rollups[k]); }
  }

  /** Restoring over a row that is still in the table, as after a crash between the rename
      and the DELETE, changes it unless it had the carried columns only. */
  lemma RestoreOverlap(rollups: map<Key, Row>, base: map<Key, Row>, keys: seq<Key>, k: Key)
    requires forall i :: 0 <= i < |keys| ==> keys[i] in base
    requires k in KeysOf(keys) && k in rollups && rollups[k] == base[k]
    ensures var after := Restored(rollups, Points(base, keys));
            k in after && (after[k] == rollups[k] <==> Stripped(rollups[k]))
  {
    RestoredAt(rollups, base, keys, k);
    CarriedRoundTrip(k, base[k]);
    hide Restored, Points, ToPoint, ToRow, Stripped, Complete, SameOnCarried, KeysOf;
  }

  // ---- the query has an answer ----

  lemma KeysOfCons(first: Key, rest: seq<Key>)
    ensures KeysOf([first] + rest) == {first} + KeysOf(rest)
    ensures forall i :: 0 <= i < |rest| ==> rest[i] in KeysOf(rest)
  {
    var keys := [first] + rest;
    forall k
      ensures k in KeysOf(keys) <==> k == first || k in KeysOf(rest)
    {
      if k == first { assert keys[0] == k; }
      if k in KeysOf(rest) {
        var i :| 0 <= i < |rest| && rest[i] == k;
        assert keys[i+1] == k;
      }
    }
  }

  /** The first n keys of a set in the order of their start. */
  ghost predicate FirstOf(keys: seq<Key>, s: set<Key>) {
    && Distinct(keys) && KeysOf(keys) <= s
    && (forall i, j :: 0 <= i < j < |keys| ==> Start(keys[i]) <= Start(keys[j]))
    && (forall i, k :: 0 <= i < |keys| && k in s && k !in KeysOf(keys) ==> Start(keys[i]) <= Start(k))
  }

  lemma PrependFirst(first: Key, rest: seq<Key>, s: set<Key>)
    requires first in s && FirstOf(rest, s - {first})
    requires forall k :: k in s ==> Start(first) <= Start(k)
    ensures FirstOf([first] + rest, s)
  {
    var keys := [first] + rest;
    KeysOfCons(first, rest);
    assert forall i :: 1 <= i < |keys| ==> keys[i] == rest[i-1];
    hide Start, KeysOf;
  }

  lemma {:induction false} SortedPrefix(s: set<Key>, n: nat) returns (keys: seq<Key>)
    requires n <= |s|
    ensures |keys| == n && FirstOf(keys, s)
  {
    if n == 0 {
      keys := [];
    } else {
      hide FirstOf, Start;
      var first := Earliest(s);
      var rest := SortedPrefix(s - {first}, n - 1);
      keys := [first] + rest;
      PrependFirst(first, rest, s);
    }
  }

  lemma {:induction false} Earliest(s: set<Key>) returns (first: Key)
    requires s != {}
    ensures first in s && forall k :: k in s ==> Start(first) <= Start(k)
  {
    hide Start;
    first :| first in s;
    if s == {first} {
    } else {
      var other := Earliest(s - {first});
      assert forall k :: k in s ==> k == first || k in s - {first};
      if Start(other) < Start(first) { first := other; }
    }
  }

  lemma KeysOfMembers(keys: seq<Key>)
    ensures forall i :: 0 <= i < |keys| ==> keys[i] in KeysOf(keys)
  {}

  /** Whatever the table holds, the query has an answer. */
  lemma AnswerExists(rollups: map<Key, Row>, r: Resolution, before: int) returns (keys: seq<Key>)
    ensures Answers(keys, rollups, r, before)
  {
    var eligible := Eligible(rollups, r, before);
    keys := SortedPrefix(eligible, Min(MAX_RANGE_ROWS, |eligible|));
    KeysOfMembers(keys);
    hide Start, KeysOf, Eligible, Distinct;
  }
}
