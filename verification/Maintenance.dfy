/** The maintenance pass of cmd/daemon/maintenance.go: roll up, archive, prune, compact. */
module Upkeep {
  import opened Common
  import opened Retention
  import opened Archive
  import opened Storage
  import Conservation
  import Folding

  /** How the statements of one pass turn out: how many of the roll-up's and of the prune's
      go through, how each archiving ends, and whether the database is compacted. */
  datatype Outcome = Outcome(rollup: nat, minuteArchive: Ending, fiveArchive: Ending, prune: nat, compacts: bool)

  /** The endings in which ArchiveTier returns. */
  ghost predicate Returns(e: Ending) {
    e.Unread? || e.Removed? || e.InPlace? || e.Done?
  }

  ghost predicate Possible(o: Outcome) {
    o.rollup <= 2 && Returns(o.minuteArchive) && Returns(o.fiveArchive) && o.prune <= 3
  }

  const ALL_GOES_WELL := Outcome(2, Done, Done, 3, true)

  /** Where the two archives of a pass go. */
  datatype Destination = Destination(minutePath: string, fivePath: string)

  /** The database engine's answers to the archive query. */
  type Query = (map<Key, Row>, Resolution, int) -> seq<Key>

  ghost predicate AnswersAll(query: Query) {
    forall m, r, before :: Answers(query(m, r, before), m, r, before)
  }

  /** There is an engine that answers every query. */
  lemma QueryExists()
    ensures exists query: Query :: AnswersAll(query)
  {
    var query: Query := (m, r, before) => SomeAnswer(m, r, before);
    assert forall m, r, before :: query(m, r, before) == SomeAnswer(m, r, before);
    hide Answers;
    assert AnswersAll(query);
  }

  ghost function SomeAnswer(rollups: map<Key, Row>, r: Resolution, before: int): (keys: seq<Key>)
    ensures Answers(keys, rollups, r, before)
  {
    AnswersExist(rollups, r, before);
    var keys :| Answers(keys, rollups, r, before);
    keys
  }

  lemma AnswersExist(rollups: map<Key, Row>, r: Resolution, before: int)
    ensures exists keys :: Answers(keys, rollups, r, before)
  {
    var keys := AnswerExists(rollups, r, before);
  }

  /** The archive step of a pass. A tier whose archiving fails is skipped. */
  function Archived(s: State, to: Option<Destination>, query: Query, c: Cutoffs, o: Outcome): State
    requires AnswersAll(query) && Possible(o)
  {
    if to.None? then s else
      var a := ArchiveSteps(s, to.value.minutePath, query(s.rollups, Minute, c.minute), Minute, c.minute, o.minuteArchive);
      ArchiveSteps(a, to.value.fivePath, query(a.rollups, FiveMinute, c.five), FiveMinute, c.five, o.fiveArchive)
  }

  /** What a pass leaves. A roll-up that fails keeps everything from being archived or pruned. */
  function AfterRun(t: Tables, files: map<string, seq<Point>>, to: Option<Destination>, query: Query, c: Cutoffs, o: Outcome)
      : (Tables, map<string, seq<Point>>)
    requires AnswersAll(query) && Possible(o)
  {
    var rolled := Pass(t, c, o.rollup);
    if o.rollup < 2 then (rolled, files) else
      var s := Archived(State(rolled.rollups, files), to, query, c, o);
      (Prune(Tables(rolled.raw, s.rollups), c, o.prune), s.files)
  }

  const VACUUM_EVERY_N_TICKS := 24

  class Maintenance {
    const store: Store
    const destination: Option<Destination>
    var ticks: nat
    var vacuumsRun: nat

    constructor (store: Store, destination: Option<Destination>)
      ensures this.store == store && this.destination == destination && ticks == 0 && vacuumsRun == 0
    {
      this.store, this.destination, ticks, vacuumsRun := store, destination, 0, 0;
    }

    /** The archive step: minute tier first; a tier whose archiving fails is passed over. */
    method ArchiveTiers(c: Cutoffs, query: Query, o: Outcome)
      requires AnswersAll(query) && Possible(o)
      modifies store`rollups, store`files
      ensures store.Disk() == Archived(old(store.Disk()), destination, query, c, o)
    {
      if destination.None? { return; }
      var keys := query(store.rollups, Minute, c.minute);
      assert Answers(keys, store.rollups, Minute, c.minute);
      var minutes := store.ArchiveTier(Minute, destination.value.minutePath, c.minute, keys, o.minuteArchive);
      keys := query(store.rollups, FiveMinute, c.five);
      assert Answers(keys, store.rollups, FiveMinute, c.five);
      hide Answers, ArchiveSteps;
      var fives := store.ArchiveTier(FiveMinute, destination.value.fivePath, c.five, keys, o.fiveArchive);
    }

    method Run(policy: RetentionPolicy, now: int, query: Query, o: Outcome)
      requires AnswersAll(query) && Possible(o)
      modifies this, store
      ensures (store.Contents(), store.files)
              == AfterRun(old(store.Contents()), old(store.files), destination, query, CutoffsOf(policy, now), o)
      ensures ticks == old(ticks) + 1
      ensures vacuumsRun == old(vacuumsRun) + if o.compacts && ticks % 24 == 0 then 1 else 0
    {
      hide Answers, ArchiveSteps, Pass, Prune, Archived, CutoffsOf, AnswersAll;
      var c := CutoffsOf(policy, now);
      var rolledUp := store.Rollup(policy, now, o.rollup);
      if rolledUp {
        ArchiveTiers(c, query, o);
        var pruned := store.PruneTiers(policy, now, o.prune);
      }
      ticks := ticks + 1;
      var vacuum := ticks % VACUUM_EVERY_N_TICKS == 0;
      if !o.compacts { return; }
      if vacuum { vacuumsRun := vacuumsRun + 1; }
    }
  }

  /** Without archiving, whatever fails, a pass leaves some first statements of Retention.Pass:
      nothing is ever deleted before both folds have run. */
  lemma RunIsPass(t: Tables, files: map<string, seq<Point>>, query: Query, c: Cutoffs, o: Outcome)
    requires AnswersAll(query) && Possible(o)
    ensures AfterRun(t, files, None, query, c, o)
            == (Pass(t, c, if o.rollup < 2 then o.rollup else 2 + o.prune), files)
  {
    PruneAfterRollup(t, c, o.prune);
    assert Tables(Pass(t, c, 2).raw, Pass(t, c, 2).rollups) == Pass(t, c, 2);
  }

  // ---- what archiving takes out of the tables ----

  function EndingOf(o: Outcome, r: Resolution): Ending {
    if r.Minute? then o.minuteArchive else o.fiveArchive
  }

  /** The rows that archiving deletes: of a tier whose archiving goes through, all up to the
      cutoff, unless the query finds none since 1970. */
  predicate Deletes(rollups: map<Key, Row>, c: Cutoffs, o: Outcome, k: Key) {
    var r, before := k.resolution, CutoffOf(k.resolution, c);
    EndingOf(o, r).Done? && k in Doomed(rollups, r, before) && Eligible(rollups, r, before) != {}
  }

  function ArchiveDeletes(rollups: map<Key, Row>, c: Cutoffs, o: Outcome): set<Key> {
    set k | k in rollups && Deletes(rollups, c, o, k)
  }

  lemma ArchivingDeletes(s: State, path: string, keys: seq<Key>, r: Resolution, before: int, e: Ending)
    requires Answers(keys, s.rollups, r, before) && Fits(e, keys)
    ensures ArchiveSteps(s, path, keys, r, before, e).rollups
            == if e.Done? && Eligible(s.rollups, r, before) != {} then s.rollups - Doomed(s.rollups, r, before) else s.rollups
  {
    var eligible := Eligible(s.rollups, r, before);
    if |keys| == 0 {
      assert eligible == {};
    } else {
      assert keys[0] in eligible;
    }
  }

  lemma TiersApart(rollups: map<Key, Row>, gone: set<Key>, before: int)
    requires forall k :: k in gone ==> k.resolution.Minute?
    ensures Doomed(rollups - gone, FiveMinute, before) == Doomed(rollups, FiveMinute, before)
    ensures Eligible(rollups - gone, FiveMinute, before) == Eligible(rollups, FiveMinute, before)
  {}

  lemma ArchivedRollups(s: State, to: Destination, query: Query, c: Cutoffs, o: Outcome)
    requires AnswersAll(query) && Possible(o)
    ensures Archived(s, Some(to), query, c, o).rollups == s.rollups - ArchiveDeletes(s.rollups, c, o)
  {
    var keys := query(s.rollups, Minute, c.minute);
    var a := ArchiveSteps(s, to.minutePath, keys, Minute, c.minute, o.minuteArchive);
    var rest := query(a.rollups, FiveMinute, c.five);
    assert Answers(keys, s.rollups, Minute, c.minute) && Answers(rest, a.rollups, FiveMinute, c.five);
    hide ArchiveSteps, Answers, AnswersAll;
    ArchivingDeletes(s, to.minutePath, keys, Minute, c.minute, o.minuteArchive);
    ArchivingDeletes(a, to.fivePath, rest, FiveMinute, c.five, o.fiveArchive);
    TiersApart(s.rollups, s.rollups.Keys - a.rollups.Keys, c.five);
    assert a.rollups == s.rollups - (s.rollups.Keys - a.rollups.Keys);
  }

  // ---- what archiving puts into the files ----

  function PathOf(to: Destination, r: Resolution): string {
    if r.Minute? then to.minutePath else to.fivePath
  }

  /** The archives of a pass go to two different finished files. */
  ghost predicate Separate(to: Destination) {
    to.minutePath != to.fivePath && Final(to.minutePath) && Final(to.fivePath)
  }

  /** The file of tier r holds what the query gave of it, whole, if its archiving got as far as
      the rename; otherwise it is as it was. */
  ghost predicate TierFiled(before: State, after: State, path: string, r: Resolution, cutoff: int, e: Ending) {
    if (e.InPlace? || e.Done?) && Eligible(before.rollups, r, cutoff) != {} then
      exists keys ::
        Answers(keys, before.rollups, r, cutoff) && path in after.files && after.files[path] == Points(before.rollups, keys)
    else
      (path in after.files <==> path in before.files) && (path in after.files ==> after.files[path] == before.files[path])
  }

  lemma StepFiled(s: State, path: string, keys: seq<Key>, r: Resolution, cutoff: int, e: Ending)
    requires Answers(keys, s.rollups, r, cutoff) && Fits(e, keys) && Final(path)
    ensures var after := ArchiveSteps(s, path, keys, r, cutoff, e);
            && TierFiled(s, after, path, r, cutoff, e)
            && forall p :: Final(p) && p != path ==>
                 (p in after.files <==> p in s.files) && (p in after.files ==> after.files[p] == s.files[p])
  {
    ArchiveFiles(s, path, keys, r, cutoff, e);
    AnswerIsEmptyIff(keys, s.rollups, r, cutoff);
    hide ArchiveSteps, Answers, Points, Final;
  }

  lemma AnswerIsEmptyIff(keys: seq<Key>, rollups: map<Key, Row>, r: Resolution, before: int)
    requires Answers(keys, rollups, r, before)
    ensures |keys| == 0 <==> Eligible(rollups, r, before) == {}
  {
    if |keys| > 0 { assert keys[0] in Eligible(rollups, r, before); }
  }

  /** An answer of the five-minute tier does not depend on the minute rows. */
  lemma FiveAnswers(keys: seq<Key>, rollups: map<Key, Row>, gone: set<Key>, before: int)
    requires (forall k :: k in gone ==> k.resolution.Minute?) && Answers(keys, rollups - gone, FiveMinute, before)
    ensures Answers(keys, rollups, FiveMinute, before)
    ensures Points(rollups - gone, keys) == Points(rollups, keys)
  {
    TiersApart(rollups, gone, before);
    hide Distinct, Start;
    assert forall i :: 0 <= i < |keys| ==> keys[i] in Eligible(rollups - gone, FiveMinute, before);
  }

  /** Both archives of a pass are in their own files, and no other finished file is touched. */
  lemma ArchivedFiles(s: State, to: Destination, query: Query, c: Cutoffs, o: Outcome)
    requires AnswersAll(query) && Possible(o) && Separate(to)
    ensures var after := Archived(s, Some(to), query, c, o);
            && (forall r :: TierFiled(s, after, PathOf(to, r), r, CutoffOf(r, c), EndingOf(o, r)))
            && forall p :: Final(p) && p != to.minutePath && p != to.fivePath ==>
                 (p in after.files <==> p in s.files) && (p in after.files ==> after.files[p] == s.files[p])
  {
    var keys := query(s.rollups, Minute, c.minute);
    var a := ArchiveSteps(s, to.minutePath, keys, Minute, c.minute, o.minuteArchive);
    var rest := query(a.rollups, FiveMinute, c.five);
    assert Answers(keys, s.rollups, Minute, c.minute) && Answers(rest, a.rollups, FiveMinute, c.five);
    hide ArchiveSteps, Answers, AnswersAll, Points, Final, TierFiled;
    StepFiled(s, to.minutePath, keys, Minute, c.minute, o.minuteArchive);
    StepFiled(a, to.fivePath, rest, FiveMinute, c.five, o.fiveArchive);
    var after := ArchiveSteps(a, to.fivePath, rest, FiveMinute, c.five, o.fiveArchive);
    MinuteStays(s, a, after, to, c, o);
    FiveFromStart(s, a, after, to, keys, c, o);
  }

  lemma MinuteStays(s: State, a: State, after: State, to: Destination, c: Cutoffs, o: Outcome)
    requires Separate(to) && TierFiled(s, a, to.minutePath, Minute, c.minute, o.minuteArchive)
    requires forall p :: Final(p) && p != to.fivePath ==>
               (p in after.files <==> p in a.files) && (p in after.files ==> after.files[p] == a.files[p])
    ensures TierFiled(s, after, to.minutePath, Minute, c.minute, o.minuteArchive)
  {
    hide Answers, Points, Final, Eligible;
  }

  lemma FiveFromStart(s: State, a: State, after: State, to: Destination, keys: seq<Key>, c: Cutoffs, o: Outcome)
    requires Separate(to) && Answers(keys, s.rollups, Minute, c.minute) && Fits(o.minuteArchive, keys)
    requires a == ArchiveSteps(s, to.minutePath, keys, Minute, c.minute, o.minuteArchive)
    requires TierFiled(a, after, to.fivePath, FiveMinute, c.five, o.fiveArchive)
    ensures TierFiled(s, after, to.fivePath, FiveMinute, c.five, o.fiveArchive)
  {
    StepFiled(s, to.minutePath, keys, Minute, c.minute, o.minuteArchive);
    ArchivingDeletes(s, to.minutePath, keys, Minute, c.minute, o.minuteArchive);
    var gone := s.rollups.Keys - a.rollups.Keys;
    assert a.rollups == s.rollups - gone;
    TiersApart(s.rollups, gone, c.five);
    hide ArchiveSteps, Answers, Points, Final, Eligible;
    forall rest | Answers(rest, a.rollups, FiveMinute, c.five)
      ensures Answers(rest, s.rollups, FiveMinute, c.five) && Points(a.rollups, rest) == Points(s.rollups, rest)
    {
      FiveAnswers(rest, s.rollups, gone, c.five);
    }
  }

  /** Under every combination of failures, every row a pass deletes by archiving has its point
      in the file of its own tier, if the tier has no more rows than the query reads and none
      from before 1970; that file holds rows of that tier only, and files of earlier passes
      are as they were. */
  lemma ArchivedRowsAreFiled(
      t: Tables, files: map<string, seq<Point>>, to: Destination, query: Query, c: Cutoffs, o: Outcome, k: Key)
    requires AnswersAll(query) && Possible(o) && Separate(to)
    ensures var rolled, after := Pass(t, c, 2).rollups, AfterRun(t, files, Some(to), query, c, o).1;
            var r := k.resolution;
            var doomed := Doomed(rolled, r, CutoffOf(r, c));
            && (o.rollup == 2 && k in ArchiveDeletes(rolled, c, o) && |doomed| <= MAX_RANGE_ROWS
                && doomed == Eligible(rolled, r, CutoffOf(r, c)) ==>
                  && PathOf(to, r) in after && ToPoint(k, rolled[k]) in after[PathOf(to, r)]
                  && forall p :: p in after[PathOf(to, r)] ==> p.key.resolution == r)
            && forall p :: Final(p) && p != to.minutePath && p != to.fivePath ==>
                 (p in after <==> p in files) && (p in after ==> after[p] == files[p])
  {
    hide Pass, Prune, AnswersAll, Archived, Final, Answers, Points, Eligible, Doomed;
    if o.rollup == 2 {
      var rolled, r := Pass(t, c, 2).rollups, k.resolution;
      ArchivedFiles(State(rolled, files), to, query, c, o);
      if k in ArchiveDeletes(rolled, c, o) {
        assert Deletes(rolled, c, o, k);
        var after := Archived(State(rolled, files), Some(to), query, c, o);
        assert TierFiled(State(rolled, files), after, PathOf(to, r), r, CutoffOf(r, c), EndingOf(o, r));
        FileHolds(State(rolled, files), after, PathOf(to, r), r, CutoffOf(r, c), EndingOf(o, r), k);
      }
    }
  }

  lemma FileHolds(before: State, after: State, path: string, r: Resolution, cutoff: int, e: Ending, k: Key)
    requires TierFiled(before, after, path, r, cutoff, e) && e.Done?
    requires k in Doomed(before.rollups, r, cutoff) && Eligible(before.rollups, r, cutoff) != {}
    ensures path in after.files && forall p :: p in after.files[path] ==> p.key.resolution == r
    ensures |Doomed(before.rollups, r, cutoff)| <= MAX_RANGE_ROWS && Doomed(before.rollups, r, cutoff) == Eligible(before.rollups, r, cutoff) ==>
              ToPoint(k, before.rollups[k]) in after.files[path]
  {
    var keys :| Answers(keys, before.rollups, r, cutoff) && path in after.files && after.files[path] == Points(before.rollups, keys);
    hide Answers, Points, Doomed, Eligible;
    AnswerHolds(keys, before.rollups, r, cutoff, k);
  }

  /** An answer that is not cut short holds every row up to the cutoff, and only those. */
  lemma AnswerHolds(keys: seq<Key>, rollups: map<Key, Row>, r: Resolution, before: int, k: Key)
    requires Answers(keys, rollups, r, before) && k in Doomed(rollups, r, before)
    ensures forall p :: p in Points(rollups, keys) ==> p.key.resolution == r
    ensures |Doomed(rollups, r, before)| <= MAX_RANGE_ROWS && Doomed(rollups, r, before) == Eligible(rollups, r, before) ==>
              ToPoint(k, rollups[k]) in Points(rollups, keys)
  {
    if |Doomed(rollups, r, before)| <= MAX_RANGE_ROWS && Doomed(rollups, r, before) == Eligible(rollups, r, before) {
      DistinctCount(keys);
      SameSizeSubset(KeysOf(keys), Doomed(rollups, r, before));
      PointOf(rollups, keys, k);
    }
  }

  /** The archives of a pass, named as the store names them, go to two different files. */
  lemma NamedPathsAreSeparate(dir: string, minuteStamp: string, fiveStamp: string)
    ensures Separate(Destination(ArchivePath(dir, Minute, minuteStamp), ArchivePath(dir, FiveMinute, fiveStamp)))
  {
    hide Final, ArchivePath;
    PathsDiffer(dir, minuteStamp, fiveStamp);
    PathsDiffer(dir, fiveStamp, minuteStamp);
  }

  // ---- the row that starts at the cutoff ----

  /** A row that archiving deletes (bucket <= cutoff) and that neither the fold nor the prune
      (bucket < cutoff) touches; rows from before 1970 are not archived. */
  predicate StartsAtCutoff(k: Key, c: Cutoffs) {
    Start(k) == CutoffOf(k.resolution, c) && 0 <= Start(k)
  }

  /** Such rows of the tiers whose archiving goes through. */
  ghost function AtCutoff(rollups: map<Key, Row>, c: Cutoffs, o: Outcome): map<Key, Row> {
    map k | k in rollups && StartsAtCutoff(k, c) && EndingOf(o, k.resolution).Done? :: rollups[k]
  }

  /** However the steps of a pass turn out, with archiving it leaves what it leaves without,
      less exactly the rows the archive deletes. If the prune goes through those are the
      rows that start at the cutoff of a tier whose archiving went through. */
  lemma ArchivingRun(t: Tables, files: map<string, seq<Point>>, to: Destination, query: Query, c: Cutoffs, o: Outcome)
    requires AnswersAll(query) && Possible(o)
    ensures var kept, plain := AfterRun(t, files, Some(to), query, c, o).0, AfterRun(t, files, None, query, c, o).0;
            var rolled := Pass(t, c, 2).rollups;
            && kept.raw == plain.raw
            && kept.rollups == (if o.rollup < 2 then plain.rollups else plain.rollups - ArchiveDeletes(rolled, c, o))
            && (o.rollup == 2 && o.prune == 3 ==>
                  && kept.rollups == plain.rollups - AtCutoff(rolled, c, o).Keys
                  && AtCutoff(plain.rollups, c, o) == AtCutoff(rolled, c, o))
  {
    hide Pass, Prune, Answers, AnswersAll, AtCutoff, ArchiveDeletes, Archived;
    if o.rollup == 2 {
      var rolled := Pass(t, c, 2);
      ArchivedRollups(State(rolled.rollups, files), to, query, c, o);
      NotArchived(State(rolled.rollups, files), query, c, o);
      PruneWithout(rolled, ArchiveDeletes(rolled.rollups, c, o), c, o.prune);
      assert Tables(rolled.raw, rolled.rollups) == rolled;
      if o.prune == 3 { DeletedByFullPrune(rolled, c, o); }
    }
  }

  lemma NotArchived(s: State, query: Query, c: Cutoffs, o: Outcome)
    requires AnswersAll(query) && Possible(o)
    ensures Archived(s, None, query, c, o) == s
  {}

  predicate Survives(k: Key, c: Cutoffs, n: nat) {
    match k.resolution
    case Minute => n < 2 || c.minute <= Start(k)
    case FiveMinute => n < 3 || c.five <= Start(k)
  }

  lemma PruneEffect(t: Tables, c: Cutoffs, n: nat)
    requires n <= 3
    ensures Prune(t, c, n).raw == if n == 0 then t.raw else Kept(t.raw, c.raw)
    ensures forall k: Key ::
              && (k in Prune(t, c, n).rollups <==> k in t.rollups && Survives(k, c, n))
              && (k in Prune(t, c, n).rollups ==> Prune(t, c, n).rollups[k] == t.rollups[k])
  {
    if n > 0 { assert Prune(t, c, 1) == PruneRaw(t, c.raw); }
    if n > 1 { assert Prune(t, c, 2) == PruneRollups(Prune(t, c, 1), Minute, c.minute); }
    hide Kept;
  }

  lemma PruneWithout(t: Tables, gone: set<Key>, c: Cutoffs, n: nat)
    requires n <= 3
    ensures Prune(Tables(t.raw, t.rollups - gone), c, n) == Tables(Prune(t, c, n).raw, Prune(t, c, n).rollups - gone)
  {
    hide Prune, Survives;
    PruneEffect(t, c, n);
    PruneEffect(Tables(t.raw, t.rollups - gone), c, n);
    assert Prune(Tables(t.raw, t.rollups - gone), c, n).rollups == Prune(t, c, n).rollups - gone;
  }

  lemma DeletedByFullPrune(t: Tables, c: Cutoffs, o: Outcome)
    ensures var plain := Prune(t, c, 3).rollups;
            && plain - ArchiveDeletes(t.rollups, c, o) == plain - AtCutoff(t.rollups, c, o).Keys
            && AtCutoff(plain, c, o) == AtCutoff(t.rollups, c, o)
  {
    var plain := Prune(t, c, 3).rollups;
    hide Prune, Start;
    PruneEffect(t, c, 3);
    forall k | k in plain
      ensures k in ArchiveDeletes(t.rollups, c, o) <==> k in AtCutoff(t.rollups, c, o)
    {
      var eligible := Eligible(t.rollups, k.resolution, CutoffOf(k.resolution, c));
      if k in ArchiveDeletes(t.rollups, c, o) {
        var j :| j in eligible;
      }
      if k in AtCutoff(t.rollups, c, o) { assert k in eligible; }
    }
  }

  // ---- when that costs samples, seen before the pass ----

  /** The roll-up of the pass leaves a minute row that counts samples: the bucket holds raw
      samples to fold, or its row counts some. */
  predicate MinuteCounts(t: Tables, c: Cutoffs, k: Key) {
    |MinuteGroup(t.raw, c.raw, k)| > 0 || (k in t.rollups && t.rollups[k].samples > 0)
  }

  /** The same of a row of either tier: of five minutes, one of the minutes to fold counts
      samples, or the row does. */
  predicate Counts(t: Tables, c: Cutoffs, k: Key) {
    match k.resolution
    case Minute => MinuteCounts(t, c, k)
    case FiveMinute =>
      || (exists b :: 5 * k.bucket <= b < 5 * k.bucket + 5 && FoldsMinute(t, c, Key(Minute, b, k.host)))
      || (k in t.rollups && t.rollups[k].samples > 0)
  }

  predicate FoldsMinute(t: Tables, c: Cutoffs, k: Key) {
    Start(k) < c.minute && MinuteCounts(t, c, k)
  }

  lemma RolledMinute(t: Tables, c: Cutoffs, k: Key)
    requires k.resolution.Minute?
    ensures var r1 := Pass(t, c, 1).rollups;
            MinuteCounts(t, c, k) <==> k in r1 && r1[k].samples > 0
  {
    Conservation.PassStatements(t, c);
    MinuteKeysNonEmpty(t.raw, c.raw, k);
    hide Pass, MinuteKeys, MinuteGroup;
  }

  lemma FivesUntouched(t: Tables, c: Cutoffs, q: Key)
    requires q.resolution.FiveMinute?
    ensures var r1 := Pass(t, c, 1).rollups; (q in r1 <==> q in t.rollups) && (q in r1 ==> r1[q] == t.rollups[q])
  {
    Conservation.PassStatements(t, c);
    hide Pass;
  }

  lemma FoldsFoldable(t: Tables, c: Cutoffs, k: Key)
    requires k.resolution.Minute?
    ensures FoldsMinute(t, c, k) <==> Foldable(Pass(t, c, 1).rollups, c.minute, k)
  {
    RolledMinute(t, c, k);
    hide Pass, MinuteCounts;
  }

  lemma MergedCounts(rollups: map<Key, Row>, cutoff: int, q: Key)
    requires q.resolution.FiveMinute?
    ensures q in FiveKeys(rollups, cutoff) <==>
              exists b :: 5 * q.bucket <= b < 5 * q.bucket + 5 && Foldable(rollups, cutoff, Key(Minute, b, q.host))
    ensures q in FiveKeys(rollups, cutoff) ==> FiveGroups(rollups, cutoff)[q].samples > 0
  {
    hide MinuteRows, FiveKeys, Foldable;
    Folding.FiveKeysAreNonEmpty(rollups, cutoff, q);
    Folding.MinuteRowsNonEmpty(rollups, cutoff, q.host, 5 * q.bucket, 5 * q.bucket + 5);
    MergedSamples(rollups, cutoff, q.host, 5 * q.bucket, 5 * q.bucket + 5);
  }

  lemma RolledFive(t: Tables, c: Cutoffs, q: Key)
    requires q.resolution.FiveMinute?
    ensures q in FiveKeys(Pass(t, c, 1).rollups, c.minute) <==>
              exists b :: 5 * q.bucket <= b < 5 * q.bucket + 5 && FoldsMinute(t, c, Key(Minute, b, q.host))
  {
    MergedCounts(Pass(t, c, 1).rollups, c.minute, q);
    hide Pass, FiveKeys, FoldsMinute, Foldable;
    forall b: int
      ensures FoldsMinute(t, c, Key(Minute, b, q.host)) <==> Foldable(Pass(t, c, 1).rollups, c.minute, Key(Minute, b, q.host))
    {
      FoldsFoldable(t, c, Key(Minute, b, q.host));
    }
  }

  lemma RolledCounts(t: Tables, c: Cutoffs, k: Key)
    ensures var r2 := Pass(t, c, 2).rollups;
            Counts(t, c, k) <==> k in r2 && r2[k].samples > 0
  {
    hide Pass, MinuteCounts, FoldsMinute, Merge, MinuteRows;
    Conservation.PassStatements(t, c);
    if k.resolution.Minute? {
      assert k !in FiveKeys(Pass(t, c, 1).rollups, c.minute);
      RolledMinute(t, c, k);
    } else {
      hide FiveKeys;
      FivesUntouched(t, c, k);
      MergedCounts(Pass(t, c, 1).rollups, c.minute, k);
      RolledFive(t, c, k);
    }
  }

  lemma {:induction false} MergedSamples(rollups: map<Key, Row>, cutoff: int, host: string, first: int, end: int)
    ensures var rows := MinuteRows(rollups, cutoff, host, first, end); |rows| > 0 ==> TotalSamples(rows) > 0
    decreases end - first
  {
    if end <= first {
    } else {
      MergedSamples(rollups, cutoff, host, first, end - 1);
      var k, rows := Key(Minute, end - 1, host), MinuteRows(rollups, cutoff, host, first, end - 1);
      if Foldable(rollups, cutoff, k) {
        Folding.AddRow(rows, rollups[k], Cpu);
      } else {
        assert rows + [] == rows;
      }
    }
  }

  /** What archiving costs the tables. After a pass whose roll-up and prune go through they
      count as many samples as without archiving exactly when, before the pass, no bucket
      that starts at the cutoff of a tier whose archiving went through counts or is about to
      count any: its row is archived without having been folded. */
  lemma ArchivingRunConservesIff(
      t: Tables, files: map<string, seq<Point>>, to: Destination, query: Query, c: Cutoffs, o: Outcome)
    requires AnswersAll(query) && Possible(o)
    ensures var kept, plain := AfterRun(t, files, Some(to), query, c, o).0, AfterRun(t, files, None, query, c, o).0;
            var rolled := Pass(t, c, 2).rollups;
            var gone := Conservation.Restrict(plain.rollups, ArchiveDeletes(rolled, c, o));
            && (o.rollup < 2 ==> Conservation.Total(kept) == Conservation.Total(plain))
            && (o.rollup == 2 ==> Conservation.Total(kept) + Conservation.Weight(gone) == Conservation.Total(plain))
            && (o.rollup == 2 && o.prune == 3 ==>
                  (Conservation.Total(kept) == Conservation.Total(plain) <==>
                     forall k: Key :: StartsAtCutoff(k, c) && EndingOf(o, k.resolution).Done? ==> !Counts(t, c, k)))
  {
    hide Pass, AfterRun, StartsAtCutoff, Counts, ArchiveDeletes;
    hide Conservation.Weight, Conservation.Restrict;
    var plain, rolled := AfterRun(t, files, None, query, c, o).0, Pass(t, c, 2);
    ArchivingRun(t, files, to, query, c, o);
    Conservation.WeightSplit(plain.rollups, ArchiveDeletes(rolled.rollups, c, o));
    if o.rollup == 2 && o.prune == 3 {
      var cut := AtCutoff(rolled.rollups, c, o);
      Conservation.WeightSplit(plain.rollups, cut.Keys);
      RestrictAtCutoff(plain.rollups, c, o);
      Conservation.WeightZero(cut);
      CutCounts(t, c, o);
    }
  }

  lemma RestrictAtCutoff(rollups: map<Key, Row>, c: Cutoffs, o: Outcome)
    ensures Conservation.Restrict(rollups, AtCutoff(rollups, c, o).Keys) == AtCutoff(rollups, c, o)
  {}

  lemma CutCounts(t: Tables, c: Cutoffs, o: Outcome)
    ensures forall k: Key ::
              k in AtCutoff(Pass(t, c, 2).rollups, c, o) && Pass(t, c, 2).rollups[k].samples > 0 <==>
              StartsAtCutoff(k, c) && EndingOf(o, k.resolution).Done? && Counts(t, c, k)
  {
    hide Pass, StartsAtCutoff, Counts;
    forall k: Key
      ensures Counts(t, c, k) <==> k in Pass(t, c, 2).rollups && Pass(t, c, 2).rollups[k].samples > 0
    {
      RolledCounts(t, c, k);
    }
  }

  /** The smallest case: a minute row that starts at the cutoff and counts samples is archived
      and deleted although no five-minute row counts them. */
  lemma RowAtCutoffIsArchivedUnfolded(k: Key, row: Row, to: Destination, query: Query, c: Cutoffs)
    requires AnswersAll(query) && k.resolution.Minute? && StartsAtCutoff(k, c) && row.samples > 0
    ensures var (kept, files) := AfterRun(Tables([], map[k := row]), map[], Some(to), query, c, ALL_GOES_WELL);
            && kept == Tables([], map[])
            && to.minutePath in files && ToPoint(k, row) in files[to.minutePath]
  {
    var t := Tables([], map[k := row]);
    RollsToItself(k, row, c);
    OneRowArchived(k, row, to, query, c);
    var s := Archived(State(t.rollups, map[]), Some(to), query, c, ALL_GOES_WELL);
    hide Pass, Archived, Prune, AnswersAll;
    PruneEffect(Tables([], s.rollups), c, 3);
    assert Prune(Tables([], map[]), c, 3).rollups == map[];
  }

  lemma RollsToItself(k: Key, row: Row, c: Cutoffs)
    requires k.resolution.Minute? && StartsAtCutoff(k, c)
    ensures Pass(Tables([], map[k := row]), c, 2) == Tables([], map[k := row])
  {
    hide Pass, Merge, MinuteRows, Aggregate, MinuteGroup;
    var t := Tables([], map[k := row]);
    Conservation.PassStatements(t, c);
    NothingToFold(k, row, c);
    assert t.rollups + map[] == t.rollups;
  }

  lemma NothingToFold(k: Key, row: Row, c: Cutoffs)
    requires k.resolution.Minute? && StartsAtCutoff(k, c)
    ensures MinuteGroups([], c.raw) == map[] && FiveGroups(map[k := row], c.minute) == map[]
  {
    hide Merge, MinuteRows, Aggregate, MinuteGroup;
    assert MinuteKeys([], c.raw) == {};
    assert FiveKeys(map[k := row], c.minute) == {};
  }

  lemma OneRowArchived(k: Key, row: Row, to: Destination, query: Query, c: Cutoffs)
    requires AnswersAll(query) && k.resolution.Minute? && StartsAtCutoff(k, c)
    ensures var s := Archived(State(map[k := row], map[]), Some(to), query, c, ALL_GOES_WELL);
            && s.rollups == map[] && to.minutePath in s.files && ToPoint(k, row) in s.files[to.minutePath]
  {
    var rollups := map[k := row];
    var keys, rest := query(rollups, Minute, c.minute), query(map[], FiveMinute, c.five);
    assert Answers(keys, rollups, Minute, c.minute) && Answers(rest, map[], FiveMinute, c.five);
    hide AnswersAll;
    assert Eligible(rollups, Minute, c.minute) == {k};
    assert |keys| == 1 && keys[0] == k;
    assert Points(rollups, keys) == [ToPoint(k, row)];
    assert Eligible(map[], FiveMinute, c.five) == {};
    assert |rest| == 0;
    assert rollups - Doomed(rollups, Minute, c.minute) == map[];
    assert |to.minutePath + ".tmp"| > |to.minutePath|;
    hide Answers, ToPoint;
  }
}
