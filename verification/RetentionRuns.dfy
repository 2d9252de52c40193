/** Whole runs of ingest and maintenance: samples arrive at any moment, passes run, stop
    between any two statements and are run again later. */
module RetentionRuns {
  import opened Retention
  import Arithmetic
  import Folding

  /** Every row of resolution r with lo <= bucket < hi is the aggregate of the samples ever
      saved in it, and it is there exactly when there are such samples. */
  ghost predicate Exact(rollups: map<Key, Row>, saved: seq<Sample>, r: Resolution, lo: int, hi: int) {
    forall k: Key :: k.resolution == r && lo <= Start(k) < hi ==>
      && (k in rollups <==> |InCell(saved, k)| > 0)
      && (k in rollups ==> rollups[k] == Aggregate(InCell(saved, k)))
  }

  /** Every row of resolution r that starts at lo or later stands for some saved sample
      and starts before hi. */
  ghost predicate Backed(rollups: map<Key, Row>, saved: seq<Sample>, r: Resolution, lo: int, hi: int) {
    forall k: Key :: k in rollups && k.resolution == r && lo <= Start(k) ==>
      Start(k) < hi && |InCell(saved, k)| > 0
  }

  /** The tables as a function of everything ever saved and the three cutoffs: raw samples
      from c.raw on, exact minute rows from c.minute to c.raw, exact five-minute rows from
      c.five to c.minute, and nothing else. */
  ghost predicate Ideal(t: Tables, saved: seq<Sample>, c: Cutoffs) {
    && t.raw == Kept(saved, c.raw)
    && Exact(t.rollups, saved, Minute, c.minute, c.raw)
    && Exact(t.rollups, saved, FiveMinute, c.five, c.minute)
    && forall k :: k in t.rollups ==>
         match k.resolution
         case Minute => c.minute <= Start(k) < c.raw
         case FiveMinute => c.five <= Start(k) < c.minute
  }

  // ---- the machine ----

  /** What happens to a store: a sample is ingested, a pass starts (its first statement
      runs), its next statement runs, or it stops for good. */
  datatype Event = Save(sample: Sample) | Begin(cutoffs: Cutoffs) | Step | Stop

  /** `pruned` are the cutoffs of the last deletes that ran, `asked` those of the last pass
      begun, `next` the statement the running pass is at (0 when none is running). */
  datatype Store = Store(tables: Tables, saved: seq<Sample>, pruned: Cutoffs, asked: Cutoffs, next: nat)

  ghost predicate Aligned(c: Cutoffs) {
    c.raw % 60_000 == 0 && c.minute % 300_000 == 0 && c.minute <= c.raw
  }

  /** A pass begins when none is running, and its cutoffs do not go back. */
  ghost predicate Possible(s: Store, e: Event) {
    match e
    case Save(_) => true
    case Begin(c) => s.next == 0 && s.asked.raw <= c.raw && s.asked.minute <= c.minute && s.asked.five <= c.five
    case Step => 1 <= s.next < 5
    case Stop => 1 <= s.next < 5
  }

  /** No sample is older than the raw rows already (or about to be) deleted. */
  ghost predicate Timely(s: Store, e: Event) {
    e.Save? ==> !Older(e.sample, if s.next == 0 then s.pruned.raw else s.asked.raw)
  }

  /** A timely event whose cutoffs respect bucket boundaries. */
  ghost predicate Allowed(s: Store, e: Event) {
    Possible(s, e) && Timely(s, e) && (e.Begin? ==> Aligned(e.cutoffs))
  }

  ghost function Next(s: Store, e: Event): Store
    requires Possible(s, e)
  {
    match e
    case Save(x) => s.(tables := s.tables.(raw := s.tables.raw + [x]), saved := s.saved + [x])
    case Begin(c) => s.(tables := Statement(s.tables, c, 0), asked := c, next := 1)
    case Stop => s.(next := 0)
    case Step =>
      var t, c := Statement(s.tables, s.asked, s.next), s.asked;
      match s.next
      case 2 => s.(tables := t, pruned := s.pruned.(raw := c.raw), next := 3)
      case 3 => s.(tables := t, pruned := s.pruned.(minute := c.minute), next := 4)
      case 4 => s.(tables := t, pruned := c, next := 0)
      case _ => s.(tables := t, next := 2)
  }

  ghost function Fresh(origin: Cutoffs): Store {
    Store(Tables([], map[]), [], origin, origin, 0)
  }

  ghost predicate Legal(s: Store, events: seq<Event>)
    decreases |events|
  {
    |events| == 0 || (Allowed(s, events[0]) && Legal(Next(s, events[0]), events[1..]))
  }

  ghost function Run(s: Store, events: seq<Event>): Store
    requires Legal(s, events)
    decreases |events|
  {
    if |events| == 0 then s else Run(Next(s, events[0]), events[1..])
  }

  /** What holds between any two statements. */
  ghost predicate Inv(s: Store) {
    var t, saved, p, a := s.tables, s.saved, s.pruned, s.asked;
    && s.next < 5
    && Aligned(p) && Aligned(a)
    && p.raw <= a.raw && p.minute <= a.minute && p.five <= a.five
    && t.raw == Kept(saved, p.raw)
    && Backed(t.rollups, saved, Minute, p.minute, a.raw)
    && Backed(t.rollups, saved, FiveMinute, p.minute, a.minute)
    && (forall k :: k in t.rollups && k.resolution.Minute? ==> p.minute <= Start(k))
    && Exact(t.rollups, saved, Minute, p.minute, if s.next == 0 then p.raw else a.raw)
    && Exact(t.rollups, saved, FiveMinute, p.five, if s.next < 2 then p.minute else a.minute)
    && (s.next >= 3 ==> p.raw == a.raw)
    && (s.next >= 4 ==> p.minute == a.minute)
    && (forall k :: k in t.rollups && k.resolution.FiveMinute? ==> Start(k) < a.minute)
  }

  // ---- preservation, one event at a time ----

  lemma KeptAppend(s: seq<Sample>, x: Sample, cutoff: int)
    ensures Kept(s + [x], cutoff) == Kept(s, cutoff) + if Older(x, cutoff) then [] else [x]
  {
    assert (s + [x])[..|s|] == s;
  }

  lemma CellAppend(s: seq<Sample>, x: Sample, k: Key)
    ensures InCell(s + [x], k) ==
            InCell(s, k) + if Within(x, Start(k), Start(k) + Width(k.resolution), k.host) then [x] else []
  {
    assert (s + [x])[..|s|] == s;
  }

  lemma ExactAppend(rollups: map<Key, Row>, saved: seq<Sample>, x: Sample, r: Resolution, lo: int, hi: int)
    requires Exact(rollups, saved, r, lo, hi) && !Older(x, hi) && hi % Width(r) == 0
    ensures Exact(rollups, saved + [x], r, lo, hi)
  {
    hide InCell, Aggregate;
    forall k: Key | k.resolution == r && lo <= Start(k) < hi
      ensures InCell(saved + [x], k) == InCell(saved, k)
    {
      CellAppend(saved, x, k);
      CellEndsBy(k, hi);
    }
    hide Start, Width, Older;
  }

  lemma CellEndsBy(k: Key, hi: int)
    requires hi % Width(k.resolution) == 0 && Start(k) < hi
    ensures Start(k) + Width(k.resolution) <= hi
  {}

  lemma BackedAppend(rollups: map<Key, Row>, saved: seq<Sample>, x: Sample, r: Resolution, lo: int, hi: int)
    requires Backed(rollups, saved, r, lo, hi)
    ensures Backed(rollups, saved + [x], r, lo, hi)
  {
    forall k: Key
      ensures |InCell(saved + [x], k)| >= |InCell(saved, k)|
    {
      CellAppend(saved, x, k);
    }
  }

  /** The rows account for a new sample that comes in time: it is in none of their buckets. */
  ghost predicate RowsAccount(rollups: map<Key, Row>, saved: seq<Sample>, p: Cutoffs, a: Cutoffs, minutes: int, fives: int) {
    && Backed(rollups, saved, Minute, p.minute, a.raw)
    && Backed(rollups, saved, FiveMinute, p.minute, a.minute)
    && Exact(rollups, saved, Minute, p.minute, minutes)
    && Exact(rollups, saved, FiveMinute, p.five, fives)
  }

  lemma RowsAppend(rollups: map<Key, Row>, saved: seq<Sample>, x: Sample, p: Cutoffs, a: Cutoffs, minutes: int, fives: int)
    requires RowsAccount(rollups, saved, p, a, minutes, fives)
    requires !Older(x, minutes) && minutes % 60_000 == 0 && !Older(x, fives) && fives % 300_000 == 0
    ensures RowsAccount(rollups, saved + [x], p, a, minutes, fives)
  {
    hide Exact, Backed;
    BackedAppend(rollups, saved, x, Minute, p.minute, a.raw);
    BackedAppend(rollups, saved, x, FiveMinute, p.minute, a.minute);
    ExactAppend(rollups, saved, x, Minute, p.minute, minutes);
    ExactAppend(rollups, saved, x, FiveMinute, p.five, fives);
  }

  /** The group the minute fold aggregates is the whole bucket, for a bucket past the
      deleted raw rows and before an aligned cutoff. */
  lemma MinuteGroupIsCell(saved: seq<Sample>, pruned: int, cutoff: int, k: Key)
    requires k.resolution.Minute? && cutoff % 60_000 == 0 && pruned <= Start(k) < cutoff
    ensures MinuteGroup(Kept(saved, pruned), cutoff, k) == InCell(saved, k)
  {
    InSpanKept(saved, pruned, Start(k), Start(k) + 60_000, k.host);
  }

  lemma MinuteKeysSpan(saved: seq<Sample>, pruned: int, cutoff: int, k: Key)
    requires pruned % 60_000 == 0 && k in MinuteKeys(Kept(saved, pruned), cutoff)
    ensures k.resolution.Minute? && pruned <= Start(k) < cutoff
  {
    KeptMembers(saved, pruned);
  }

  lemma {:induction false} KeptMembers(s: seq<Sample>, cutoff: int)
    ensures forall x :: x in Kept(s, cutoff) ==> x in s && !Older(x, cutoff)
  {
    if |s| == 0 {
    } else {
      KeptMembers(s[..|s|-1], cutoff);
    }
  }

  lemma BeginPreserves(s: Store, c: Cutoffs)
    requires Inv(s) && Allowed(s, Begin(c))
    ensures Inv(Next(s, Begin(c)))
  {
    var raw, old', new' := s.tables.raw, s.tables.rollups, Next(s, Begin(c)).tables.rollups;
    forall k: Key
      ensures k.resolution.FiveMinute? ==> (k in new' <==> k in old') && (k in new' ==> new'[k] == old'[k])
      ensures k.resolution.Minute? && s.pruned.raw <= Start(k) < c.raw ==>
                && (k in new' <==> |InCell(s.saved, k)| > 0)
                && (k in new' ==> new'[k] == Aggregate(InCell(s.saved, k)))
      ensures k.resolution.Minute? && !(s.pruned.raw <= Start(k) < c.raw) ==>
                (k in new' <==> k in old') && (k in new' ==> new'[k] == old'[k])
    {
      MinuteKeysNonEmpty(raw, c.raw, k);
      if k in MinuteKeys(raw, c.raw) { MinuteKeysSpan(s.saved, s.pruned.raw, c.raw, k); }
      if k.resolution.Minute? && s.pruned.raw <= Start(k) < c.raw {
        MinuteGroupIsCell(s.saved, s.pruned.raw, c.raw, k);
      }
    }
  }

  /** The five-minute fold makes the buckets between the last pruned and the new minute
      cutoff exact and touches nothing else. */
  ghost predicate FoldsExactly(s: Store) {
    var old', new' := s.tables.rollups, FoldFives(s.tables, s.asked.minute).rollups;
    forall k: Key ::
      if k.resolution.FiveMinute? && s.pruned.minute <= Start(k) < s.asked.minute then
        && (k in new' <==> |InCell(s.saved, k)| > 0)
        && (k in new' ==> new'[k] == Aggregate(InCell(s.saved, k)))
      else
        (k in new' <==> k in old') && (k in new' ==> new'[k] == old'[k])
  }

  lemma FoldFivesExact(s: Store)
    requires Inv(s) && s.next == 1
    ensures FoldsExactly(s)
  {
    hide Inv;
    var old', cutoff := s.tables.rollups, s.asked.minute;
    forall q: Key
      ensures q in FiveKeys(old', cutoff) ==>
                q.resolution.FiveMinute? && s.pruned.minute <= Start(q) < cutoff
      ensures q.resolution.FiveMinute? && s.pruned.minute <= Start(q) < cutoff ==> FiveKeyExact(s, q)
    {
      if q in FiveKeys(old', cutoff) { FiveKeySpan(s, q); }
      if q.resolution.FiveMinute? && s.pruned.minute <= Start(q) < cutoff { FiveKeyIsExact(s, q); }
    }
  }

  ghost predicate FiveKeyExact(s: Store, q: Key) {
    var old', cutoff := s.tables.rollups, s.asked.minute;
    && (q in FiveKeys(old', cutoff) <==> |InCell(s.saved, q)| > 0)
    && (q in FiveKeys(old', cutoff) ==> FiveGroups(old', cutoff)[q] == Aggregate(InCell(s.saved, q)))
    && (q in old' ==> |InCell(s.saved, q)| > 0)
  }

  lemma FiveKeySpan(s: Store, q: Key)
    requires Inv(s) && s.next == 1 && q in FiveKeys(s.tables.rollups, s.asked.minute)
    ensures q.resolution.FiveMinute? && s.pruned.minute <= Start(q) < s.asked.minute
  {
    var rollups, cutoff := s.tables.rollups, s.asked.minute;
    var k :| k in rollups && Foldable(rollups, cutoff, k) && q == Key(FiveMinute, k.bucket / 5, k.host);
    assert s.pruned.minute <= Start(k);
    Arithmetic.FiveOfMinute(k.bucket, s.pruned.minute);
  }

  lemma MinutesOfFive(s: Store, q: Key)
    requires Inv(s) && s.next == 1
    requires q.resolution.FiveMinute? && s.pruned.minute <= Start(q) < s.asked.minute
    ensures Start(q) + 300_000 <= s.asked.minute
    ensures Folding.MinutesExact(s.tables.rollups, s.saved, q.host, 5 * q.bucket, 5 * q.bucket + 5)
    ensures q in s.tables.rollups ==> |InCell(s.saved, q)| > 0
  {
    Arithmetic.BucketEndsBy(q.bucket, s.asked.minute);
    hide InCell, Aggregate, Kept;
    forall b | 5 * q.bucket <= b < 5 * q.bucket + 5
      ensures s.pruned.minute <= Start(Key(Minute, b, q.host)) < s.asked.raw
    {}
    assert Exact(s.tables.rollups, s.saved, Minute, s.pruned.minute, s.asked.raw);
    assert Backed(s.tables.rollups, s.saved, FiveMinute, s.pruned.minute, s.asked.minute);
    hide Inv;
  }

  lemma FiveKeyIsExact(s: Store, q: Key)
    requires Inv(s) && s.next == 1
    requires q.resolution.FiveMinute? && s.pruned.minute <= Start(q) < s.asked.minute
    ensures FiveKeyExact(s, q)
  {
    hide Inv, InCell, Aggregate, Merge, MinuteRows, FiveKeys, Folding.MinutesExact;
    MinutesOfFive(s, q);
    Folding.TwoLevelFoldIsDirect(s.tables.rollups, s.saved, s.asked.minute, q);
  }

  lemma FoldKeepsMinutes(s: Store)
    requires Inv(s) && s.next == 1 && FoldsExactly(s)
    ensures var new' := FoldFives(s.tables, s.asked.minute).rollups;
            && Exact(new', s.saved, Minute, s.pruned.minute, s.asked.raw)
            && Backed(new', s.saved, Minute, s.pruned.minute, s.asked.raw)
            && (forall k :: k in new' && k.resolution.Minute? ==> s.pruned.minute <= Start(k))
  {
    hide InCell, Aggregate, FoldFives, Kept;
  }

  lemma FoldMakesFives(s: Store)
    requires Inv(s) && s.next == 1 && FoldsExactly(s)
    ensures var new' := FoldFives(s.tables, s.asked.minute).rollups;
            && Exact(new', s.saved, FiveMinute, s.pruned.five, s.asked.minute)
            && Backed(new', s.saved, FiveMinute, s.pruned.minute, s.asked.minute)
            && (forall k :: k in new' && k.resolution.FiveMinute? ==> Start(k) < s.asked.minute)
  {
    hide InCell, Aggregate, FoldFives, Kept;
  }

  lemma FoldPreserves(s: Store)
    requires Inv(s) && s.next == 1
    ensures Inv(Next(s, Step))
  {
    assert FoldsExactly(s) by { hide Inv, FoldsExactly; FoldFivesExact(s); }
    hide FoldsExactly, Exact, Backed, Kept, Start;
    FoldKeepsMinutes(s);
    FoldMakesFives(s);
  }

  lemma PruneRawPreserves(s: Store)
    requires Inv(s) && s.next == 2
    ensures Inv(Next(s, Step))
  {
    KeptTwice(s.saved, s.pruned.raw, s.asked.raw);
    hide Kept, InCell, Aggregate;
    var u := Next(s, Step);
    assert u.tables.rollups == s.tables.rollups;
    hide Exact, Backed, Start;
  }

  lemma PruneMinutesPreserves(s: Store)
    requires Inv(s) && s.next == 3
    ensures Inv(Next(s, Step))
  {
    hide Kept, InCell, Aggregate;
  }

  lemma LastStepPreserves(s: Store)
    requires Inv(s) && s.next == 4
    ensures Inv(Next(s, Step))
  {
    hide Kept, InCell, Aggregate;
  }

  /** The last statement leaves the ideal tables. */
  lemma LastStepIsIdeal(s: Store)
    requires Inv(s) && s.next == 4
    ensures Ideal(Next(s, Step).tables, s.saved, s.asked)
  {
    hide Kept, InCell, Aggregate;
    assert Backed(s.tables.rollups, s.saved, Minute, s.asked.minute, s.asked.raw);
    hide Backed;
  }

  lemma {:induction false} KeptTwice(s: seq<Sample>, a: int, b: int)
    requires a <= b
    ensures Kept(Kept(s, a), b) == Kept(s, b)
  {
    if |s| == 0 {
    } else {
      var p, x := s[..|s|-1], s[|s|-1];
      KeptTwice(p, a, b);
      KeptAppend(Kept(p, a), x, b);
      assert Kept(s, a) == if Older(x, a) then Kept(p, a) else Kept(p, a) + [x];
    }
  }

  lemma StopPreserves(s: Store)
    requires Inv(s) && 1 <= s.next
    ensures Inv(Next(s, Stop))
  {
    hide Kept, InCell, Aggregate;
  }

  lemma NextPreserves(s: Store, e: Event)
    requires Inv(s) && Allowed(s, e)
    ensures Inv(Next(s, e))
  {
    hide Exact, Backed, Kept, InCell;
    match e
    case Save(x) =>
      KeptAppend(s.saved, x, s.pruned.raw);
      RowsAppend(s.tables.rollups, s.saved, x, s.pruned, s.asked,
                 if s.next == 0 then s.pruned.raw else s.asked.raw, if s.next < 2 then s.pruned.minute else s.asked.minute);
    case Begin(c) => BeginPreserves(s, c);
    case Step =>
      if s.next == 1 { FoldPreserves(s); }
      else if s.next == 2 { PruneRawPreserves(s); }
      else if s.next == 3 { PruneMinutesPreserves(s); }
      else { LastStepPreserves(s); }
    case Stop => StopPreserves(s);
  }

  lemma {:induction false} RunPreserves(s: Store, events: seq<Event>)
    requires Inv(s) && Legal(s, events)
    ensures Inv(Run(s, events))
    decreases |events|
  {
    if |events| == 0 {
    } else {
      NextPreserves(s, events[0]);
      RunPreserves(Next(s, events[0]), events[1..]);
    }
  }

  /** For every run from an empty store, however its passes were cut off and rerun and
      however ingest was interleaved: when a pass completes, the tables are the ideal ones. */
  lemma CompletedPassIsIdeal(origin: Cutoffs, events: seq<Event>)
    requires Aligned(origin) && Legal(Fresh(origin), events)
    requires Run(Fresh(origin), events).next == 4
    ensures var s := Run(Fresh(origin), events);
            Ideal(Next(s, Step).tables, s.saved, s.asked)
  {
    RunPreserves(Fresh(origin), events);
    LastStepIsIdeal(Run(Fresh(origin), events));
  }
}
