/** Whole runs with an archive: passes that archive both tiers before they delete, archives
    that fail or stop anywhere, and files that are restored at any time. */
module ArchiveRuns {
  import opened Retention
  import opened RetentionRuns
  import opened Selection
  import opened Lineage
  import opened Archive
  import opened Columns

  /** What a finished archive file was written from: the rows, the samples each of them
      counted, and the keys the query gave. */
  datatype Box = Box(rows: map<Key, Row>, counted: map<Key, set<nat>>, keys: seq<Key>)

  /** A store with its archive directory. Of the ledger only the raw samples, the recent ones
      and those every row counts are used. `exiled` are the samples that left the raw table,
      the minute rows and the minute files; `archived` tells whether the minute tier has been
      archived in the running pass. */
  datatype Vault = Vault(l: Ledger, files: map<string, seq<Point>>, shelf: map<string, Box>, exiled: set<nat>, archived: bool)

  /** A save or a statement of a pass, the archiving of a tier, or a restore. */
  datatype Happening =
    | Table(event: Event)
    | ArchiveTier(tier: Resolution, path: string, keys: seq<Key>, ending: Ending)
    | RestoreFile(path: string)

  ghost function NewVault(origin: Cutoffs): Vault {
    Vault(Empty(origin), map[], map[], {}, false)
  }

  /** A pass archives between its folds and its deletes; a file is restored at any time. */
  ghost predicate Feasible(v: Vault, h: Happening) {
    var s := v.l.store;
    match h
    case Table(e) => Possible(s, e)
    case ArchiveTier(r, path, keys, ending) =>
      s.next == 2 && Final(path) && Fits(ending, keys) && Answers(keys, s.tables.rollups, r, CutoffOf(r, s.asked))
    case RestoreFile(path) => path in v.shelf && path in v.files
  }

  // ---- where a sample is held ----

  ghost predicate FiledIn(box: Box, i: nat) {
    exists k :: k in KeysOf(box.keys) && k.resolution.Minute? && InRow(box.counted, k, i)
  }

  /** A finished file has a minute row that counts sample i. */
  ghost predicate Filed(shelf: map<string, Box>, i: nat) {
    exists p :: p in shelf && FiledIn(shelf[p], i)
  }

  ghost predicate InMinute(l: Ledger, i: nat)
    requires i < |l.store.saved|
  {
    InRow(l.counted, CellOf(l.store.saved, Minute, i), i)
  }

  /** Sample i is in the raw table, or counted by a minute row in the table or in a file. */
  ghost predicate Held(v: Vault, i: nat)
    requires i < |v.l.store.saved|
  {
    i in v.l.raw || InMinute(v.l, i) || Filed(v.shelf, i)
  }

  // ---- what happens ----

  ghost function WithRollups(l: Ledger, rollups: map<Key, Row>, counted: map<Key, set<nat>>): Ledger {
    l.(store := l.store.(tables := l.store.tables.(rollups := rollups)), counted := counted)
  }

  /** Samples not held elsewhere that a minute fold replaces the row of, or that a raw
      prune deletes. */
  ghost function ExiledBy(v: Vault, e: Event): set<nat> {
    var l, saved := v.l, v.l.store.saved;
    match e
    case Begin(c) => set i | i in OvertakenMinutes(l, c.raw) && !Filed(v.shelf, i)
    case Step =>
      if l.store.next != 2 then {} else
        set i | i in l.raw && i < |saved| && Older(saved[i], l.store.asked.raw) && !InMinute(l, i) && !Filed(v.shelf, i)
    case _ => {}
  }

  ghost function AfterEvent(v: Vault, e: Event): Vault
    requires Possible(v.l.store, e)
  {
    v.(l := Track(v.l, e), exiled := v.exiled + ExiledBy(v, e), archived := v.archived && !e.Begin?)
  }

  ghost function AfterArchive(v: Vault, r: Resolution, path: string, keys: seq<Key>, ending: Ending): Vault
    requires Feasible(v, ArchiveTier(r, path, keys, ending))
  {
    var rollups, before := v.l.store.tables.rollups, CutoffOf(r, v.l.store.asked);
    var s := ArchiveSteps(State(rollups, v.files), path, keys, r, before, ending);
    var gone := if |keys| > 0 && ending.Done? then Doomed(rollups, r, before) else {};
    Vault(WithRollups(v.l, s.rollups, v.l.counted - gone), s.files,
          if Finishes(keys, ending) then v.shelf[path := Box(rollups, v.l.counted, keys)] else v.shelf,
          v.exiled, v.archived || (r.Minute? && ending.Done?))
  }

  ghost function LabelsOf(box: Box): map<Key, set<nat>> {
    map k | k in KeysOf(box.keys) && k in box.counted :: box.counted[k]
  }

  ghost function AfterRestore(v: Vault, path: string): Vault
    requires Feasible(v, RestoreFile(path))
  {
    v.(l := WithRollups(v.l, Restored(v.l.store.tables.rollups, v.files[path]), v.l.counted + LabelsOf(v.shelf[path])))
  }

  ghost function Follow(v: Vault, h: Happening): Vault
    requires Feasible(v, h)
  {
    match h
    case Table(e) => AfterEvent(v, e)
    case ArchiveTier(r, path, keys, ending) => AfterArchive(v, r, path, keys, ending)
    case RestoreFile(path) => AfterRestore(v, path)
  }

  ghost predicate IsRun(origin: Cutoffs, vaults: seq<Vault>, happenings: seq<Happening>) {
    && |vaults| == |happenings| + 1 && vaults[0] == NewVault(origin)
    && forall i :: 0 <= i < |happenings| ==> Feasible(vaults[i], happenings[i]) && vaults[i+1] == Follow(vaults[i], happenings[i])
  }

  // ---- every row and every file counts what the ledger says ----

  ghost predicate Booked(l: Ledger) {
    Recorded(l) && Placed(l) && FromFolds(l)
  }

  lemma PruneRawBooked(l: Ledger)
    requires Booked(l) && l.store.next == 2
    ensures Booked(Track(l, Step))
  {
    hide Track, Next, Kept, Select, Cell, Start, InRow;
    PruneRawParts(l);
    SelectKept(l.store.saved, l.raw, l.store.asked.raw);
  }

  lemma PruneMinutesBooked(l: Ledger)
    requires Booked(l) && l.store.next == 3
    ensures Booked(Track(l, Step))
  {
    hide Track, Next, Select, Cell, Start, Older, Recorded, PruneRollups, CellOf;
    PruneMinutesRecorded(l);
    PruneMinutesParts(l);
    var m := Track(l, Step);
    assert forall k: Key, i: nat :: InRow(m.counted, k, i) ==> InRow(l.counted, k, i);
    hide InRow, Pruned;
  }

  lemma PruneFivesBooked(l: Ledger)
    requires Booked(l) && l.store.next == 4
    ensures Booked(Track(l, Step))
  {
    hide Track, Next, Select, Cell, Start, Older, Recorded, PruneRollups, CellOf;
    PruneFivesRecorded(l);
    PruneFivesParts(l);
    var m := Track(l, Step);
    assert forall k: Key, i: nat :: InRow(m.counted, k, i) ==> InRow(l.counted, k, i);
    hide InRow, Pruned;
  }

  lemma StopBooked(l: Ledger)
    requires Booked(l) && Possible(l.store, Stop)
    ensures Booked(Track(l, Stop))
  {
    hide Select, Cell, Start, Older, InRow;
  }

  lemma TrackBooked(l: Ledger, e: Event)
    requires Booked(l) && Possible(l.store, e)
    ensures Booked(Track(l, e))
  {
    hide Track, Groups, Recorded, Placed, FromFolds, Regroups, Remerges, FiveKeys, Extends;
    match e
    case Save(x) =>
      SaveExtends(l, x);
      SavePlaced(l, Track(l, e));
      SaveRecorded(l, x);
    case Stop => StopBooked(l);
    case Begin(c) =>
      BeginRegroups(l, c);
      BeginRecorded(l, c);
      BeginFromFolds(l, Track(l, e), Groups(l, c.raw));
    case Step =>
      if l.store.next == 1 {
        FoldRecorded(l);
        FoldRemerges(l);
        FoldFromFolds(l, Track(l, e), FiveKeys(l.store.tables.rollups, l.store.asked.minute));
      } else if l.store.next == 2 {
        PruneRawBooked(l);
      } else if l.store.next == 3 {
        PruneMinutesBooked(l);
      } else {
        PruneFivesBooked(l);
      }
  }

  /** The points of a file count what its rows counted, and those were rows a fold wrote. */
  ghost predicate BoxSound(l: Ledger, box: Box) {
    && (forall i :: 0 <= i < |box.keys| ==> box.keys[i] in box.rows)
    && box.rows.Keys == box.counted.Keys
    && (forall k :: k in box.counted ==> box.rows[k].samples == |box.counted[k]| > 0)
    && FromFolds(l.(counted := box.counted))
  }

  ghost predicate ShelfSound(v: Vault) {
    forall p :: p in v.shelf ==>
      && BoxSound(v.l, v.shelf[p])
      && Final(p) && p in v.files && v.files[p] == Points(v.shelf[p].rows, v.shelf[p].keys)
  }

  ghost predicate Labelled(v: Vault) {
    Booked(v.l) && ShelfSound(v)
  }

  /** Time has passed from l to m. */
  ghost predicate Later(l: Ledger, m: Ledger) {
    && l.store.saved <= m.store.saved
    && l.store.asked.raw <= m.store.asked.raw && l.store.asked.minute <= m.store.asked.minute
    && forall i: nat :: i < |l.store.saved| && i in m.recent ==> i in l.recent
  }

  lemma TrackLater(l: Ledger, e: Event)
    requires Possible(l.store, e)
    ensures Later(l, Track(l, e))
  {
    hide Statement;
  }

  lemma BoxStays(l: Ledger, m: Ledger, box: Box)
    requires BoxSound(l, box) && Later(l, m)
    ensures BoxSound(m, box)
  {
    var a, b := l.(counted := box.counted), m.(counted := box.counted);
    assert forall i: nat :: i < |l.store.saved| ==> m.store.saved[i] == l.store.saved[i];
    hide InRow, Cell, Start;
    assert FromFolds(b);
  }

  lemma EventLabelled(v: Vault, e: Event)
    requires Labelled(v) && Possible(v.l.store, e)
    ensures Labelled(AfterEvent(v, e))
  {
    hide Track, Booked, Later, BoxSound, ExiledBy, Final, Points;
    TrackBooked(v.l, e);
    TrackLater(v.l, e);
    forall p | p in v.shelf
      ensures BoxSound(Track(v.l, e), v.shelf[p])
    {
      BoxStays(v.l, Track(v.l, e), v.shelf[p]);
    }
  }

  /** A row that goes takes its label with it. */
  lemma RowsGoBooked(l: Ledger, gone: set<Key>)
    requires Booked(l)
    ensures Booked(WithRollups(l, l.store.tables.rollups - gone, l.counted - gone))
  {
    var m := WithRollups(l, l.store.tables.rollups - gone, l.counted - gone);
    assert forall k: Key, i: nat :: InRow(m.counted, k, i) ==> InRow(l.counted, k, i);
    hide Select, InRow, Cell, Start, Older;
  }

  lemma AnswersAreRows(keys: seq<Key>, rollups: map<Key, Row>, r: Resolution, before: int)
    requires Answers(keys, rollups, r, before)
    ensures forall i :: 0 <= i < |keys| ==> keys[i] in rollups && keys[i] in Doomed(rollups, r, before)
    ensures forall k :: k in KeysOf(keys) ==> k in rollups && k.resolution == r && Start(k) <= before
  {}

  lemma ArchiveParts(v: Vault, r: Resolution, path: string, keys: seq<Key>, ending: Ending)
    requires Feasible(v, ArchiveTier(r, path, keys, ending))
    ensures var rollups, before := v.l.store.tables.rollups, CutoffOf(r, v.l.store.asked);
            var gone := if |keys| > 0 && ending.Done? then Doomed(rollups, r, before) else {};
            var w := AfterArchive(v, r, path, keys, ending);
            && w.l == WithRollups(v.l, rollups - gone, v.l.counted - gone)
            && w.exiled == v.exiled && w.archived == (v.archived || (r.Minute? && ending.Done?))
            && w.shelf == (if Finishes(keys, ending) then v.shelf[path := Box(rollups, v.l.counted, keys)] else v.shelf)
            && (forall p :: Final(p) && p in v.files && p != path ==> p in w.files && w.files[p] == v.files[p])
            && (Finishes(keys, ending) ==> path in w.files && w.files[path] == Points(rollups, keys))
            && (!Finishes(keys, ending) ==> path in v.files ==> path in w.files && w.files[path] == v.files[path])
  {
    var rollups := v.l.store.tables.rollups;
    AnswersAreRows(keys, rollups, r, CutoffOf(r, v.l.store.asked));
    hide Final, Points, Doomed, Answers, ArchiveSteps;
    ArchiveFiles(State(rollups, v.files), path, keys, r, CutoffOf(r, v.l.store.asked), ending);
    assert rollups - {} == rollups;
  }

  lemma ArchiveBooked(v: Vault, r: Resolution, path: string, keys: seq<Key>, ending: Ending)
    requires Labelled(v) && Feasible(v, ArchiveTier(r, path, keys, ending))
    ensures Booked(AfterArchive(v, r, path, keys, ending).l) && Later(v.l, AfterArchive(v, r, path, keys, ending).l)
  {
    hide Final, Points, Doomed, Answers, AfterArchive, ShelfSound, Booked;
    var rollups, before := v.l.store.tables.rollups, CutoffOf(r, v.l.store.asked);
    ArchiveParts(v, r, path, keys, ending);
    RowsGoBooked(v.l, if |keys| > 0 && ending.Done? then Doomed(rollups, r, before) else {});
  }

  /** The box of the rows in the table. */
  lemma OwnBox(v: Vault, keys: seq<Key>)
    requires Labelled(v) && forall i :: 0 <= i < |keys| ==> keys[i] in v.l.store.tables.rollups
    ensures BoxSound(v.l, Box(v.l.store.tables.rollups, v.l.counted, keys))
  {
    hide ShelfSound, Placed, FromFolds, Select;
    assert v.l.(counted := v.l.counted) == v.l;
  }

  lemma ArchiveLabelled(v: Vault, r: Resolution, path: string, keys: seq<Key>, ending: Ending)
    requires Labelled(v) && Feasible(v, ArchiveTier(r, path, keys, ending))
    ensures Labelled(AfterArchive(v, r, path, keys, ending))
  {
    hide Final, Points, Doomed, Answers, AfterArchive, Booked, BoxSound, KeysOf, Later;
    var w := AfterArchive(v, r, path, keys, ending);
    ArchiveParts(v, r, path, keys, ending);
    AnswersAreRows(keys, v.l.store.tables.rollups, r, CutoffOf(r, v.l.store.asked));
    ArchiveBooked(v, r, path, keys, ending);
    OwnBox(v, keys);
    forall box | BoxSound(v.l, box)
      ensures BoxSound(w.l, box)
    {
      BoxStays(v.l, w.l, box);
    }
  }

  lemma RestoreParts(v: Vault, path: string)
    requires Labelled(v) && Feasible(v, RestoreFile(path))
    ensures var w, box, rollups := AfterRestore(v, path), v.shelf[path], v.l.store.tables.rollups;
            && w.l == WithRollups(v.l, w.l.store.tables.rollups, v.l.counted + LabelsOf(box))
            && LabelsOf(box).Keys == KeysOf(box.keys)
            && forall k: Key ::
                 if k in KeysOf(box.keys) then
                   && k in box.rows && k in w.l.store.tables.rollups
                   && w.l.store.tables.rollups[k] == ToRow(ToPoint(k, box.rows[k]))
                 else
                   && (k in w.l.store.tables.rollups <==> k in rollups)
                   && (k in rollups ==> w.l.store.tables.rollups[k] == rollups[k])
  {
    var box, rollups := v.shelf[path], v.l.store.tables.rollups;
    assert BoxSound(v.l, box) && v.files[path] == Points(box.rows, box.keys);
    hide Labelled, FromFolds, Points, Restored, ToRow, ToPoint;
    forall k: Key
      ensures var after := Restored(rollups, Points(box.rows, box.keys));
              if k in KeysOf(box.keys) then k in after && after[k] == ToRow(ToPoint(k, box.rows[k]))
              else (k in after <==> k in rollups) && (k in after ==> after[k] == rollups[k])
    {
      RestoredAt(rollups, box.rows, box.keys, k);
    }
    assert LabelsOf(box).Keys == KeysOf(box.keys);
  }

  /** Labels that come back from a file. */
  lemma UnionFromFolds(l: Ledger, labels: map<Key, set<nat>>, of: map<Key, set<nat>>)
    requires FromFolds(l) && FromFolds(l.(counted := of))
    requires forall k :: k in labels ==> k in of && labels[k] == of[k]
    ensures FromFolds(l.(counted := l.counted + labels))
  {
    var a, b := l, l.(counted := of);
    forall k: Key, i: nat | InRow(l.counted + labels, k, i)
      ensures InRow(a.counted, k, i) || InRow(b.counted, k, i)
    {}
    hide InRow, Cell, Start, Older;
  }

  lemma SameButRollups(l: Ledger, rollups: map<Key, Row>, counted: map<Key, set<nat>>)
    requires Placed(l) && FromFolds(l.(counted := counted))
    ensures Placed(WithRollups(l, rollups, counted)) && FromFolds(WithRollups(l, rollups, counted))
  {
    hide InRow, Cell, Start, Older;
  }

  lemma UnionRecorded(l: Ledger, rollups: map<Key, Row>, labels: map<Key, set<nat>>)
    requires Recorded(l) && rollups.Keys == l.counted.Keys + labels.Keys
    requires forall k :: k in labels ==> rollups[k].samples == |labels[k]| > 0
    requires forall k :: k in l.counted && k !in labels ==> rollups[k] == l.store.tables.rollups[k]
    ensures Recorded(WithRollups(l, rollups, l.counted + labels))
  {
    hide Select;
  }

  lemma RestoreRecorded(v: Vault, path: string)
    requires Labelled(v) && Feasible(v, RestoreFile(path))
    ensures Recorded(AfterRestore(v, path).l)
  {
    hide Final, Points, AfterRestore, Select, KeysOf, FromFolds, Placed, LabelsOf, ToPoint;
    RestoreParts(v, path);
    var box, rollups := v.shelf[path], AfterRestore(v, path).l.store.tables.rollups;
    assert BoxSound(v.l, box);
    hide ShelfSound;
    LabelsSame(box);
    PointSamples();
    assert rollups.Keys == v.l.counted.Keys + LabelsOf(box).Keys;
    UnionRecorded(v.l, rollups, LabelsOf(box));
  }

  lemma PointSamples()
    ensures forall k, r :: ToPoint(k, r).samples == r.samples
  {}

  lemma LabelsSame(box: Box)
    ensures forall k :: k in LabelsOf(box) ==> k in box.counted && LabelsOf(box)[k] == box.counted[k]
  {}

  lemma RestoreFromFolds(v: Vault, path: string)
    requires Labelled(v) && Feasible(v, RestoreFile(path))
    ensures Placed(AfterRestore(v, path).l) && FromFolds(AfterRestore(v, path).l)
  {
    var box := v.shelf[path];
    assert BoxSound(v.l, box);
    hide Final, Points, Restored, Recorded, Placed, FromFolds, LabelsOf;
    LabelsSame(box);
    UnionFromFolds(v.l, LabelsOf(box), box.counted);
    SameButRollups(v.l, Restored(v.l.store.tables.rollups, v.files[path]), v.l.counted + LabelsOf(box));
  }

  lemma RestoreLabelled(v: Vault, path: string)
    requires Labelled(v) && Feasible(v, RestoreFile(path))
    ensures Labelled(AfterRestore(v, path))
  {
    var w := AfterRestore(v, path);
    hide Final, Points, AfterRestore, Recorded, Placed, FromFolds, KeysOf;
    RestoreRecorded(v, path);
    RestoreFromFolds(v, path);
    RestoreParts(v, path);
    RestoreKeeps(v, path);
    forall box | BoxSound(v.l, box)
      ensures BoxSound(w.l, box)
    {
      BoxStays(v.l, w.l, box);
    }
    hide BoxSound;
  }

  lemma RestoreKeeps(v: Vault, path: string)
    requires Feasible(v, RestoreFile(path))
    ensures var w := AfterRestore(v, path);
            w.shelf == v.shelf && w.files == v.files && w.archived == v.archived && w.exiled == v.exiled
  {}

  lemma FollowLabelled(v: Vault, h: Happening)
    requires Labelled(v) && Feasible(v, h)
    ensures Labelled(Follow(v, h))
  {
    hide Labelled, AfterEvent, AfterArchive, AfterRestore;
    match h
    case Table(e) => EventLabelled(v, e);
    case ArchiveTier(r, path, keys, ending) => ArchiveLabelled(v, r, path, keys, ending);
    case RestoreFile(path) => RestoreLabelled(v, path);
  }

  lemma NewVaultSound(origin: Cutoffs)
    ensures Labelled(NewVault(origin)) && Shaped(NewVault(origin)) && Unrestored(NewVault(origin)) && Accounted(NewVault(origin))
    ensures origin.raw % 60_000 == 0 ==> Calm(NewVault(origin))
  {}

  /** Over every run every row of the table and every point of a finished file counts exactly
      the samples the ledger says, all of them of its own bucket, and as many as it says. */
  lemma {:induction false} RunLabelled(origin: Cutoffs, vaults: seq<Vault>, happenings: seq<Happening>, i: nat)
    requires IsRun(origin, vaults, happenings) && i < |vaults|
    ensures Labelled(vaults[i])
  {
    hide Labelled, Follow, Feasible, NewVault;
    if i == 0 {
      NewVaultSound(origin);
    } else {
      RunLabelled(origin, vaults, happenings, i - 1);
      FollowLabelled(vaults[i-1], happenings[i-1]);
    }
  }

  // ---- which columns the rows have ----

  ghost predicate Shaped(v: Vault) {
    AllShaped(v.l.store.tables.rollups) && forall p :: p in v.shelf ==> AllShaped(v.shelf[p].rows)
  }

  ghost predicate Unrestored(v: Vault) {
    AllWhole(v.l.store.tables.rollups) && forall p :: p in v.shelf ==> AllWhole(v.shelf[p].rows)
  }

  lemma EventColumns(v: Vault, e: Event)
    requires Possible(v.l.store, e)
    ensures KeepsColumns(v.l.store.tables.rollups, AfterEvent(v, e).l.store.tables.rollups)
  {
    var s := v.l.store;
    if e.Begin? { StatementColumns(s.tables, e.cutoffs, 0); }
    if e.Step? { StatementColumns(s.tables, s.asked, s.next); }
    hide Statement, AllComplete, AllWhole, AllShaped;
  }

  lemma ArchiveColumns(v: Vault, r: Resolution, path: string, keys: seq<Key>, ending: Ending)
    requires Feasible(v, ArchiveTier(r, path, keys, ending))
    ensures var w := AfterArchive(v, r, path, keys, ending);
            (Shaped(v) ==> Shaped(w)) && (Unrestored(v) ==> Unrestored(w))
  {
    hide Whole, Stripped, AfterArchive, Feasible, Doomed, Points, Final;
    ArchiveParts(v, r, path, keys, ending);
  }

  lemma RestoreColumns(v: Vault, path: string)
    requires Labelled(v) && Shaped(v) && Feasible(v, RestoreFile(path))
    ensures Shaped(AfterRestore(v, path))
  {
    hide Whole, Stripped, AfterRestore, Labelled, KeysOf, LabelsOf;
    RestoreParts(v, path);
    RestoreKeeps(v, path);
    forall k, r
      ensures Stripped(ToRow(ToPoint(k, r)))
    {
      CarriedRoundTrip(k, r);
    }
    hide ToRow, ToPoint;
  }

  lemma FollowColumns(v: Vault, h: Happening)
    requires Labelled(v) && Shaped(v) && Feasible(v, h)
    ensures Shaped(Follow(v, h))
    ensures Unrestored(v) && !h.RestoreFile? ==> Unrestored(Follow(v, h))
  {
    hide Labelled, AfterArchive, AfterRestore, AllWhole, AllShaped, AllComplete, Track;
    match h
    case Table(e) => EventColumns(v, e);
    case ArchiveTier(r, path, keys, ending) => ArchiveColumns(v, r, path, keys, ending);
    case RestoreFile(path) => RestoreColumns(v, path);
  }

  /** Over every run every row of the table and of a file has all columns or exactly the
      carried ones; until a file is restored, all of them. */
  lemma {:induction false} RunColumns(origin: Cutoffs, vaults: seq<Vault>, happenings: seq<Happening>, i: nat)
    requires IsRun(origin, vaults, happenings) && i < |vaults|
    ensures Shaped(vaults[i]) && AllComplete(vaults[i].l.store.tables.rollups)
    ensures (forall j :: 0 <= j < i ==> !happenings[j].RestoreFile?) ==> Unrestored(vaults[i])
  {
    hide Labelled, Follow, Feasible, NewVault, Shaped, Unrestored, AllComplete;
    if i == 0 {
      NewVaultSound(origin);
    } else {
      RunColumns(origin, vaults, happenings, i - 1);
      RunLabelled(origin, vaults, happenings, i - 1);
      FollowColumns(vaults[i-1], happenings[i-1]);
    }
    ShapedRows(vaults[i]);
  }

  lemma ShapedRows(v: Vault)
    requires Shaped(v)
    ensures AllComplete(v.l.store.tables.rollups)
  {
    hide AllShaped, AllComplete;
    ShapedIsComplete(v.l.store.tables.rollups);
  }

  // ---- nothing that was folded goes unless it is replaced ----

  /** What a pass needs to keep everything: it deletes after its minute rows have been
      archived, all of them, into a file of a new name. */
  ghost predicate Careful(v: Vault, h: Happening) {
    match h
    case Table(e) => e.Step? && 2 <= v.l.store.next <= 3 ==> v.archived
    case ArchiveTier(r, path, keys, ending) =>
      && (Finishes(keys, ending) ==> path !in v.shelf)
      && (r.Minute? && ending.Done? ==> KeysOf(keys) == Doomed(v.l.store.tables.rollups, r, v.l.store.asked.minute))
    case RestoreFile(_) => true
  }

  /** The exiled samples are exactly those not held. */
  ghost predicate UnheldExiled(v: Vault) {
    && Positions(v.l.store.saved, v.exiled)
    && forall i: nat :: i < |v.l.store.saved| ==> (Held(v, i) <==> i !in v.exiled)
  }

  /** The minute rows that a delete is about to take are in a file. */
  ghost predicate DeletedFiled(v: Vault) {
    forall k, i: nat :: InRow(v.l.counted, k, i) && k.resolution.Minute? && Start(k) <= v.l.store.asked.minute ==> Filed(v.shelf, i)
  }

  /** The minutes in the files are before the cutoff, and their samples that are no longer
      raw are in files unless they were exiled. */
  ghost predicate FilesInTime(v: Vault) {
    var l, saved := v.l, v.l.store.saved;
    && (forall p, k :: p in v.shelf && k in KeysOf(v.shelf[p].keys) && k.resolution.Minute? ==> Start(k) <= l.store.asked.minute)
    && (forall p, i: nat :: p in v.shelf && i < |saved| && i !in l.raw && CellOf(saved, Minute, i) in KeysOf(v.shelf[p].keys) ==>
          Filed(v.shelf, i) || i in v.exiled)
  }

  ghost predicate Balanced(v: Vault) {
    && UnheldExiled(v)
    && (v.l.store.next == 1 ==> !v.archived)
    && (v.archived && 2 <= v.l.store.next ==> DeletedFiled(v))
  }

  ghost predicate Accounted(v: Vault) {
    Balanced(v) && FilesInTime(v)
  }

  lemma SaveBalanced(v: Vault, x: Sample)
    requires Labelled(v) && Balanced(v)
    ensures Balanced(AfterEvent(v, Save(x)))
  {
    var l, m := v.l, Track(v.l, Save(x));
    SaveExtends(l, x);
    hide Track, Start, CellOf, InRow, Filed, Labelled;
    assert forall i: nat :: i < |l.store.saved| ==> (InMinute(m, i) <==> InMinute(l, i));
  }

  lemma StopBalanced(v: Vault)
    requires Balanced(v) && Possible(v.l.store, Stop)
    ensures Balanced(AfterEvent(v, Stop))
  {
    hide Start, CellOf, InRow, Filed;
  }

  lemma BeginBalanced(v: Vault, c: Cutoffs)
    requires Labelled(v) && Balanced(v) && Possible(v.l.store, Begin(c))
    ensures Balanced(AfterEvent(v, Begin(c)))
  {
    hide Track, Labelled, Held, DeletedFiled, ExiledBy, UnheldExiled, MinuteGroups, OvertakenMinutes, Groups;
    var w := AfterEvent(v, Begin(c));
    BeginParts(v.l, c);
    forall i: nat | i < |v.l.store.saved|
      ensures Held(w, i) <==> Held(v, i) && i !in ExiledBy(v, Begin(c))
    {
      BeginHeld(v, c, i);
    }
    BeginExilesSaved(v, c);
    ExileMore(v, w, ExiledBy(v, Begin(c)));
  }

  lemma BeginExilesSaved(v: Vault, c: Cutoffs)
    ensures Positions(v.l.store.saved, ExiledBy(v, Begin(c)))
  {
    hide MinuteKeys, CellOf, Filed;
  }

  lemma ExileMore(v: Vault, w: Vault, more: set<nat>)
    requires UnheldExiled(v) && w.l.store.saved == v.l.store.saved && w.exiled == v.exiled + more && Positions(v.l.store.saved, more)
    requires forall i: nat :: i < |v.l.store.saved| ==> (Held(w, i) <==> Held(v, i) && i !in more)
    ensures UnheldExiled(w)
  {
    hide Held;
  }

  lemma BeginHeld(v: Vault, c: Cutoffs, i: nat)
    requires Labelled(v) && Possible(v.l.store, Begin(c)) && i < |v.l.store.saved|
    ensures AfterEvent(v, Begin(c)).l.store.saved == v.l.store.saved
    ensures Held(AfterEvent(v, Begin(c)), i) <==> Held(v, i) && i !in ExiledBy(v, Begin(c))
  {
    hide Track, CellOf, Filed, Labelled, Groups, OvertakenMinutes, Booked, MinuteGroups;
    BeginParts(v.l, c);
    OvertakenAtBegin(v.l, c, i);
    assert Booked(v.l) by { LabelledBooked(v); }
    GroupMembersRaw(v.l, c.raw);
  }

  lemma LabelledBooked(v: Vault)
    requires Labelled(v)
    ensures Booked(v.l)
  {
    hide Booked, ShelfSound;
  }

  lemma GroupMembersRaw(l: Ledger, cutoff: int)
    requires Booked(l)
    ensures forall k: Key, i: nat :: k in Groups(l, cutoff) && i in Groups(l, cutoff)[k] ==> i in l.raw
  {
    hide Cell, Older, MinuteKeys;
  }

  /** Nothing has happened to the raw samples and the minute rows. */
  ghost predicate SameMinutes(l: Ledger, m: Ledger) {
    && m.store.saved == l.store.saved && m.raw == l.raw && m.recent == l.recent && m.store.asked == l.store.asked
    && forall k: Key, i: nat :: k.resolution.Minute? ==> (InRow(m.counted, k, i) <==> InRow(l.counted, k, i))
  }

  lemma FoldSameMinutes(l: Ledger)
    requires Booked(l) && l.store.next == 1
    ensures SameMinutes(l, Track(l, Step)) && Track(l, Step).store.next == 2 && Track(l, Step).store.pruned == l.store.pruned
  {
    hide Track, InRow, Recorded, FromFolds, Placed, Refolds, FiveKeys, FiveGroups, Merges, OvertakenFives, CellOf;
    FoldRemerges(l);
    FoldParts(l);
  }

  lemma PruneFivesSameMinutes(l: Ledger)
    requires l.store.next == 4
    ensures SameMinutes(l, Track(l, Step)) && Track(l, Step).store.next == 0 && Track(l, Step).store.pruned == l.store.asked
  {
    hide Track, PruneRollups;
    PruneFivesParts(l);
  }

  lemma SameInMinute(l: Ledger, m: Ledger)
    requires SameMinutes(l, m)
    ensures forall i: nat :: i < |l.store.saved| ==> (InMinute(m, i) <==> InMinute(l, i))
  {
    hide CellOf, InRow;
    forall i: nat | i < |l.store.saved|
      ensures InMinute(m, i) <==> InMinute(l, i)
    {
      CellFacts(l.store.saved, i);
    }
  }

  lemma SameBalanced(v: Vault, w: Vault)
    requires Balanced(v) && SameMinutes(v.l, w.l) && w.shelf == v.shelf && w.exiled == v.exiled && w.archived == v.archived
    requires w.l.store.next != 1 && (2 <= w.l.store.next && w.archived ==> 2 <= v.l.store.next)
    ensures Balanced(w)
  {
    SameInMinute(v.l, w.l);
    hide InMinute, Filed, Start, InRow;
  }

  lemma FoldBalanced(v: Vault)
    requires Labelled(v) && Balanced(v) && v.l.store.next == 1
    ensures Balanced(AfterEvent(v, Step))
  {
    LabelledBooked(v);
    hide Track, Labelled, Booked, SameMinutes, UnheldExiled, DeletedFiled;
    FoldSameMinutes(v.l);
    assert v.exiled + {} == v.exiled;
    SameBalanced(v, AfterEvent(v, Step));
  }

  lemma PruneRawBalanced(v: Vault)
    requires Labelled(v) && Balanced(v) && v.l.store.next == 2
    ensures Balanced(AfterEvent(v, Step))
  {
    var l, m := v.l, Track(v.l, Step);
    PruneRawParts(l);
    hide Track, Start, CellOf, InRow, Filed, Labelled, Slipped, Kept, Older;
    assert forall i: nat :: i < |l.store.saved| ==> (InMinute(m, i) <==> InMinute(l, i));
  }

  lemma PruneMinutesRows(l: Ledger)
    requires l.store.next == 3
    ensures var m := Track(l, Step);
            && m.store.saved == l.store.saved && m.raw == l.raw && m.store.asked == l.store.asked && m.store.next == 4
            && forall k: Key, i: nat :: k.resolution.Minute? ==>
                 (InRow(m.counted, k, i) <==> InRow(l.counted, k, i) && l.store.asked.minute <= Start(k))
  {
    hide Track, Start, PruneRollups, Moving;
    PruneMinutesParts(l);
  }

  lemma PruneMinutesBalanced(v: Vault)
    requires Labelled(v) && Balanced(v) && v.l.store.next == 3 && v.archived
    ensures Balanced(AfterEvent(v, Step))
  {
    var l, saved := v.l, v.l.store.saved;
    hide Track, Start, CellOf, InRow, Filed, Labelled;
    PruneMinutesRows(l);
    forall i: nat | i < |saved|
      ensures CellOf(saved, Minute, i).resolution == Minute
    {
      CellFacts(saved, i);
    }
  }

  lemma PruneFivesBalanced(v: Vault)
    requires Balanced(v) && v.l.store.next == 4
    ensures Balanced(AfterEvent(v, Step))
  {
    hide Track, SameMinutes, UnheldExiled, DeletedFiled;
    PruneFivesSameMinutes(v.l);
    assert v.exiled + {} == v.exiled;
    SameBalanced(v, AfterEvent(v, Step));
  }

  /** A sample filed from a box is one that a minute row counts under its own key. */
  lemma FiledInCell(l: Ledger, box: Box, i: nat)
    requires BoxSound(l, box)
    ensures FiledIn(box, i) <==>
              && i < |l.store.saved| && CellOf(l.store.saved, Minute, i) in KeysOf(box.keys)
              && InRow(box.counted, CellOf(l.store.saved, Minute, i), i)
  {
    if i < |l.store.saved| {
      CellFacts(l.store.saved, i);
      CellIs(l.store.saved, i, Minute);
    }
    assert FromFolds(l.(counted := box.counted));
    hide Cell, CellOf, Start, Older, KeysOf, InRow;
  }

  lemma ShelfGrows(shelf: map<string, Box>, path: string, box: Box)
    requires path !in shelf
    ensures forall i: nat :: Filed(shelf[path := box], i) <==> Filed(shelf, i) || FiledIn(box, i)
  {
    var more := shelf[path := box];
    hide FiledIn;
    forall i: nat
      ensures Filed(more, i) <==> Filed(shelf, i) || FiledIn(box, i)
    {
      if FiledIn(box, i) { assert path in more && more[path] == box; }
      if Filed(shelf, i) {
        var p :| p in shelf && FiledIn(shelf[p], i);
        assert p in more && more[p] == shelf[p];
      }
    }
  }

  /** Where the samples of minute rows are after an archiving. */
  lemma ArchiveMoves(v: Vault, r: Resolution, path: string, keys: seq<Key>, ending: Ending, i: nat)
    requires Labelled(v) && Feasible(v, ArchiveTier(r, path, keys, ending)) && Careful(v, ArchiveTier(r, path, keys, ending))
    requires i < |v.l.store.saved|
    ensures var w := AfterArchive(v, r, path, keys, ending);
            var cell, gone := CellOf(v.l.store.saved, Minute, i), r.Minute? && |keys| > 0 && ending.Done?;
            && w.l.raw == v.l.raw && w.l.store.saved == v.l.store.saved
            && (InMinute(w.l, i) <==> InMinute(v.l, i) && !(gone && cell in KeysOf(keys)))
            && (Filed(w.shelf, i) <==> Filed(v.shelf, i) || (Finishes(keys, ending) && cell in KeysOf(keys) && InMinute(v.l, i)))
  {
    var rollups, before := v.l.store.tables.rollups, CutoffOf(r, v.l.store.asked);
    var box := Box(rollups, v.l.counted, keys);
    hide Final, Points, Answers, AfterArchive, KeysOf, Labelled, Filed, FiledIn, CellOf, BoxSound;
    AnswersAreRows(keys, rollups, r, before);
    ArchiveParts(v, r, path, keys, ending);
    CellFacts(v.l.store.saved, i);
    OwnBox(v, keys);
    FiledInCell(v.l, box, i);
    RowsAreLabelled(v);
    if Finishes(keys, ending) { ShelfGrows(v.shelf, path, box); }
  }

  lemma RowsAreLabelled(v: Vault)
    requires Labelled(v)
    ensures v.l.store.tables.rollups.Keys == v.l.counted.Keys
  {
    hide Placed, FromFolds, ShelfSound, Select;
  }

  lemma ArchiveEmptiesMinutes(v: Vault, path: string, keys: seq<Key>, k: Key)
    requires Labelled(v) && Feasible(v, ArchiveTier(Minute, path, keys, Done)) && Careful(v, ArchiveTier(Minute, path, keys, Done))
    requires k.resolution.Minute? && Start(k) <= v.l.store.asked.minute
    ensures k !in AfterArchive(v, Minute, path, keys, Done).l.counted
  {
    hide Final, Points, Answers, AfterArchive, KeysOf, Start, Labelled;
    var rollups := v.l.store.tables.rollups;
    LabelledRecorded(v);
    ArchiveParts(v, Minute, path, keys, Done);
    if k in v.l.counted {
      assert k in Doomed(rollups, Minute, v.l.store.asked.minute);
      KeysNonEmpty(keys, k);
    }
  }

  lemma KeysNonEmpty(keys: seq<Key>, k: Key)
    requires k in KeysOf(keys)
    ensures |keys| > 0
  {}

  lemma ArchiveBalanced(v: Vault, r: Resolution, path: string, keys: seq<Key>, ending: Ending)
    requires Labelled(v) && Balanced(v)
    requires Feasible(v, ArchiveTier(r, path, keys, ending)) && Careful(v, ArchiveTier(r, path, keys, ending))
    ensures Balanced(AfterArchive(v, r, path, keys, ending))
  {
    var w, saved := AfterArchive(v, r, path, keys, ending), v.l.store.saved;
    hide Final, Points, Answers, AfterArchive, KeysOf, Labelled, Filed, CellOf, Start, Careful;
    ArchiveParts(v, r, path, keys, ending);
    forall i: nat | i < |saved|
      ensures Held(w, i) <==> Held(v, i)
      ensures Filed(v.shelf, i) ==> Filed(w.shelf, i)
    {
      ArchiveMoves(v, r, path, keys, ending, i);
    }
    forall k, i: nat | w.archived && InRow(w.l.counted, k, i) && k.resolution.Minute? && Start(k) <= v.l.store.asked.minute
      ensures Filed(w.shelf, i)
    {
      if r.Minute? && ending.Done? {
        ArchiveEmptiesMinutes(v, path, keys, k);
      } else {
        assert InRow(v.l.counted, k, i);
        RowsOfSaved(v.l, k, i);
      }
    }
  }

  lemma RowsOfSaved(l: Ledger, k: Key, i: nat)
    requires Booked(l) && InRow(l.counted, k, i)
    ensures i < |l.store.saved| && i !in l.recent && Older(l.store.saved[i], l.store.asked.raw)
    ensures k.resolution.Minute? ==> CellOf(l.store.saved, Minute, i) == k
  {
    CellIs(l.store.saved, i, Minute);
    hide Cell, CellOf, Start, Older, InRow;
  }

  /** Where the samples of minute rows are after a restore. */
  lemma RestoreMoves(v: Vault, path: string, i: nat)
    requires Labelled(v) && Feasible(v, RestoreFile(path)) && i < |v.l.store.saved|
    ensures var w, cell := AfterRestore(v, path), CellOf(v.l.store.saved, Minute, i);
            && w.l.raw == v.l.raw && w.l.store.saved == v.l.store.saved && w.l.store.asked == v.l.store.asked
            && w.l.store.next == v.l.store.next
            && (cell in KeysOf(v.shelf[path].keys) ==> (InMinute(w.l, i) <==> FiledIn(v.shelf[path], i)))
            && (FiledIn(v.shelf[path], i) ==> Filed(v.shelf, i))
            && (cell !in KeysOf(v.shelf[path].keys) ==> (InMinute(w.l, i) <==> InMinute(v.l, i)))
  {
    var box, cell := v.shelf[path], CellOf(v.l.store.saved, Minute, i);
    assert BoxSound(v.l, box);
    hide Final, Points, Labelled, BoxSound, KeysOf, CellOf, FiledIn;
    FiledInCell(v.l, box, i);
    LabelsSame(box);
    RestoreParts(v, path);
    hide AfterRestore, LabelsOf;
  }

  lemma RestoreBalanced(v: Vault, path: string)
    requires Labelled(v) && Accounted(v) && Feasible(v, RestoreFile(path))
    ensures Balanced(AfterRestore(v, path))
  {
    hide AfterRestore, Labelled, Held, DeletedFiled, FilesInTime;
    RestoreKeeps(v, path);
    RestoreShape(v, path);
    forall i: nat | i < |v.l.store.saved|
      ensures Held(AfterRestore(v, path), i) <==> Held(v, i)
    {
      RestoreHeld(v, path, i);
    }
    if DeletedFiled(v) { RestoreDeleted(v, path); }
  }

  /** A restore by itself loses no sample, even where it replaces rows that are in the table. */
  lemma RestoreHeld(v: Vault, path: string, i: nat)
    requires Labelled(v) && Accounted(v) && Feasible(v, RestoreFile(path)) && i < |v.l.store.saved|
    ensures AfterRestore(v, path).l.store.saved == v.l.store.saved
    ensures Held(AfterRestore(v, path), i) <==> Held(v, i)
  {
    hide AfterRestore, KeysOf, Labelled, Filed, CellOf, InMinute, DeletedFiled, Start;
    RestoreKeeps(v, path);
    RestoreMoves(v, path, i);
  }

  /** But a restore between the fold and the raw prune of a pass can take the row of a sample
      that the prune then deletes: if the file has the minute, and no file the sample. */
  lemma RestoreUncovers(v: Vault, path: string, i: nat)
    requires Labelled(v) && Accounted(v) && Feasible(v, RestoreFile(path)) && v.l.store.next == 2
    requires i < |v.l.store.saved| && i in v.l.raw && Older(v.l.store.saved[i], v.l.store.asked.raw)
    requires !Filed(v.shelf, i) && CellOf(v.l.store.saved, Minute, i) in KeysOf(v.shelf[path].keys)
    ensures var w := AfterRestore(v, path);
            && Possible(w.l.store, Step)
            && AfterEvent(w, Step).l.store.saved == v.l.store.saved
            && !Held(AfterEvent(w, Step), i)
  {
    hide AfterRestore, KeysOf, Labelled, Filed, CellOf, InMinute, DeletedFiled, FilesInTime, Track, Older, Held;
    var w := AfterRestore(v, path);
    RestoreKeeps(v, path);
    RestoreShape(v, path);
    RestoreMoves(v, path, i);
    RestoreLabelled(v, path);
    RestoreBalanced(v, path);
    assert i in ExiledBy(w, Step);
    PruneRawParts(w.l);
    PruneRawBalanced(w);
  }

  lemma RestoreDeleted(v: Vault, path: string)
    requires Labelled(v) && DeletedFiled(v) && Feasible(v, RestoreFile(path))
    ensures DeletedFiled(AfterRestore(v, path))
  {
    var w := AfterRestore(v, path);
    hide AfterRestore, Labelled, Filed, Start, InRow;
    RestoreKeeps(v, path);
    RestoreShape(v, path);
    RestoreLabelled(v, path);
    forall k, i: nat | InRow(w.l.counted, k, i) && k.resolution.Minute? && Start(k) <= v.l.store.asked.minute
      ensures Filed(v.shelf, i)
    {
      RestoredRow(v, w, path, k, i);
    }
  }

  lemma RestoreShape(v: Vault, path: string)
    requires Feasible(v, RestoreFile(path))
    ensures var w := AfterRestore(v, path);
            && w.l.raw == v.l.raw && w.l.store.saved == v.l.store.saved && w.l.store.asked == v.l.store.asked && w.l.store.next == v.l.store.next
  {}

  lemma RestoredRow(v: Vault, w: Vault, path: string, k: Key, i: nat)
    requires Labelled(v) && Feasible(v, RestoreFile(path)) && w == AfterRestore(v, path) && Labelled(w)
    requires InRow(w.l.counted, k, i) && k.resolution.Minute?
    ensures Filed(v.shelf, i) || InRow(v.l.counted, k, i)
  {
    hide AfterRestore, KeysOf, Filed, CellOf, Start, ShelfSound, Recorded, Placed, FromFolds;
    RestoreShape(v, path);
    RowsOfSaved(w.l, k, i);
    RestoreMoves(v, path, i);
  }

  /** No sample is worse off after an archiving, and those of the minutes in its file that
      are no longer raw are in files unless they were exiled. */
  ghost predicate Shelves(v: Vault, w: Vault, keys: seq<Key>, finishes: bool)
    requires w.l.store.saved == v.l.store.saved
  {
    forall i: nat :: i < |v.l.store.saved| ==>
      && (Filed(v.shelf, i) ==> Filed(w.shelf, i))
      && (InMinute(v.l, i) ==> InMinute(w.l, i) || Filed(w.shelf, i))
      && (finishes && i !in v.l.raw && CellOf(v.l.store.saved, Minute, i) in KeysOf(keys) ==>
            Filed(w.shelf, i) || i in v.exiled)
  }

  lemma ArchiveShelves(v: Vault, r: Resolution, path: string, keys: seq<Key>, ending: Ending)
    requires Labelled(v) && UnheldExiled(v)
    requires Feasible(v, ArchiveTier(r, path, keys, ending)) && Careful(v, ArchiveTier(r, path, keys, ending))
    ensures var w := AfterArchive(v, r, path, keys, ending);
            w.l.store.saved == v.l.store.saved && Shelves(v, w, keys, Finishes(keys, ending))
  {
    var w, saved := AfterArchive(v, r, path, keys, ending), v.l.store.saved;
    hide AfterArchive, KeysOf, Labelled, Filed, CellOf, InMinute, Careful, Feasible;
    ArchiveShape(v, r, path, keys, ending);
    forall i: nat | i < |saved|
      ensures Filed(v.shelf, i) ==> Filed(w.shelf, i)
      ensures InMinute(v.l, i) ==> InMinute(w.l, i) || Filed(w.shelf, i)
      ensures Finishes(keys, ending) && i !in v.l.raw && CellOf(saved, Minute, i) in KeysOf(keys) ==>
                Filed(w.shelf, i) || i in v.exiled
    {
      assert Held(v, i) || i in v.exiled;
      ArchiveMoves(v, r, path, keys, ending, i);
    }
  }

  lemma ArchiveShape(v: Vault, r: Resolution, path: string, keys: seq<Key>, ending: Ending)
    requires Feasible(v, ArchiveTier(r, path, keys, ending))
    ensures var w := AfterArchive(v, r, path, keys, ending);
            && w.l.raw == v.l.raw && w.l.recent == v.l.recent && w.exiled == v.exiled
            && w.l.store == v.l.store.(tables := w.l.store.tables)
            && w.shelf == if Finishes(keys, ending) then v.shelf[path := Box(v.l.store.tables.rollups, v.l.counted, keys)] else v.shelf
    ensures forall k :: k in KeysOf(keys) ==> k.resolution == r && Start(k) <= CutoffOf(r, v.l.store.asked)
  {
    AnswersAreRows(keys, v.l.store.tables.rollups, r, CutoffOf(r, v.l.store.asked));
    hide Answers, ArchiveSteps, Final, Start;
  }

  // ---- the minutes in the files ----

  lemma EventFiles(v: Vault, e: Event)
    requires Labelled(v) && Accounted(v) && Possible(v.l.store, e) && Careful(v, Table(e))
    ensures FilesInTime(AfterEvent(v, e))
  {
    var l, m, saved := v.l, Track(v.l, e), v.l.store.saved;
    hide Track, Start, CellOf, InRow, Filed, Labelled, Older, KeysOf, UnheldExiled, OvertakenMinutes;
    TrackLater(l, e);
    TrackRaw(l, e);
    SameCells(saved, m.store.saved);
    forall p, i: nat | p in v.shelf && i < |m.store.saved| && i !in m.raw && CellOf(m.store.saved, Minute, i) in KeysOf(v.shelf[p].keys)
      ensures Filed(v.shelf, i) || i in v.exiled || i in ExiledBy(v, e)
    {
      CellFacts(saved, i);
    }
  }

  /** Only the raw prune takes samples out of the raw table. */
  lemma TrackRaw(l: Ledger, e: Event)
    requires Possible(l.store, e)
    ensures forall i: nat :: i < |Track(l, e).store.saved| && i !in Track(l, e).raw ==>
              && i < |l.store.saved|
              && (i in l.raw ==> e.Step? && l.store.next == 2 && Older(l.store.saved[i], l.store.asked.raw))
  {
    hide Statement, Groups, OvertakenMinutes, Merges, OvertakenFives, Slipped, Moving, Pruned, Older;
  }

  lemma SameCells(a: seq<Sample>, b: seq<Sample>)
    requires a <= b
    ensures forall i: nat :: i < |a| ==> CellOf(b, Minute, i) == CellOf(a, Minute, i)
  {
    assert forall i: nat :: i < |a| ==> b[i] == a[i];
    hide Cell;
  }

  lemma ArchiveFilesInTime(v: Vault, r: Resolution, path: string, keys: seq<Key>, ending: Ending)
    requires Labelled(v) && Accounted(v)
    requires Feasible(v, ArchiveTier(r, path, keys, ending)) && Careful(v, ArchiveTier(r, path, keys, ending))
    ensures FilesInTime(AfterArchive(v, r, path, keys, ending))
  {
    var w := AfterArchive(v, r, path, keys, ending);
    hide Feasible, AfterArchive, KeysOf, Labelled, UnheldExiled, DeletedFiled, Filed, CellOf, Start, Careful, InMinute;
    ArchiveShape(v, r, path, keys, ending);
    ArchiveShelves(v, r, path, keys, ending);
  }

  lemma RestoreFilesInTime(v: Vault, path: string)
    requires FilesInTime(v) && Feasible(v, RestoreFile(path))
    ensures FilesInTime(AfterRestore(v, path))
  {
    hide AfterRestore, KeysOf, Filed, CellOf, Start;
    RestoreKeeps(v, path);
    RestoreShape(v, path);
  }

  lemma EventBalanced(v: Vault, e: Event)
    requires Labelled(v) && Balanced(v) && Possible(v.l.store, e) && Careful(v, Table(e))
    ensures Balanced(AfterEvent(v, e))
  {
    hide Labelled, Balanced, AfterEvent;
    match e
    case Save(x) => SaveBalanced(v, x);
    case Stop => StopBalanced(v);
    case Begin(c) => BeginBalanced(v, c);
    case Step =>
      if v.l.store.next == 1 { FoldBalanced(v); }
      else if v.l.store.next == 2 { PruneRawBalanced(v); }
      else if v.l.store.next == 3 { PruneMinutesBalanced(v); }
      else { PruneFivesBalanced(v); }
  }

  lemma FollowAccounted(v: Vault, h: Happening)
    requires Labelled(v) && Accounted(v) && Feasible(v, h) && Careful(v, h)
    ensures Accounted(Follow(v, h))
  {
    hide Labelled, Balanced, FilesInTime, Careful, AfterEvent, AfterArchive, AfterRestore;
    match h
    case Table(e) =>
      EventBalanced(v, e);
      EventFiles(v, e);
    case ArchiveTier(r, path, keys, ending) =>
      ArchiveBalanced(v, r, path, keys, ending);
      ArchiveFilesInTime(v, r, path, keys, ending);
    case RestoreFile(path) =>
      RestoreBalanced(v, path);
      RestoreFilesInTime(v, path);
  }

  ghost predicate IsCarefulRun(origin: Cutoffs, vaults: seq<Vault>, happenings: seq<Happening>) {
    IsRun(origin, vaults, happenings) && forall i :: 0 <= i < |happenings| ==> Careful(vaults[i], happenings[i])
  }

  /** Over every careful run, whatever its cutoffs, the times of its samples, its stops, its
      failed archives and its restores: a sample is in the raw table, in a minute row or in
      a finished file exactly if it was not exiled, by a fold that replaced the only row that
      counted it or by a raw prune of a sample that had none. */
  lemma {:induction false} RunAccounted(origin: Cutoffs, vaults: seq<Vault>, happenings: seq<Happening>, i: nat)
    requires IsCarefulRun(origin, vaults, happenings) && i < |vaults|
    ensures Labelled(vaults[i]) && Accounted(vaults[i])
  {
    hide Labelled, Follow, Feasible, NewVault, Accounted, Careful;
    RunLabelled(origin, vaults, happenings, i);
    if i == 0 {
      NewVaultSound(origin);
    } else {
      RunAccounted(origin, vaults, happenings, i - 1);
      FollowAccounted(vaults[i-1], happenings[i-1]);
    }
  }

  // ---- when nothing goes at all ----

  /** Samples come in time, the raw cutoffs fall on whole minutes, and files are restored
      while no pass is running. */
  ghost predicate Punctual(v: Vault, h: Happening) {
    match h
    case Table(e) => Timely(v.l.store, e) && (e.Begin? ==> e.cutoffs.raw % 60_000 == 0)
    case ArchiveTier(_, _, _, _) => true
    case RestoreFile(_) => v.l.store.next == 0
  }

  /** The raw table holds the samples not older than the last raw cutoff, and those saved
      since the minute fold are not older than its cutoff either. */
  ghost predicate RawInTime(l: Ledger) {
    var saved, s := l.store.saved, l.store;
    && s.pruned.raw % 60_000 == 0 && s.asked.raw % 60_000 == 0 && s.pruned.raw <= s.asked.raw
    && (3 <= s.next ==> s.pruned.raw == s.asked.raw)
    && (forall i: nat :: i < |saved| ==> (i in l.raw <==> !Older(saved[i], s.pruned.raw)))
    && (1 <= s.next ==> forall i: nat :: i in l.recent && i < |saved| ==> !Older(saved[i], s.asked.raw))
  }

  /** What the raw prune is about to delete has a minute row. */
  ghost predicate FoldedHeld(v: Vault) {
    var l, saved := v.l, v.l.store.saved;
    1 <= l.store.next <= 2 ==>
      forall i: nat :: i in l.raw && i < |saved| && Older(saved[i], l.store.asked.raw) ==> InMinute(l, i) || Filed(v.shelf, i)
  }

  ghost predicate Calm(v: Vault) {
    RawInTime(v.l) && FoldedHeld(v) && v.exiled == {}
  }

  lemma SaveCalm(v: Vault, x: Sample)
    requires Labelled(v) && Calm(v) && Timely(v.l.store, Save(x))
    ensures Calm(AfterEvent(v, Save(x)))
  {
    var l, m := v.l, Track(v.l, Save(x));
    SaveExtends(l, x);
    SaveParts(l, x);
    assert Placed(l) by { hide Placed; }
    hide Track, Start, CellOf, InRow, Filed, Labelled, KeysOf;
    assert forall i: nat :: i < |l.store.saved| ==> (InMinute(m, i) <==> InMinute(l, i));
  }

  lemma StopCalm(v: Vault)
    requires Calm(v) && Possible(v.l.store, Stop)
    ensures Calm(AfterEvent(v, Stop))
  {
    hide Start, CellOf, InRow, Filed, KeysOf, Older;
  }

  /** A minute that a raw cutoff has passed has no raw samples left. */
  lemma NoneOvertaken(l: Ledger, cutoff: int, i: nat)
    requires Recorded(l) && RawInTime(l)
    ensures i !in OvertakenMinutes(l, cutoff)
  {
    var saved := l.store.saved;
    hide Select;
    if i in OvertakenMinutes(l, cutoff) {
      GroupsRecorded(l, cutoff);
      var k := CellOf(saved, Minute, i);
      assert k in Groups(l, cutoff);
      var j :| j in Groups(l, cutoff)[k];
      assert j in l.raw && j < |saved| && CellOf(saved, Minute, j) == k;
      hide Groups, GroupAt, MinuteGroups, Recorded;
      SameMinute(saved[i], saved[j], l.store.pruned.raw);
    }
  }

  lemma SameMinute(x: Sample, y: Sample, cutoff: int)
    requires x.timestamp.Some? && y.timestamp.Some? && Cell(Minute, x) == Cell(Minute, y) && cutoff % 60_000 == 0
    ensures Older(x, cutoff) <==> Older(y, cutoff)
  {}

  lemma BeginExilesNone(v: Vault, c: Cutoffs)
    requires Labelled(v) && RawInTime(v.l)
    ensures ExiledBy(v, Begin(c)) == {}
  {
    hide Labelled, RawInTime, Filed, OvertakenMinutes;
    assert Recorded(v.l) by { LabelledRecorded(v); }
    forall i: nat
      ensures i !in OvertakenMinutes(v.l, c.raw)
    {
      NoneOvertaken(v.l, c.raw, i);
    }
  }

  lemma LabelledRecorded(v: Vault)
    requires Labelled(v)
    ensures Recorded(v.l) && Placed(v.l) && FromFolds(v.l)
  {
    hide Recorded, Placed, FromFolds, ShelfSound;
  }

  lemma BeginCalm(v: Vault, c: Cutoffs)
    requires Labelled(v) && Calm(v) && Possible(v.l.store, Begin(c)) && c.raw % 60_000 == 0
    ensures Calm(AfterEvent(v, Begin(c)))
  {
    hide Track, Start, CellOf, InRow, Filed, Labelled, Groups, OvertakenMinutes, Recorded, Placed, FromFolds;
    hide Older, KeysOf, MinuteGroups, ExiledBy, RowsReplaced, GroupsRaw;
    BeginExilesNone(v, c);
    LabelledRecorded(v);
    BeginParts(v.l, c);
    BeginRegroups(v.l, c);
  }

  lemma FoldCalm(v: Vault)
    requires Labelled(v) && Calm(v) && v.l.store.next == 1
    ensures Calm(AfterEvent(v, Step))
  {
    LabelledBooked(v);
    hide Track, Labelled, Booked, SameMinutes, InMinute, Filed;
    FoldSameMinutes(v.l);
    SameInMinute(v.l, Track(v.l, Step));
    assert SameMinutes(v.l, Track(v.l, Step));
    SameShape(v.l, Track(v.l, Step));
  }

  lemma SameShape(l: Ledger, m: Ledger)
    requires SameMinutes(l, m)
    ensures m.store.saved == l.store.saved && m.raw == l.raw && m.recent == l.recent && m.store.asked == l.store.asked
  {}

  lemma PruneRawCalm(v: Vault)
    requires Labelled(v) && Accounted(v) && Calm(v) && v.l.store.next == 2 && v.archived
    ensures Calm(AfterEvent(v, Step))
  {
    var l, m, saved := v.l, Track(v.l, Step), v.l.store.saved;
    PruneRawParts(l);
    hide Track, Start, CellOf, InRow, Filed, Labelled, Slipped, Kept, Older, KeysOf;
    forall i: nat | i < |saved| && InMinute(l, i) && Start(CellOf(saved, Minute, i)) <= l.store.asked.minute
      ensures Filed(v.shelf, i)
    {
      CellFacts(saved, i);
    }
    forall i: nat | i < |saved|
      ensures CellOf(saved, Minute, i).resolution == Minute
    {
      CellFacts(saved, i);
    }
    assert ExiledBy(v, Step) == {};
  }

  lemma PruneRowsCalm(v: Vault)
    requires Calm(v) && 3 <= v.l.store.next < 5
    ensures Calm(AfterEvent(v, Step))
  {
    hide Track, Older, InMinute, Filed, PruneRollups, Pruned, Moving;
    if v.l.store.next == 3 { PruneMinutesParts(v.l); } else { PruneFivesParts(v.l); }
  }

  lemma ArchiveCalm(v: Vault, r: Resolution, path: string, keys: seq<Key>, ending: Ending)
    requires Labelled(v) && UnheldExiled(v) && Calm(v)
    requires Feasible(v, ArchiveTier(r, path, keys, ending)) && Careful(v, ArchiveTier(r, path, keys, ending))
    ensures Calm(AfterArchive(v, r, path, keys, ending))
  {
    var w := AfterArchive(v, r, path, keys, ending);
    hide Feasible, AfterArchive, KeysOf, Labelled, UnheldExiled, Filed, CellOf, Start, Careful, Older, InMinute;
    ArchiveShape(v, r, path, keys, ending);
    ArchiveShelves(v, r, path, keys, ending);
    assert RawInTime(w.l);
  }

  lemma RestoreCalm(v: Vault, path: string)
    requires Calm(v) && Feasible(v, RestoreFile(path)) && v.l.store.next == 0
    ensures Calm(AfterRestore(v, path))
  {
    hide Start, CellOf, InRow, Filed, KeysOf, Older, Restored, LabelsOf;
  }

  lemma FollowCalm(v: Vault, h: Happening)
    requires Labelled(v) && Accounted(v) && Calm(v) && Feasible(v, h) && Careful(v, h) && Punctual(v, h)
    ensures Calm(Follow(v, h))
  {
    hide Labelled, UnheldExiled, DeletedFiled, Calm, AfterEvent, AfterArchive, AfterRestore, Timely;
    match h
    case Table(e) =>
      match e {
        case Save(x) => SaveCalm(v, x);
        case Stop => StopCalm(v);
        case Begin(c) => BeginCalm(v, c);
        case Step =>
          if v.l.store.next == 1 { FoldCalm(v); }
          else if v.l.store.next == 2 { PruneRawCalm(v); }
          else { PruneRowsCalm(v); }
      }
    case ArchiveTier(r, path, keys, ending) => ArchiveCalm(v, r, path, keys, ending);
    case RestoreFile(path) => RestoreCalm(v, path);
  }

  lemma {:induction false} RunCalm(origin: Cutoffs, vaults: seq<Vault>, happenings: seq<Happening>, i: nat)
    requires IsCarefulRun(origin, vaults, happenings) && i < |vaults| && origin.raw % 60_000 == 0
    requires forall j :: 0 <= j < |happenings| ==> Punctual(vaults[j], happenings[j])
    ensures Calm(vaults[i])
  {
    hide Labelled, Follow, Feasible, NewVault, Accounted, Careful, Punctual, Calm;
    if i == 0 {
      NewVaultSound(origin);
    } else {
      RunCalm(origin, vaults, happenings, i - 1);
      RunAccounted(origin, vaults, happenings, i - 1);
      FollowCalm(vaults[i-1], happenings[i-1]);
    }
  }

  /** With an archive nothing is ever lost: over every run in which samples come in time, raw
      cutoffs fall on whole minutes, passes archive before they delete and files are restored
      between passes, every sample ever saved is at every moment in the raw table, in a
      minute row or in a finished file. The other cutoffs may fall anywhere and passes and
      archives may stop anywhere. */
  lemma ArchiveKeepsAll(origin: Cutoffs, vaults: seq<Vault>, happenings: seq<Happening>, i: nat, j: nat)
    requires IsCarefulRun(origin, vaults, happenings) && i < |vaults| && origin.raw % 60_000 == 0
    requires forall n :: 0 <= n < |happenings| ==> Punctual(vaults[n], happenings[n])
    requires j < |vaults[i].l.store.saved|
    ensures Held(vaults[i], j)
  {
    hide Held, Feasible, Follow, Careful, Punctual, RawInTime, FoldedHeld, FilesInTime, DeletedFiled;
    RunCalm(origin, vaults, happenings, i);
    RunAccounted(origin, vaults, happenings, i);
  }

  /** What is in a finished file comes back into a minute row when that file is restored. */
  lemma FiledComesBack(v: Vault, i: nat) returns (path: string)
    requires Labelled(v) && Filed(v.shelf, i)
    ensures Feasible(v, RestoreFile(path))
    ensures i < |v.l.store.saved| && InMinute(AfterRestore(v, path).l, i)
  {
    path :| path in v.shelf && FiledIn(v.shelf[path], i);
    hide Labelled, KeysOf, CellOf, FiledIn, BoxSound, AfterRestore, InMinute;
    FileOf(v, path);
    FiledInCell(v.l, v.shelf[path], i);
    RestoreMoves(v, path, i);
  }

  lemma FileOf(v: Vault, path: string)
    requires Labelled(v) && path in v.shelf
    ensures path in v.files && BoxSound(v.l, v.shelf[path])
  {
    hide Booked, BoxSound, Points;
  }
}
