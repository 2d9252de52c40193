/** The store and its periodic upkeep as objects (internal/storage/rollup.go,
    internal/storage/archive.go, cmd/daemon/maintenance.go). Every SQL statement is one
    assignment; a statement that fails changes nothing and ends its method. */
module Storage {
  import opened Common
  import opened Retention
  import opened Archive

  datatype RetentionPolicy = RetentionPolicy(rawHours: int, minuteDays: int, fiveMinuteDays: int)

  /** The instants a pass cuts at; days are UTC days. */
  function CutoffsOf(p: RetentionPolicy, now: int): Cutoffs {
    Cutoffs(now - p.rawHours * 3_600_000, now - p.minuteDays * 86_400_000, now - p.fiveMinuteDays * 86_400_000)
  }

  /** The first n of the three deletes of PruneTiers. */
  function Prune(t: Tables, c: Cutoffs, n: nat): Tables
    requires n <= 3
  {
    if n == 0 then t else Statement(Prune(t, c, n - 1), c, 1 + n)
  }

  /** Rolling up and then pruning is a pass. */
  lemma {:induction false} PruneAfterRollup(t: Tables, c: Cutoffs, n: nat)
    requires n <= 3
    ensures Prune(Pass(t, c, 2), c, n) == Pass(t, c, 2 + n)
  {
    if n == 0 {
    } else {
      PruneAfterRollup(t, c, n - 1);
    }
  }

  class Store {
    var raw: seq<Sample>
    var rollups: map<Key, Row>
    var files: map<string, seq<Point>>

    constructor ()
      ensures Contents() == Tables([], map[]) && files == map[]
    {
      raw, rollups, files := [], map[], map[];
    }

    function Contents(): Tables
      reads this
    {
      Tables(raw, rollups)
    }

    function Disk(): State
      reads this
    {
      State(rollups, files)
    }

    /** INSERT INTO metrics. */
    method Save(x: Sample)
      modifies this`raw
      ensures Contents() == old(Contents()).(raw := old(raw) + [x])
    {
      raw := raw + [x];
    }

    /** Rollup, of whose two statements the first `succeed` go through. */
    method Rollup(policy: RetentionPolicy, now: int, succeed: nat) returns (ok: bool)
      modifies this`rollups
      ensures ok <==> succeed >= 2
      ensures Contents() == Pass(old(Contents()), CutoffsOf(policy, now), Min(succeed, 2))
    {
      var c := CutoffsOf(policy, now);
      if succeed == 0 { return false; }
      rollups := rollups + MinuteGroups(raw, c.raw);
      assert Contents() == Pass(old(Contents()), c, 1);
      if succeed == 1 { return false; }
      rollups := rollups + FiveGroups(rollups, c.minute);
      return true;
    }

    /** PruneTiers, of whose three statements the first `succeed` go through. */
    method PruneTiers(policy: RetentionPolicy, now: int, succeed: nat) returns (ok: bool)
      modifies this`raw, this`rollups
      ensures ok <==> succeed >= 3
      ensures Contents() == Prune(old(Contents()), CutoffsOf(policy, now), Min(succeed, 3))
    {
      var c := CutoffsOf(policy, now);
      if succeed == 0 { return false; }
      raw := Kept(raw, c.raw);
      assert Contents() == Prune(old(Contents()), c, 1);
      if succeed == 1 { return false; }
      rollups := PruneRollups(Contents(), Minute, c.minute).rollups;
      assert Contents() == Prune(old(Contents()), c, 2);
      if succeed == 2 { return false; }
      rollups := PruneRollups(Contents(), FiveMinute, c.five).rollups;
      return true;
    }

    /** ArchiveTier on the answer its query got, when it ends in the given way. */
    method ArchiveTier(r: Resolution, path: string, before: int, keys: seq<Key>, e: Ending) returns (archived: nat)
      requires forall i :: 0 <= i < |keys| ==> keys[i] in rollups
      requires Fits(e, keys)
      modifies this`rollups, this`files
      ensures Disk() == ArchiveSteps(old(Disk()), path, keys, r, before, e)
      ensures archived == if e.Done? then |keys| else 0
    {
      archived := 0;
      if |keys| == 0 || e.Unread? { return; }
      var points, temporary := Points(rollups, keys), path + ".tmp";
      if e.Torn? {
        files := files[temporary := points[..e.partial]];
        return;
      }
      files := files[temporary := points];
      if e.Written? { return; }
      if e.Removed? {
        files := files - {temporary};
        assert files == old(files) - {temporary};
        return;
      }
      files := files[path := points] - {temporary};
      assert files == old(files)[path := points] - {temporary};
      if e.InPlace? { return; }
      rollups := rollups - Doomed(rollups, r, before);
      archived := |keys|;
    }

    /** RestoreArchive: decodes a file point by point inside one transaction. None is a line
        that does not decode; it rolls everything back. */
    method RestoreArchive(file: seq<Option<Point>>) returns (restored: nat, ok: bool)
      modifies this`rollups
      ensures ok <==> forall i :: 0 <= i < |file| ==> file[i].Some?
      ensures ok ==> restored == |file|
                     && rollups == Restored(old(rollups), seq(|file|, i requires 0 <= i < |file| => file[i].value))
      ensures !ok ==> rollups == old(rollups) && restored < |file| && file[restored].None?
    {
      restored := 0;
      var transaction := rollups;
      ghost var points: seq<Point> := [];
      while restored < |file|
        invariant restored <= |file|
        invariant |points| == restored
        invariant forall i :: 0 <= i < restored ==> file[i] == Some(points[i])
        invariant transaction == Restored(old(rollups), points)
        invariant rollups == old(rollups)
      {
        if file[restored].None? { return restored, false; }
        var p := file[restored].value;
        transaction := transaction[p.key := ToRow(p)];
        points := points + [p];
        assert points[..restored] == points[..|points|-1];
        restored := restored + 1;
      }
      assert points == seq(|file|, i requires 0 <= i < |file| => file[i].value);
      rollups := transaction;
      ok := true;
    }
  }
}
