/** Login sessions (internal/server/session.go, internal/storage/sessions.go): an idle expiry
    that slides on activity, written back at most every five minutes, and an absolute cap.
    Times are UTC milliseconds. */
module Sessions {
  import opened Common

  const TOUCH_INTERVAL: int := 300_000

  datatype Record = Record(user: string, createdAt: int, expiresAt: int, lastSeenAt: int)

  /** The sessions table, by token hash. */
  type Table = map<string, Record>

  datatype Config = Config(idle: int, max: int)

  function Issued(c: Config, t: Table, hash: string, user: string, now: int): Table {
    if hash in t then t else t[hash := Record(user, now, now + c.idle, now)]
  }

  /** resolveSession after the cookie has been read; `userOk` is whether the user still
      exists and has a known role. */
  function Resolved(c: Config, t: Table, hash: string, userOk: bool, now: int): (Table, bool) {
    if hash !in t then (t, false)
    else
      var r := t[hash];
      if now > r.expiresAt || now > r.createdAt + c.max then (t - {hash}, false)
      else if !userOk then (t, false)
      else if now - r.lastSeenAt > TOUCH_INTERVAL then (t[hash := r.(lastSeenAt := now, expiresAt := now + c.idle)], true)
      else (t, true)
  }

  function Pruned(t: Table, now: int): Table {
    map h | h in t && !(t[h].expiresAt < now) :: t[h]
  }

  class Server {
    const config: Config
    var sessions: Table

    constructor (idle: int, max: int)
      ensures config == Config(idle, max) && sessions == map[]
    {
      config, sessions := Config(idle, max), map[];
    }

    /** issueSession; inserting an existing token hash is an error. */
    method IssueSession(hash: string, user: string, now: int) returns (ok: bool)
      modifies this
      ensures ok <==> hash !in old(sessions)
      ensures sessions == Issued(config, old(sessions), hash, user, now)
    {
      if hash in sessions { return false; }
      sessions := sessions[hash := Record(user, now, now + config.idle, now)];
      return true;
    }

    method ResolveSession(cookie: Option<string>, userOk: bool, now: int) returns (ok: bool)
      modifies this
      ensures cookie.None? ==> !ok && sessions == old(sessions)
      ensures cookie.Some? ==> (sessions, ok) == Resolved(config, old(sessions), cookie.value, userOk, now)
    {
      if cookie.None? { return false; }
      var hash := cookie.value;
      if hash !in sessions { return false; }
      var rec := sessions[hash];
      if now > rec.expiresAt || now > rec.createdAt + config.max {
        sessions := sessions - {hash};
        return false;
      }
      if !userOk { return false; }
      if now - rec.lastSeenAt > TOUCH_INTERVAL {
        sessions := sessions[hash := rec.(lastSeenAt := now, expiresAt := now + config.idle)];
      }
      return true;
    }

    method DeleteSession(hash: string)
      modifies this
      ensures sessions == old(sessions) - {hash}
    {
      sessions := sessions - {hash};
    }

    method PruneExpiredSessions(now: int) returns (removed: nat)
      modifies this
      ensures sessions == Pruned(old(sessions), now)
      ensures forall h :: h in sessions <==> h in old(sessions) && now <= old(sessions)[h].expiresAt
      ensures removed == |old(sessions)| - |sessions|
    {
      var kept := Pruned(sessions, now);
      assert kept.Keys <= sessions.Keys;
      assert |sessions.Keys| == |kept.Keys| + |sessions.Keys - kept.Keys|;
      removed := |sessions| - |kept|;
      sessions := kept;
    }
  }

  // ---- request histories ----

  datatype Event =
    | Issue(hash: string, user: string, now: int)
    | Request(hash: string, userOk: bool, now: int)
    | Prune(now: int)
    | Delete(hash: string, now: int)

  ghost function Next(c: Config, t: Table, e: Event): (Table, bool) {
    match e
    case Issue(hash, user, now) => (Issued(c, t, hash, user, now), false)
    case Request(hash, userOk, now) => Resolved(c, t, hash, userOk, now)
    case Prune(now) => (Pruned(t, now), false)
    case Delete(hash, _) => (t - {hash}, false)
  }

  ghost function TableAfter(c: Config, events: seq<Event>): Table {
    if |events| == 0 then map[] else Next(c, TableAfter(c, events[..|events|-1]), events[|events|-1]).0
  }

  /** Whether request number i is let in. */
  ghost predicate Accepted(c: Config, events: seq<Event>, i: nat)
    requires i < |events|
  {
    Next(c, TableAfter(c, events[..i]), events[i]).1
  }

  /** Time does not run backwards and no token is issued twice. */
  ghost predicate History(events: seq<Event>) {
    && (forall i, j :: 0 <= i < j < |events| ==> events[i].now <= events[j].now)
    && (forall i, j :: 0 <= i < j < |events| && events[i].Issue? && events[j].Issue? ==> events[i].hash != events[j].hash)
  }

  // ---- pruning is invisible ----

  /** The same history without its prunes. */
  ghost function WithoutPrunes(events: seq<Event>): seq<Event> {
    if |events| == 0 then [] else
      WithoutPrunes(events[..|events|-1]) + if events[|events|-1].Prune? then [] else [events[|events|-1]]
  }

  /** The table without prunes has, on top, only sessions that are already expired. */
  ghost predicate PrunedOf(t: Table, full: Table, now: int) {
    && (forall h :: h in t ==> h in full && t[h] == full[h])
    && (forall h :: h in full && h !in t ==> full[h].expiresAt < now)
  }

  lemma PrunedStep(c: Config, t: Table, full: Table, then': int, e: Event)
    requires PrunedOf(t, full, then') && then' <= e.now && (e.Issue? ==> e.hash !in full)
    ensures PrunedOf(Next(c, t, e).0, if e.Prune? then full else Next(c, full, e).0, e.now)
    ensures e.Request? ==> Next(c, t, e).1 == Next(c, full, e).1
  {}

  /** Only issued tokens have a session. */
  lemma {:induction false} OnlyIssued(c: Config, events: seq<Event>, h: string)
    requires h in TableAfter(c, WithoutPrunes(events))
    ensures exists i :: 0 <= i < |events| && events[i].Issue? && events[i].hash == h
  {
    if |events| == 0 {
    } else {
      var n := |events| - 1;
      WithoutPrunesSnoc(c, events);
      if h in TableAfter(c, WithoutPrunes(events[..n])) {
        OnlyIssued(c, events[..n], h);
        var i :| 0 <= i < n && events[..n][i].Issue? && events[..n][i].hash == h;
        assert events[i].Issue? && events[i].hash == h;
      } else {
        assert events[n].Issue? && events[n].hash == h;
      }
    }
  }

  lemma WithoutPrunesSnoc(c: Config, events: seq<Event>)
    requires |events| > 0
    ensures var n := |events| - 1;
            var full := TableAfter(c, WithoutPrunes(events[..n]));
            TableAfter(c, WithoutPrunes(events)) == if events[n].Prune? then full else Next(c, full, events[n]).0
  {
    var mine := WithoutPrunes(events[..|events|-1]);
    assert (mine + [events[|events|-1]])[..|mine|] == mine;
    assert mine + [] == mine;
  }

  /** Pruning never changes a later answer: every request is answered as if no prune had ever
      run. */
  lemma {:induction false} PruningInvisible(c: Config, events: seq<Event>)
    requires History(events) && |events| > 0
    ensures var n := |events| - 1;
            && PrunedOf(TableAfter(c, events), TableAfter(c, WithoutPrunes(events)), events[n].now)
            && (events[n].Request? ==>
                  Accepted(c, events, n) == Next(c, TableAfter(c, WithoutPrunes(events[..n])), events[n]).1)
  {
    var n := |events| - 1;
    var before := events[..n];
    var full := TableAfter(c, WithoutPrunes(before));
    if n > 0 { PruningInvisible(c, before); }
    if events[n].Issue? && events[n].hash in full { OnlyIssued(c, before, events[n].hash); }
    WithoutPrunesSnoc(c, events);
    hide PrunedOf, WithoutPrunes;
    if n == 0 { NothingPruned(c, before, events[n].now); }
    PrunedStep(c, TableAfter(c, before), full, if n == 0 then events[n].now else before[n-1].now, events[n]);
  }

  lemma NothingPruned(c: Config, none: seq<Event>, now: int)
    requires |none| == 0
    ensures PrunedOf(TableAfter(c, none), TableAfter(c, WithoutPrunes(none)), now)
  {}

  /** What a prune leaves: no session whose idle time has run out, and every other one as it
      was. A session it removes would have been turned away and deleted by any request. */
  lemma PruneIsExact(c: Config, t: Table, hash: string, userOk: bool, now: int)
    requires hash in t
    ensures hash in Pruned(t, now) <==> now <= t[hash].expiresAt
    ensures hash in Pruned(t, now) ==> Pruned(t, now)[hash] == t[hash]
    ensures hash !in Pruned(t, now) ==> Resolved(c, t, hash, userOk, now) == (t - {hash}, false)
  {}

  // ---- whose session it is, and how often it is written ----

  /** Every session belongs to the user it was issued to. */
  lemma {:induction false} SessionsKeepTheirUser(c: Config, events: seq<Event>, hash: string)
    requires hash in TableAfter(c, events)
    ensures exists i :: 0 <= i < |events| && events[i] == Issue(hash, TableAfter(c, events)[hash].user, TableAfter(c, events)[hash].createdAt)
  {
    if |events| > 0 {
      var n := |events| - 1;
      if hash in TableAfter(c, events[..n]) {
        SessionsKeepTheirUser(c, events[..n], hash);
        var r := TableAfter(c, events[..n])[hash];
        var i :| 0 <= i < n && events[..n][i] == Issue(hash, r.user, r.createdAt);
        assert events[i] == Issue(hash, r.user, r.createdAt);
      } else {
        assert events[n].Issue? && events[n].hash == hash;
        assert events[n] == Issue(hash, TableAfter(c, events)[hash].user, TableAfter(c, events)[hash].createdAt);
      }
    }
  }

  /** A request writes a session back only if it was last written more than five minutes before;
      then the session is seen now and its idle time starts anew. Requests write no other. */
  lemma TouchedRarely(c: Config, t: Table, hash: string, userOk: bool, now: int, other: string)
    requires other in t
    ensures var after := Resolved(c, t, hash, userOk, now).0;
            other in after && after[other] != t[other] ==>
              && other == hash && now - t[other].lastSeenAt > 5 * 60 * 1000
              && after[other] == t[other].(lastSeenAt := now, expiresAt := now + c.idle)
    ensures other != hash ==> other in Resolved(c, t, hash, userOk, now).0
  {}

  // ---- how long a session lives ----

  /** What happened to one token: when it was issued, when it was last accepted (or issued),
      and whether it was deleted on purpose. */
  datatype Track = Track(issued: bool, createdAt: int, lastAccepted: int, deleted: bool)

  ghost function TrackOf(c: Config, events: seq<Event>, hash: string): Track {
    if |events| == 0 then Track(false, 0, 0, false) else
      var n := |events| - 1;
      var before := TrackOf(c, events[..n], hash);
      match events[n]
      case Issue(h, _, now) => if h == hash then Track(true, now, now, false) else before
      case Request(h, _, now) => if h == hash && Accepted(c, events, n) then before.(lastAccepted := now) else before
      case Prune(_) => before
      case Delete(h, _) => if h == hash then before.(deleted := true) else before
  }

  /** What the table knows of a token, given what happened to it. */
  ghost predicate Tracked(c: Config, t: Table, k: Track, hash: string, now: int) {
    && (hash in t ==>
          var r := t[hash];
          && k.issued && !k.deleted && r.createdAt == k.createdAt && r.expiresAt == r.lastSeenAt + c.idle
          && r.lastSeenAt <= k.lastAccepted <= r.lastSeenAt + TOUCH_INTERVAL && k.lastAccepted <= now)
    && (hash !in t && k.issued && !k.deleted ==>
          now > k.lastAccepted + c.idle - TOUCH_INTERVAL || now > k.createdAt + c.max)
  }

  lemma TrackedStep(c: Config, t: Table, k: Track, hash: string, then': int, e: Event)
    requires Tracked(c, t, k, hash, then') && then' <= e.now
    requires e.Issue? && e.hash == hash ==> !k.issued
    ensures var (after, ok) := Next(c, t, e);
            var k' := match e
                      case Issue(h, _, now) => if h == hash then Track(true, now, now, false) else k
                      case Request(h, _, now) => if h == hash && ok then k.(lastAccepted := now) else k
                      case Prune(_) => k
                      case Delete(h, _) => if h == hash then k.(deleted := true) else k;
            Tracked(c, after, k', hash, e.now)
  {}

  lemma {:induction false} IssuedBefore(c: Config, events: seq<Event>, hash: string)
    ensures TrackOf(c, events, hash).issued <==> exists i :: 0 <= i < |events| && events[i].Issue? && events[i].hash == hash
  {
    if |events| == 0 {
    } else {
      var n := |events| - 1;
      IssuedBefore(c, events[..n], hash);
      assert forall i :: 0 <= i < n ==> events[..n][i] == events[i];
      hide Accepted;
      if exists i :: 0 <= i < |events| && events[i].Issue? && events[i].hash == hash {
        var i :| 0 <= i < |events| && events[i].Issue? && events[i].hash == hash;
        if i < n { assert events[..n][i].Issue?; }
      }
    }
  }

  lemma {:induction false} AlwaysTracked(c: Config, events: seq<Event>, hash: string)
    requires History(events) && |events| > 0
    ensures Tracked(c, TableAfter(c, events), TrackOf(c, events, hash), hash, events[|events|-1].now)
  {
    var n := |events| - 1;
    var before := events[..n];
    if n > 0 { AlwaysTracked(c, before, hash); }
    IssuedBefore(c, before, hash);
    assert forall i :: 0 <= i < n ==> before[i] == events[i];
    hide Tracked;
    if n == 0 { NothingTracked(c, before, hash, events[n].now); }
    TrackedStep(c, TableAfter(c, before), TrackOf(c, before, hash), hash, if n == 0 then events[n].now else before[n-1].now, events[n]);
  }

  lemma NothingTracked(c: Config, none: seq<Event>, hash: string, now: int)
    requires |none| == 0
    ensures Tracked(c, TableAfter(c, none), TrackOf(c, none, hash), hash, now)
  {}

  /** For every history, a request that is let in comes no later than the cap after the issue
      and no later than the idle time after the last one let in; and one that comes within
      the idle time less the touch interval, and inside the cap, is let in, unless the session
      was deleted or its user is gone. */
  lemma SessionLifetime(c: Config, events: seq<Event>)
    requires History(events) && |events| > 0 && events[|events|-1].Request?
    ensures var n := |events| - 1;
            var now, k := events[n].now, TrackOf(c, events[..n], events[n].hash);
            && (Accepted(c, events, n) ==>
                  && k.issued && !k.deleted && events[n].userOk
                  && now <= k.createdAt + c.max && now <= k.lastAccepted + c.idle)
            && ((&& k.issued && !k.deleted && events[n].userOk
                 && now <= k.createdAt + c.max && now <= k.lastAccepted + c.idle - 5 * 60 * 1000)
                ==> Accepted(c, events, n))
  {
    var n := |events| - 1;
    if n > 0 {
      AlwaysTracked(c, events[..n], events[n].hash);
    }
  }
}
