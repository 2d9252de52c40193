/** Raw rows as a selection of the samples ever saved, named by their position. */
module Selection {
  import opened Common
  import opened Retention

  /** The samples at the given positions, in the order of saving. */
  ghost function Select(s: seq<Sample>, at: set<nat>): seq<Sample> {
    if |s| == 0 then [] else
      Select(s[..|s|-1], at) + if |s| - 1 in at then [s[|s|-1]] else []
  }

  ghost predicate Positions(s: seq<Sample>, at: set<nat>) {
    forall i: nat :: i in at ==> i < |s|
  }

  lemma {:induction false} SelectSame(s: seq<Sample>, a: set<nat>, b: set<nat>)
    requires forall i: nat :: i < |s| ==> (i in a <==> i in b)
    ensures Select(s, a) == Select(s, b)
  {
    if |s| == 0 {
    } else {
      SelectSame(s[..|s|-1], a, b);
    }
  }

  lemma SelectSave(s: seq<Sample>, at: set<nat>, x: Sample)
    ensures Select(s + [x], at + {|s|}) == Select(s, at) + [x]
  {
    assert (s + [x])[..|s|] == s;
    SelectSame(s, at + {|s|}, at);
  }

  /** The positions that DELETE ... WHERE timestamp < cutoff leaves. */
  ghost function KeptAt(s: seq<Sample>, at: set<nat>, cutoff: int): set<nat> {
    set i | i in at && !(i < |s| && Older(s[i], cutoff))
  }

  lemma {:induction false} SelectKept(s: seq<Sample>, at: set<nat>, cutoff: int)
    ensures Kept(Select(s, at), cutoff) == Select(s, KeptAt(s, at, cutoff))
  {
    if |s| == 0 {
    } else {
      var p, n := s[..|s|-1], |s| - 1;
      SelectKept(p, at, cutoff);
      SelectSame(p, KeptAt(p, at, cutoff), KeptAt(s, at, cutoff));
      if n in at {
        assert Select(s, at)[..|Select(s, at)|-1] == Select(p, at);
      } else {
        assert Select(s, at) == Select(p, at);
      }
    }
  }

  ghost function WithinAt(s: seq<Sample>, at: set<nat>, lo: int, hi: int, host: string): set<nat> {
    set i | i in at && i < |s| && Within(s[i], lo, hi, host)
  }

  lemma WithinAtSnoc(s: seq<Sample>, at: set<nat>, lo: int, hi: int, host: string)
    requires |s| > 0
    ensures var n, before := |s| - 1, WithinAt(s[..|s|-1], at, lo, hi, host);
            && n !in before
            && WithinAt(s, at, lo, hi, host) == if n in at && Within(s[n], lo, hi, host) then before + {n} else before
  {
    hide Within;
    var n, before := |s| - 1, WithinAt(s[..|s|-1], at, lo, hi, host);
    assert forall i: nat :: i < n ==> s[..n][i] == s[i];
    assert forall i: nat :: i in WithinAt(s, at, lo, hi, host) <==> i in before || (i == n && n in at && Within(s[n], lo, hi, host));
  }

  lemma SelectSnoc(s: seq<Sample>, at: set<nat>)
    requires |s| > 0
    ensures Select(s, at) == Select(s[..|s|-1], at) + if |s| - 1 in at then [s[|s|-1]] else []
  {}

  lemma SpanSnoc(s: seq<Sample>, x: Sample, lo: int, hi: int, host: string)
    ensures InSpan(s + [x], lo, hi, host) == InSpan(s, lo, hi, host) + if Within(x, lo, hi, host) then [x] else []
  {
    assert (s + [x])[..|s|] == s;
  }

  lemma {:induction false} SelectSpan(s: seq<Sample>, at: set<nat>, lo: int, hi: int, host: string)
    ensures |InSpan(Select(s, at), lo, hi, host)| == |WithinAt(s, at, lo, hi, host)|
  {
    if |s| == 0 {
      assert WithinAt(s, at, lo, hi, host) == {};
    } else {
      var p, n := s[..|s|-1], |s| - 1;
      SelectSpan(p, at, lo, hi, host);
      SelectSnoc(s, at);
      WithinAtSnoc(s, at, lo, hi, host);
      SpanSnoc(Select(p, at), s[n], lo, hi, host);
      hide Select, InSpan, Within, WithinAt;
      if n !in at { assert Select(p, at) + [] == Select(p, at); }
    }
  }

  lemma {:induction false} SelectSize(s: seq<Sample>, at: set<nat>)
    requires Positions(s, at)
    ensures |Select(s, at)| == |at|
  {
    if |s| == 0 {
      assert at == {};
    } else {
      var p, n := s[..|s|-1], |s| - 1;
      SelectSize(p, at - {n});
      SelectSame(p, at - {n}, at);
      if n !in at { assert at - {n} == at; }
    }
  }

  /** The bucket a sample falls in; one without a timestamp falls in none, and is given a
      name that does not matter. */
  function Cell(r: Resolution, x: Sample): Key {
    if x.timestamp.Some? then KeyOf(r, x) else Key(r, 0, x.host)
  }

  /** The five-minute bucket of a minute. */
  function FiveOf(k: Key): Key {
    Key(FiveMinute, k.bucket / 5, k.host)
  }

  lemma FiveOfMinute(x: Sample)
    ensures FiveOf(Cell(Minute, x)) == Cell(FiveMinute, x)
  {}

  /** The positions a minute fold puts in bucket k. */
  ghost function GroupAt(s: seq<Sample>, at: set<nat>, cutoff: int, k: Key): set<nat> {
    set i | i in at && i < |s| && Older(s[i], cutoff) && Cell(Minute, s[i]) == k
  }

  /** The fold of the selected rows, by position: which buckets it writes and how many
      samples each counts. */
  lemma SelectGroup(s: seq<Sample>, at: set<nat>, cutoff: int, k: Key)
    requires k.resolution.Minute?
    ensures |MinuteGroup(Select(s, at), cutoff, k)| == |GroupAt(s, at, cutoff, k)|
    ensures k in MinuteKeys(Select(s, at), cutoff) <==> GroupAt(s, at, cutoff, k) != {}
  {
    var lo, hi := Start(k), Min(Start(k) + 60_000, cutoff);
    SelectSpan(s, at, lo, hi, k.host);
    MinuteKeysNonEmpty(Select(s, at), cutoff, k);
    hide MinuteKeys, Select;
    forall i: nat | i in at && i < |s|
      ensures Within(s[i], lo, hi, k.host) <==> Older(s[i], cutoff) && Cell(Minute, s[i]) == k
    {}
    assert WithinAt(s, at, lo, hi, k.host) == GroupAt(s, at, cutoff, k);
  }
}
