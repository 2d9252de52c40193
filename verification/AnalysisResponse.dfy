/** Normalising a model's analysis (internal/ai/response.go). */
module AnalysisResponse {
  import opened Common
  import opened Decimal

  // ---- strings.TrimSpace ----

  /** unicode.IsSpace */
  predicate IsSpace(c: char) {
    var n := c as int;
    || 0x09 <= n <= 0x0D || n == 0x20 || n == 0x85 || n == 0xA0 || n == 0x1680
    || 0x2000 <= n <= 0x200A || n == 0x2028 || n == 0x2029 || n == 0x202F || n == 0x205F || n == 0x3000
  }

  function Trim(s: string): string {
    if |s| > 0 && IsSpace(s[0]) then Trim(s[1..])
    else if |s| > 0 && IsSpace(s[|s|-1]) then Trim(s[..|s|-1])
    else s
  }

  predicate Trimmed(s: string) {
    |s| == 0 || (!IsSpace(s[0]) && !IsSpace(s[|s|-1]))
  }

  lemma {:induction false} TrimTrims(s: string)
    ensures Trimmed(Trim(s))
    decreases |s|
  {
    if |s| > 0 && IsSpace(s[0]) { TrimTrims(s[1..]); }
    else if |s| > 0 && IsSpace(s[|s|-1]) { TrimTrims(s[..|s|-1]); }
  }

  /** What is cut off is white space at both ends, and nothing else. */
  lemma {:induction false} TrimKeeps(s: string) returns (before: nat, after: nat)
    ensures before <= after <= |s| && Trim(s) == s[before..after]
    ensures forall i :: 0 <= i < before || after <= i < |s| ==> IsSpace(s[i])
    decreases |s|
  {
    hide IsSpace;
    if |s| > 0 && IsSpace(s[0]) {
      before, after := TrimKeeps(s[1..]);
      Inside(s, 1, |s|, before, after);
      assert forall i :: 0 <= i < |s| - 1 ==> s[1..][i] == s[i+1];
      before, after := before + 1, after + 1;
    } else if |s| > 0 && IsSpace(s[|s|-1]) {
      before, after := TrimKeeps(s[..|s|-1]);
      Inside(s, 0, |s| - 1, before, after);
      assert forall i :: 0 <= i < |s| - 1 ==> s[..|s|-1][i] == s[i];
    } else {
      before, after := 0, |s|;
      assert s[0..|s|] == s;
    }
  }

  lemma Inside(s: string, lo: nat, hi: nat, i: nat, j: nat)
    requires lo <= hi <= |s| && i <= j <= hi - lo
    ensures s[lo..hi][i..j] == s[lo+i..lo+j]
  {
    forall k | 0 <= k < j - i
      ensures s[lo..hi][i..j][k] == s[lo+i..lo+j][k]
    {}
  }

  /** So a text is trimmed to nothing exactly when it is blank. */
  lemma TrimBlankIff(s: string)
    ensures Trim(s) == "" <==> forall i :: 0 <= i < |s| ==> IsSpace(s[i])
  {
    TrimTrims(s);
    var before, after := TrimKeeps(s);
    hide Trim, IsSpace;
    if before < after { assert Trim(s)[0] == s[before]; }
  }

  predicate IsLayout(s: string) {
    forall i :: 0 <= i < |s| ==> s[i] == ' ' || s[i] == '\t' || s[i] == '\n' || s[i] == '\r'
  }

  /** A text that begins and ends with visible ASCII characters is what is left of it when
      spaces, tabs and line ends are put around it. */
  lemma {:induction false} TrimLayout(before: string, s: string, after: string)
    requires IsLayout(before) && IsLayout(after) && |s| > 0 && '!' <= s[0] <= '~' && '!' <= s[|s|-1] <= '~'
    ensures Trim(before + s + after) == s
    decreases |before| + |after|
  {
    var t := before + s + after;
    if |before| > 0 {
      assert t[0] == before[0] && t[1..] == before[1..] + s + after;
      TrimLayout(before[1..], s, after);
    } else if |after| > 0 {
      var n := |after| - 1;
      assert t[0] == s[0] && t[|t|-1] == after[n] && t[..|t|-1] == before + s + after[..n];
      TrimLayout(before, s, after[..n]);
    } else {
      assert t == s;
    }
  }

  // ---- the analysis ----

  datatype Action = Action(id: string, command: string, description: string, isSafe: bool)

  datatype Analysis = Analysis(status: string, summary: string, detailed: string, actions: seq<Action>)

  const STATUSES := {"Healthy", "Warning", "Critical"}

  type Seen = map<string, nat>

  predicate Taken(seen: Seen, id: string) {
    id in seen && seen[id] != 0
  }

  /** fmt.Sprintf("%s_%d", base, suffix) */
  function Candidate(base: string, suffix: nat): string {
    base + "_" + Itoa(suffix)
  }

  lemma CandidateInjective(base: string, j: nat, k: nat)
    ensures Candidate(base, j) == Candidate(base, k) ==> j == k
  {
    assert Candidate(base, j)[|base|+1..] == Itoa(j);
    assert Candidate(base, k)[|base|+1..] == Itoa(k);
    ItoaInjective(j, k);
  }

  /** The ids seen that the search from suffix k on can still run into. */
  ghost function Ahead(seen: Seen, base: string, k: nat): set<string> {
    set id | id in seen && exists j: nat :: k <= j && id == Candidate(base, j)
  }

  lemma AheadShrinks(seen: Seen, base: string, k: nat)
    requires Taken(seen, Candidate(base, k))
    ensures Ahead(seen, base, k + 1) < Ahead(seen, base, k)
  {
    var id := Candidate(base, k);
    assert id in Ahead(seen, base, k);
    forall j: nat | k + 1 <= j
      ensures Candidate(base, j) != id
    {
      CandidateInjective(base, j, k);
    }
    forall other | other in Ahead(seen, base, k + 1)
      ensures other in Ahead(seen, base, k)
    {
      var j: nat :| k + 1 <= j && other == Candidate(base, j);
      assert k <= j;
    }
  }

  /** The first suffix from k on whose candidate is free. The search ends because the
      candidates are all different and only finitely many ids are taken. */
  function FreeSuffix(seen: Seen, base: string, k: nat): (r: nat)
    ensures k <= r && !Taken(seen, Candidate(base, r))
    ensures forall j :: k <= j < r ==> Taken(seen, Candidate(base, j))
    decreases Ahead(seen, base, k)
  {
    if !Taken(seen, Candidate(base, k)) then k
    else
      AheadShrinks(seen, base, k);
      FreeSuffix(seen, base, k + 1)
  }

  function TrimAction(a: Action): Action {
    Action(Trim(a.id), Trim(a.command), Trim(a.description), a.isSafe)
  }

  predicate Kept(a: Action) {
    !(TrimAction(a).command == "" && TrimAction(a).description == "")
  }

  /** The id asked for: the trimmed one, or one made from the position in the list. */
  function BaseId(a: Action, index: nat): (id: string)
    ensures id != ""
  {
    if Trim(a.id) == "" then "action_" + Itoa(index + 1) else Trim(a.id)
  }

  function Count(seen: Seen, id: string): nat {
    if id in seen then seen[id] else 0
  }

  /** The id given when `base` has been asked for, and the bookkeeping after it. */
  function Assign(seen: Seen, base: string): (string, Seen) {
    var n := Count(seen, base) + 1;
    var counted := seen[base := n];
    var id := if n > 1 then Candidate(base, FreeSuffix(counted, base, n)) else base;
    (id, counted[id := 1])
  }

  /** The loop over the actions. */
  function NormalizeActions(actions: seq<Action>): (seq<Action>, Seen) {
    if |actions| == 0 then ([], map[]) else
      var n := |actions| - 1;
      var (before, seen) := NormalizeActions(actions[..n]);
      var a := actions[n];
      if !Kept(a) then (before, seen) else
        var (id, after) := Assign(seen, BaseId(a, n));
        (before + [TrimAction(a).(id := id)], after)
  }

  function Normalize(a: Analysis): Analysis {
    var summary := if Trim(a.summary) == "" then "AI Analysis Generated" else Trim(a.summary);
    Analysis(
      if a.status in STATUSES then a.status else "Warning",
      summary,
      if Trim(a.detailed) == "" then summary else Trim(a.detailed),
      NormalizeActions(a.actions).0)
  }

  /** The search for a free suffix, when `base` has been asked for before. */
  method PickId(seen: Seen, base: string) returns (id: string, after: Seen)
    ensures (id, after) == Assign(seen, base)
  {
    after := seen[base := Count(seen, base) + 1];
    id := base;
    if after[base] > 1 {
      var suffix := after[base];
      while Taken(after, Candidate(base, suffix))
        invariant FreeSuffix(after, base, suffix) == FreeSuffix(after, base, after[base])
        decreases Ahead(after, base, suffix)
      {
        AheadShrinks(after, base, suffix);
        suffix := suffix + 1;
      }
      id := Candidate(base, suffix);
    }
    after := after[id := 1];
  }

  lemma NormalizeStep(actions: seq<Action>, n: nat)
    requires n < |actions|
    ensures var (before, seen) := NormalizeActions(actions[..n]);
            var a := actions[n];
            NormalizeActions(actions[..n+1]) ==
            if !Kept(a) then (before, seen)
            else (before + [TrimAction(a).(id := Assign(seen, BaseId(a, n)).0)], Assign(seen, BaseId(a, n)).1)
  {
    assert actions[..n+1][..n] == actions[..n];
  }

  /** NormalizeAnalysisResponse after the JSON has been decoded. */
  method NormalizeAnalysis(a: Analysis) returns (r: Analysis)
    ensures r == Normalize(a)
  {
    var status := a.status;
    if status !in STATUSES { status := "Warning"; }
    var summary := Trim(a.summary);
    if summary == "" { summary := "AI Analysis Generated"; }
    var detailed := Trim(a.detailed);
    if detailed == "" { detailed := summary; }
    var actions := NormalizeList(a.actions);
    r := Analysis(status, summary, detailed, actions);
  }

  /** Its loop over the recommended actions. */
  method NormalizeList(list: seq<Action>) returns (actions: seq<Action>)
    ensures actions == NormalizeActions(list).0
  {
    var seen: Seen := map[];
    actions := [];
    for idx := 0 to |list|
      invariant (actions, seen) == NormalizeActions(list[..idx])
    {
      NormalizeStep(list, idx);
      hide NormalizeActions, Assign, Trim;
      var action := TrimAction(list[idx]);
      if action.command == "" && action.description == "" { continue; }
      if action.id == "" { action := action.(id := "action_" + Itoa(idx + 1)); }
      var id, after := PickId(seen, action.id);
      seen := after;
      actions := actions + [action.(id := id)];
    }
    assert list[..|list|] == list;
  }

  // ---- distinct ids ----

  ghost predicate DistinctIds(actions: seq<Action>) {
    forall i, j :: 0 <= i < j < |actions| ==> actions[i].id != actions[j].id
  }

  lemma AssignIsFresh(seen: Seen, base: string)
    requires base != ""
    ensures var (id, after) := Assign(seen, base);
            && !Taken(seen, id) && Taken(after, id) && id != ""
            && (forall other :: Taken(seen, other) ==> Taken(after, other))
            && (id == base || id == Candidate(base, FreeSuffix(seen[base := Count(seen, base) + 1], base, Count(seen, base) + 1)))
            && (!Taken(seen, base) ==> id == base)
  {
    var n := Count(seen, base) + 1;
    if n > 1 {
      var id := Candidate(base, FreeSuffix(seen[base := n], base, n));
      assert |id| > |base|;
    }
  }

  /** For every list of actions the emitted ids are pairwise distinct and not empty, and the
      ids taken are exactly the ids emitted. */
  lemma {:induction false} IdsDistinct(actions: seq<Action>)
    ensures var (out, seen) := NormalizeActions(actions);
            && DistinctIds(out)
            && (forall i :: 0 <= i < |out| ==> out[i].id != "")
            && (forall id :: Taken(seen, id) <==> exists i :: 0 <= i < |out| && out[i].id == id)
  {
    if |actions| == 0 {
    } else {
      var n := |actions| - 1;
      IdsDistinct(actions[..n]);
      if Kept(actions[n]) {
        var (before, seen) := NormalizeActions(actions[..n]);
        var (out, after) := NormalizeActions(actions);
        var base := BaseId(actions[n], n);
        AssignIsFresh(seen, base);
        OnlyTheNewId(seen, base);
        hide Assign, Taken, Candidate;
        forall id
          ensures Taken(after, id) <==> exists i :: 0 <= i < |out| && out[i].id == id
        {
          if Taken(seen, id) {
            var i :| 0 <= i < |before| && before[i].id == id;
            assert out[i].id == id;
          }
          if id == Assign(seen, base).0 { assert out[|before|].id == id; }
          if exists i :: 0 <= i < |out| && out[i].id == id {
            var i :| 0 <= i < |out| && out[i].id == id;
            if i < |before| { assert before[i].id == id; }
          }
        }
      }
    }
  }

  lemma OnlyTheNewId(seen: Seen, base: string)
    ensures var (id, after) := Assign(seen, base);
            forall other :: Taken(after, other) ==> Taken(seen, other) || other == id
  {}

  /** The last action of a list: it is dropped exactly when it says nothing; otherwise it is
      emitted trimmed, under its own id when no earlier action has that id, and else under the
      first free numbered variant of it. */
  lemma LastAction(actions: seq<Action>)
    requires |actions| > 0
    ensures var n := |actions| - 1;
            var before, out := NormalizeActions(actions[..n]).0, NormalizeActions(actions).0;
            var a, base := actions[n], BaseId(actions[n], n);
            && (if Trim(a.id) != "" then base == Trim(a.id) else base == "action_" + Itoa(n + 1))
            && if Trim(a.command) == "" && Trim(a.description) == "" then out == before
            else
              && |out| == |before| + 1 && out[..|before|] == before
              && out[|before|].command == Trim(a.command) && out[|before|].description == Trim(a.description)
              && out[|before|].isSafe == a.isSafe
              && (if forall i :: 0 <= i < |before| ==> before[i].id != base then out[|before|].id == base
                  else exists k: nat :: k >= 2 && out[|before|].id == Candidate(base, k))
  {
    var n := |actions| - 1;
    IdsDistinct(actions[..n]);
    var (before, seen) := NormalizeActions(actions[..n]);
    var base := BaseId(actions[n], n);
    assert Taken(seen, base) <==> exists i :: 0 <= i < |before| && before[i].id == base;
    if Kept(actions[n]) {
      var m := Count(seen, base) + 1;
      if m > 1 {
        var k := FreeSuffix(seen[base := m], base, m);
        assert k >= 2 && Assign(seen, base).0 == Candidate(base, k);
      }
    }
  }

  // ---- which number a variant gets ----

  /** How many actions that say something have asked for this id. */
  ghost function Requests(actions: seq<Action>, id: string): nat {
    if |actions| == 0 then 0 else
      var n := |actions| - 1;
      Requests(actions[..n], id) + if Kept(actions[n]) && BaseId(actions[n], n) == id then 1 else 0
  }

  /** The id was given to an action that had asked for another. */
  ghost predicate IsVariant(actions: seq<Action>, id: string) {
    |actions| > 0 &&
      var n := |actions| - 1;
      || IsVariant(actions[..n], id)
      || (Kept(actions[n]) && BaseId(actions[n], n) != id && Assign(NormalizeActions(actions[..n]).1, BaseId(actions[n], n)).0 == id)
  }

  /** How often an id has come up: asked for, or given as a variant. */
  lemma {:induction false} CountIs(actions: seq<Action>, id: string)
    ensures Count(NormalizeActions(actions).1, id) == Requests(actions, id) + if IsVariant(actions, id) then 1 else 0
  {
    if |actions| == 0 {
    } else {
      var n := |actions| - 1;
      CountIs(actions[..n], id);
      if Kept(actions[n]) { AssignCounts(NormalizeActions(actions[..n]).1, BaseId(actions[n], n), id); }
      hide Assign, Kept, BaseId, Count;
    }
  }

  lemma AssignCounts(seen: Seen, base: string, id: string)
    ensures var (given, after) := Assign(seen, base);
            && (id == base ==> Count(after, id) == Count(seen, id) + 1)
            && (id != base && id == given ==> Count(seen, id) == 0 && Count(after, id) == 1)
            && (id != base && id != given ==> Count(after, id) == Count(seen, id))
  {
    var n := Count(seen, base) + 1;
    if n > 1 { assert |Candidate(base, FreeSuffix(seen[base := n], base, n))| > |base|; }
  }

  /** The variants of base with numbers first <= j < k have all been given. */
  ghost predicate AllGiven(out: seq<Action>, base: string, first: nat, k: nat) {
    forall j: nat :: first <= j < k ==> exists i :: 0 <= i < |out| && out[i].id == Candidate(base, j)
  }

  /** The id is base itself if it comes up first now, and else its first free variant from that
      number on. */
  ghost predicate Numbered(before: seq<Action>, id: string, base: string, first: nat) {
    if first <= 1 then id == base
    else exists k: nat :: first <= k && id == Candidate(base, k) && AllGiven(before, base, first, k)
  }

  /** A variant is numbered by how often its id has come up, or by the first number after that
      whose variant is free. */
  lemma VariantNumber(actions: seq<Action>)
    requires |actions| > 0 && Kept(actions[|actions|-1])
    ensures var n := |actions| - 1;
            var before, out, base := NormalizeActions(actions[..n]).0, NormalizeActions(actions).0, BaseId(actions[n], n);
            var first := 1 + Requests(actions[..n], base) + if IsVariant(actions[..n], base) then 1 else 0;
            |out| == |before| + 1 && Numbered(before, out[|before|].id, base, first)
  {
    var n := |actions| - 1;
    var (before, seen) := NormalizeActions(actions[..n]);
    var base := BaseId(actions[n], n);
    CountIs(actions[..n], base);
    IdsDistinct(actions[..n]);
    hide IsVariant, Requests, Assign, Numbered;
    AssignNumbers(before, seen, base);
  }

  lemma AssignNumbers(before: seq<Action>, seen: Seen, base: string)
    requires forall id :: Taken(seen, id) <==> exists i :: 0 <= i < |before| && before[i].id == id
    ensures Numbered(before, Assign(seen, base).0, base, Count(seen, base) + 1)
  {
    var first := Count(seen, base) + 1;
    if first > 1 {
      var k := FreeSuffix(seen[base := first], base, first);
      forall j: nat | first <= j < k
        ensures exists i :: 0 <= i < |before| && before[i].id == Candidate(base, j)
      {
        assert |Candidate(base, j)| > |base|;
        assert Taken(seen, Candidate(base, j));
      }
    }
  }

  // ---- normalising twice ----

  ghost predicate Clean(a: Action) {
    Trimmed(a.id) && a.id != "" && Trimmed(a.command) && Trimmed(a.description) && (a.command != "" || a.description != "")
  }

  lemma CleanIsFixed(a: Action)
    requires Clean(a)
    ensures TrimAction(a) == a && Kept(a)
  {}

  lemma NumberedIsTrimmed(base: string, k: nat)
    requires |base| > 0 && !IsSpace(base[0])
    ensures Trimmed(Candidate(base, k)) && Trimmed(base + Itoa(k))
  {
    var digits := Itoa(k);
    assert IsDigit(digits[|digits|-1]);
    assert Candidate(base, k)[|Candidate(base, k)|-1] == digits[|digits|-1];
    assert (base + digits)[|base + digits|-1] == digits[|digits|-1];
  }

  lemma BaseIsTrimmed(a: Action, index: nat)
    ensures Trimmed(BaseId(a, index)) && !IsSpace(BaseId(a, index)[0])
  {
    TrimTrims(a.id);
    NumberedIsTrimmed("action_", index + 1);
    hide Trim;
    if Trim(a.id) == "" { assert BaseId(a, index)[0] == 'a'; }
  }

  lemma AssignedIsTrimmed(seen: Seen, base: string)
    requires base != "" && Trimmed(base)
    ensures Assign(seen, base).0 != "" && Trimmed(Assign(seen, base).0)
  {
    AssignIsFresh(seen, base);
    NumberedIsTrimmed(base, FreeSuffix(seen[base := Count(seen, base) + 1], base, Count(seen, base) + 1));
    hide Assign, Candidate;
  }

  lemma {:induction false} OutputClean(actions: seq<Action>)
    ensures forall i :: 0 <= i < |NormalizeActions(actions).0| ==> Clean(NormalizeActions(actions).0[i])
  {
    if |actions| == 0 {
    } else {
      var n := |actions| - 1;
      OutputClean(actions[..n]);
      var a := actions[n];
      TrimTrims(a.command);
      TrimTrims(a.description);
      BaseIsTrimmed(a, n);
      hide Trim, IsSpace, Candidate, Assign, BaseId, Trimmed;
      if Kept(a) { AssignedIsTrimmed(NormalizeActions(actions[..n]).1, BaseId(a, n)); }
    }
  }

  lemma {:induction false} CleanStays(actions: seq<Action>)
    requires DistinctIds(actions) && forall i :: 0 <= i < |actions| ==> Clean(actions[i])
    ensures NormalizeActions(actions).0 == actions
  {
    if |actions| == 0 {
    } else {
      var n := |actions| - 1;
      CleanStays(actions[..n]);
      IdsDistinct(actions[..n]);
      CleanIsFixed(actions[n]);
      var (before, seen) := NormalizeActions(actions[..n]);
      assert !Taken(seen, actions[n].id);
      AssignIsFresh(seen, actions[n].id);
      hide Assign, Taken, Candidate, TrimAction;
    }
  }

  /** Normalising a normalised analysis changes nothing. */
  lemma NormalizeTwice(a: Analysis)
    ensures Normalize(Normalize(a)) == Normalize(a)
  {
    IdsDistinct(a.actions);
    OutputClean(a.actions);
    CleanStays(NormalizeActions(a.actions).0);
    TrimTrims(a.summary);
    TrimTrims(a.detailed);
    TrimFixed("AI Analysis Generated");
    TrimFixed(Trim(a.summary));
    TrimFixed(Trim(a.detailed));
    hide NormalizeActions, Trim, Trimmed;
  }

  /** Every normalised analysis has a known status, and a summary and details that are
      trimmed and not empty; a known status and a text that is not blank are kept, and for the
      others the defaults stand in. */
  lemma NormalizedIsPresentable(a: Analysis)
    ensures var r := Normalize(a);
            && (if a.status == "Healthy" || a.status == "Critical" then r.status == a.status else r.status == "Warning")
            && Trimmed(r.summary) && r.summary != "" && Trimmed(r.detailed) && r.detailed != ""
            && r.summary == (if Trim(a.summary) != "" then Trim(a.summary) else "AI Analysis Generated")
            && (if Trim(a.detailed) != "" then r.detailed == Trim(a.detailed) else r.detailed == r.summary)
  {
    TrimTrims(a.summary);
    TrimTrims(a.detailed);
    hide NormalizeActions, Trim;
  }

  lemma TrimFixed(s: string)
    requires Trimmed(s)
    ensures Trim(s) == s
  {}

  /** The function on JSON text, for any decoder and encoder; None is the error result. */
  function NormalizeResponse(decode: string -> Option<Analysis>, encode: Analysis -> string, raw: string): Option<string> {
    match decode(raw)
    case None => None
    case Some(a) => Some(encode(Normalize(a)))
  }

  /** If what was encoded decodes to the same analysis, normalised text is a fixed point. */
  lemma NormalizedTextIsFixed(decode: string -> Option<Analysis>, encode: Analysis -> string, raw: string)
    requires forall a :: decode(encode(a)) == Some(a)
    ensures var once := NormalizeResponse(decode, encode, raw);
            && (once.None? <==> decode(raw).None?)
            && (once.Some? ==> NormalizeResponse(decode, encode, once.value) == once)
  {
    if decode(raw).Some? { NormalizeTwice(decode(raw).value); }
  }
}
