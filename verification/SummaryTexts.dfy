/** More of the process summary: what the name clean-up keeps, summaries of earlier versions that
    name the user, and texts that hold no figures at all. */
module SummaryTexts {
  import opened Common
  import opened Decimal
  import opened AnalysisResponse
  import opened ProcessSummary

  // ---- compactProcessName keeps the words ----

  /** strings.Fields: the longest stretches without white space. */
  function Words(s: string): (words: seq<string>)
    ensures |s| > 0 && !IsSpace(s[|s|-1]) ==> |words| > 0
  {
    if |s| == 0 then [] else
      var n := |s| - 1;
      var before := Words(s[..n]);
      if IsSpace(s[n]) then before
      else if n == 0 || IsSpace(s[n-1]) then before + [[s[n]]]
      else before[..|before|-1] + [before[|before|-1] + [s[n]]]
  }

  /** strings.Join(words, " ") */
  function Spaced(words: seq<string>): string {
    if |words| == 0 then ""
    else if |words| == 1 then words[0]
    else Spaced(words[..|words|-1]) + " " + words[|words|-1]
  }

  lemma SpacedMore(words: seq<string>, word: string)
    ensures Spaced(words + [word]) == if |words| == 0 then word else Spaced(words) + " " + word
  {
    assert (words + [word])[..|words|] == words;
  }

  lemma SpacedLonger(words: seq<string>, c: char)
    requires |words| > 0
    ensures Spaced(words[..|words|-1] + [words[|words|-1] + [c]]) == Spaced(words) + [c]
  {
    hide Spaced;
    var front, last := words[..|words|-1], words[|words|-1];
    SpacedMore(front, last + [c]);
    SpacedMore(front, last);
    LastOf(words);
    Regrouped(Spaced(front) + " ", last, [c]);
  }

  lemma LastOf(words: seq<string>)
    requires |words| > 0
    ensures words[..|words|-1] + [words[|words|-1]] == words
  {}

  lemma Regrouped(a: string, b: string, c: string)
    ensures a + (b + c) == a + b + c
  {}

  lemma {:induction false} WordsNonEmpty(s: string)
    ensures forall w :: w in Words(s) ==> w != ""
    ensures Spaced(Words(s)) == "" <==> |Words(s)| == 0
  {
    if |s| > 0 {
      var n := |s| - 1;
      WordsNonEmpty(s[..n]);
      assert forall w :: w in Words(s) ==> w in Words(s[..n]) || w != "";
    }
    if |Words(s)| == 1 { assert Words(s)[0] in Words(s); }
  }

  lemma NoText(s: string)
    requires s == ""
    ensures Words(s) == [] && Spaced([]) == "" && Collapse(s) == ""
  {}

  lemma WordsStep(s: string)
    requires |s| > 0
    ensures var n := |s| - 1;
            var before := Words(s[..n]);
            Words(s) ==
            if IsSpace(s[n]) then before
            else if n == 0 || IsSpace(s[n-1]) then before + [[s[n]]]
            else if |before| > 0 then before[..|before|-1] + [before[|before|-1] + [s[n]]] else Words(s)
    ensures |s| > 1 && !IsSpace(s[|s|-2]) ==> |Words(s[..|s|-1])| > 0
    ensures |s| == 1 ==> Words(s[..|s|-1]) == []
  {
    if |s| > 1 { assert s[..|s|-1][|s|-2] == s[|s|-2]; }
    hide IsSpace;
  }

  lemma CollapseStep(s: string)
    requires |s| > 0
    ensures var n := |s| - 1;
            var before := Collapse(s[..n]);
            Collapse(s) ==
            if IsSpace(s[n]) then before
            else if |before| > 0 && IsSpace(s[n-1]) then before + (" " + [s[n]])
            else before + [s[n]]
    ensures |s| == 1 ==> Collapse(s[..|s|-1]) == ""
    ensures |Collapse(s[..|s|-1])| > 0 ==> |s| > 1
  {
    hide IsSpace;
    if |s| > 1 { assert " " + [s[|s|-1]] == [' ', s[|s|-1]]; }
  }

  /** Runs of white space become one space, and none is left at the ends. */
  lemma {:induction false} CollapseIsSpaced(s: string)
    ensures Collapse(s) == Spaced(Words(s))
  {
    hide Spaced, IsSpace, Words, Collapse;
    if |s| == 0 {
      NoText(s);
    } else {
      var n := |s| - 1;
      var before := Words(s[..n]);
      CollapseIsSpaced(s[..n]);
      WordsNonEmpty(s[..n]);
      WordsStep(s);
      CollapseStep(s);
      if !IsSpace(s[n]) {
        if n == 0 || IsSpace(s[n-1]) {
          SpacedMore(before, [s[n]]);
          Regrouped(Spaced(before), " ", [s[n]]);
        } else {
          SpacedLonger(before, s[n]);
        }
      }
    }
  }

  /** A cleaned-up name is its words with single spaces between, commas turned into spaces; of
      more than 80 characters the first 77, and three dots. */
  lemma CompactKeepsWords(name: string)
    ensures var full, compact := Spaced(Words(name)), Compact(name);
            && (if |full| <= 80 then |compact| == |full| else |compact| == 80 && compact[77..] == "...")
            && forall i :: 0 <= i < |full| && (|full| <= 80 || i < 77) ==> compact[i] == if full[i] == ',' then ' ' else full[i]
  {
    CollapseIsSpaced(name);
    hide Collapse, Words, Spaced;
  }

  // ---- texts without figures ----

  /** The names with ", " between them. */
  function Listed(names: seq<string>): string {
    if |names| == 0 then "" else if |names| == 1 then names[0] else names[0] + ", " + Listed(names[1..])
  }

  predicate Plain(s: string) {
    forall i :: 0 <= i < |s| ==> s[i] != '('
  }

  lemma BracketAt(s: string)
    ensures At(s, 0, " (") ==> !Plain(s)
  {
    if At(s, 0, " (") { assert s[0..2][1] == '('; }
  }

  lemma {:induction false} PlainHasNoMatchHere(s: string, j: nat)
    requires Plain(s) && j <= |s|
    ensures MatchHere(s, j).None?
    decreases |s| - j
  {
    var t := s[j..];
    BracketAt(t);
    assert Plain(t);
    assert MatchTail(t).None?;
    hide MatchTail;
    if j < |s| { PlainHasNoMatchHere(s, j + 1); }
  }

  lemma {:induction false} PlainHasNoMatch(s: string)
    requires Plain(s)
    ensures Exec(s).None?
  {
    PlainHasNoMatchHere(s, 0);
    if |s| > 0 { PlainHasNoMatch(s[1..]); }
    hide MatchHere;
  }

  lemma {:induction false} ListedIsPlain(names: seq<string>)
    requires forall i :: 0 <= i < |names| ==> Plain(names[i])
    ensures Plain(Listed(names))
  {
    if |names| > 1 { ListedIsPlain(names[1..]); }
  }

  lemma SplitAt(name: string, rest: string)
    requires forall i :: 0 <= i < |name| ==> name[i] != ','
    ensures SplitEntries(name) == [name]
    ensures SplitEntries(name + ", " + rest) == [name] + SplitEntries(rest)
  {
    var s := name + ", " + rest;
    assert s[|name|..|name|+2] == ", " && s[..|name|] == name && s[|name|+2..] == rest;
    forall k | 0 <= k < |name|
      ensures !At(s, k, ", ") && !At(name, k, ", ")
    {
      SeparatorIsComma(s, k);
      SeparatorIsComma(name, k);
    }
    assert At(s, |name|, ", ");
    var k, m := FindSeparator(s, 0), FindSeparator(name, 0);
    assert name[..|name|] == name;
    hide FindSeparator, At;
  }

  lemma {:induction false} ListedSplits(names: seq<string>)
    requires |names| > 0 && forall i, j :: 0 <= i < |names| && 0 <= j < |names[i]| ==> names[i][j] != ','
    ensures SplitEntries(Listed(names)) == names
  {
    SplitAt(names[0], Listed(names[1..]));
    hide SplitEntries;
    if |names| > 1 {
      ListedSplits(names[1..]);
      assert names == [names[0]] + names[1..];
    }
  }

  /** A text without figures is taken for a list of names: every name between separators, with
      nothing known of it. */
  lemma NamesOnly(names: seq<string>)
    requires |names| > 0 && forall i :: 0 <= i < |names| ==> Plain(names[i])
    requires forall i, j :: 0 <= i < |names| && 0 <= j < |names[i]| ==> names[i][j] != ','
    requires Listed(names) != "" && Listed(names) != "None"
    ensures |Parse(Listed(names))| == |names|
    ensures forall i :: 0 <= i < |names| ==> Parse(Listed(names))[i] == Parsed(0, names[i], "?", Some(0.0), 0)
  {
    ListedIsPlain(names);
    PlainHasNoMatch(Listed(names));
    ListedSplits(names);
    hide Listed, Exec, SplitEntries;
  }

  lemma NothingListed()
    ensures Parse("") == [] && Parse("None") == [] && Format([]) == "None"
  {}

  // ---- summaries that name the user ----

  /** " (12.5%, 512MB, root)" */
  function OldFigures(p: Process, user: string): string {
    " (" + OneDecimal(p.cpuTenths) + "%, " + Itoa(p.memory) + "MB, " + user + ")"
  }

  predicate IsUser(user: string) {
    |user| > 0 && forall i :: 0 <= i < |user| ==> user[i] != ')'
  }

  lemma TailWithUser(s: string, c: nat, m: nat, u: nat, end: nat)
    requires At(s, 0, " (") && 2 < c && RunEnd(s, 2, IsCpuChar) == c && At(s, c, "%, ")
    requires c + 3 < m && RunEnd(s, c + 3, IsDigit) == m && At(s, m, "MB") && At(s, m + 2, ", ")
    requires m + 4 < u <= |s| && RunEnd(s, m + 4, IsUserChar) == u && At(s, u, ")") && Ending(s, u + 1) == Some(end)
    ensures MatchTail(s) == Some(Tail(s[2..c], s[c+3..m], Some(s[m+4..u]), end))
  {
    hide RunEnd;
  }

  lemma OldPositions(cpu: string, memory: string, user: string, rest: string)
    ensures var s := " (" + cpu + "%, " + memory + "MB, " + user + ")" + rest;
            var c, m := 2 + |cpu|, 5 + |cpu| + |memory|;
            var u := m + 4 + |user|;
            && u + 1 <= |s| && |s| == u + 1 + |rest| && s[u+1..] == rest
            && At(s, 0, " (") && s[2..c] == cpu && At(s, c, "%, ") && s[c+3..m] == memory && At(s, m, "MB")
            && At(s, m + 2, ", ") && s[m+4..u] == user && At(s, u, ")") && s[c] == '%' && s[m] == 'M' && s[u] == ')'
  {
    var s := " (" + cpu + "%, " + memory + "MB, " + user + ")" + rest;
    var c, m := 2 + |cpu|, 5 + |cpu| + |memory|;
    var u := m + 4 + |user|;
    assert s[0..2] == " (" && s[2..c] == cpu && s[c..c+3] == "%, " && s[c+3..m] == memory;
    assert s[m..m+2] == "MB" && s[m+2..m+4] == ", " && s[m+4..u] == user && s[u..u+1] == ")";
    assert s[c] == '%' && s[m] == 'M' && s[u] == ')';
  }

  lemma OldTexts(cpu: string, memory: string, user: string, rest: string)
    requires Follows(rest) && |cpu| > 0 && (forall i :: 0 <= i < |cpu| ==> IsCpuChar(cpu[i]))
    requires |memory| > 0 && AllDigits(memory) && IsUser(user)
    ensures var s := " (" + cpu + "%, " + memory + "MB, " + user + ")" + rest;
            MatchTail(s) == Some(Tail(cpu, memory, Some(user), |s| - |rest| + if rest == "" then 0 else 2))
  {
    hide MatchTail, RunEnd;
    var s := " (" + cpu + "%, " + memory + "MB, " + user + ")" + rest;
    var c, m := 2 + |cpu|, 5 + |cpu| + |memory|;
    var u := m + 4 + |user|;
    OldPositions(cpu, memory, user, rest);
    assert forall j :: 2 <= j < c ==> s[j] == cpu[j-2];
    assert forall j :: c + 3 <= j < m ==> s[j] == memory[j-c-3];
    assert forall j :: m + 4 <= j < u ==> s[j] == user[j-m-4];
    RunIs(s, 2, c, IsCpuChar);
    RunIs(s, c + 3, m, IsDigit);
    RunIs(s, m + 4, u, IsUserChar);
    EndingIs(s, u + 1, rest);
    TailWithUser(s, c, m, u, if rest == "" then u + 1 else u + 3);
  }

  lemma OldMatch(p: Process, user: string, rest: string)
    requires Follows(rest) && IsUser(user)
    ensures MatchTail(OldFigures(p, user) + rest)
            == Some(Tail(OneDecimal(p.cpuTenths), Itoa(p.memory), Some(user), |OldFigures(p, user)| + if rest == "" then 0 else 2))
  {
    OneDecimalChars(p.cpuTenths);
    hide MatchTail, OneDecimal, Itoa;
    OldTexts(OneDecimal(p.cpuTenths), Itoa(p.memory), user, rest);
  }

  /** A printable name before something that matches after it. */
  lemma {:induction false} NamedMatch(name: string, after: string, t: Tail, j: nat)
    requires Printable(name) && |name| > 0 && j <= |name| && |after| > 0 && after[0] == ' ' && MatchTail(after) == Some(t)
    ensures MatchHere(name + after, j) == Some(Match(name, t, |name| + t.consumed))
    decreases |name| - j
  {
    hide MatchTail, MatchHere;
    var s := name + after;
    MatchHereStep(s, j);
    assert s[j..] == name[j..] + after;
    if j == |name| {
      assert s[j..] == after && s[..j] == name;
    } else {
      if j > 0 { NoMatchBefore(name, j, after); }
      assert s[j] == name[j];
      NamedMatch(name, after, t, j + 1);
    }
  }

  lemma NamedParses(name: string, after: string, t: Tail, index: nat)
    requires Printable(name) && |name| > 0 && |after| > 0 && after[0] == ' ' && MatchTail(after) == Some(t)
    ensures t.consumed <= |after| && AllDigits(t.memory)
    ensures ParseFrom(name + after, index) == [FromMatch(Match(name, t, |name| + t.consumed), index)] + ParseFrom(after[t.consumed..], index + 1)
  {
    hide MatchHere, FromMatch, MatchTail, Printable;
    NamedMatch(name, after, t, 0);
    var s := name + after;
    assert Exec(s) == Some(Match(name, t, |name| + t.consumed));
    hide Exec;
    assert s[|name|+t.consumed..] == after[t.consumed..];
  }

  /** An entry of an earlier version, which names the user, is read with the user, and the rest
      of the summary after it. */
  lemma OldEntryParses(p: Process, user: string, rest: string, index: nat)
    requires Printable(p.name) && |p.name| > 0 && Follows(rest) && IsUser(user)
    ensures ParseFrom(p.name + (OldFigures(p, user) + rest), index)
            == [Parsed(1000 + index, p.name, user, Some(p.cpuTenths as real / 10.0), p.memory)]
               + ParseFrom(if rest == "" then "" else rest[2..], index + 1)
  {
    var after := OldFigures(p, user) + rest;
    assert |after| > 0 && after[0] == ' ';
    OldMatch(p, user, rest);
    FiguresParse(p);
    hide MatchTail, OldFigures, OneDecimal, Itoa, ParseFloat, Value, Printable, ParseFrom;
    var t := MatchTail(after).value;
    NamedParses(p.name, after, t, index);
    assert after[t.consumed..] == if rest == "" then "" else rest[2..];
    OldParsed(p, user, t, index);
  }

  lemma OldParsed(p: Process, user: string, t: Tail, index: nat)
    requires t.cpu == OneDecimal(p.cpuTenths) && t.memory == Itoa(p.memory) && t.user == Some(user)
    ensures FromMatch(Match(p.name, t, |p.name| + t.consumed), index)
            == Parsed(1000 + index, p.name, user, Some(p.cpuTenths as real / 10.0), p.memory)
  {
    FiguresParse(p);
    hide OneDecimal, Itoa, ParseFloat, Value;
  }
}
