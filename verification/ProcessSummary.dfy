/** The process summary string: its printer (internal/models/metrics.go), its parser in the
    dashboard (web/services/api.ts), and the name clean-up that the two rest on
    (internal/collector/collector.go). */
module ProcessSummary {
  import opened Common
  import opened Decimal
  import AnalysisResponse

  /** The printed fields of a process; CPU is in tenths of a percent, as %.1f shows it. */
  datatype Process = Process(name: string, cpuTenths: nat, memory: nat)

  // ---- the printer ----

  /** %.1f */
  function OneDecimal(tenths: nat): string {
    Itoa(tenths / 10) + "." + [DigitChar(tenths % 10)]
  }

  /** "%s (%.1f%%, %dMB)" without the name. */
  function Figures(p: Process): string {
    " (" + OneDecimal(p.cpuTenths) + "%, " + Itoa(p.memory) + "MB)"
  }

  /** strings.Join(parts, ", ") */
  function JoinEntries(ps: seq<Process>): string {
    if |ps| == 0 then ""
    else if |ps| == 1 then ps[0].name + Figures(ps[0])
    else ps[0].name + Figures(ps[0]) + ", " + JoinEntries(ps[1..])
  }

  function Format(ps: seq<Process>): string {
    if |ps| == 0 then "None" else JoinEntries(ps)
  }

  lemma JoinCons(ps: seq<Process>)
    requires |ps| > 1
    ensures JoinEntries(ps) == (ps[0].name + Figures(ps[0])) + (", " + JoinEntries(ps[1..]))
  {
    hide Figures;
  }

  lemma {:induction false} JoinSnoc(ps: seq<Process>)
    requires |ps| > 1
    ensures var n := |ps| - 1;
            JoinEntries(ps) == JoinEntries(ps[..n]) + ", " + (ps[n].name + Figures(ps[n]))
  {
    hide Figures;
    var n := |ps| - 1;
    JoinCons(ps);
    if n == 1 {
      assert ps[1..] == [ps[1]];
    } else {
      JoinSnoc(ps[1..]);
      JoinCons(ps[..n]);
      hide JoinEntries;
      assert ps[1..][..n-1] == ps[..n][1..];
      Regroup(ps[0].name + Figures(ps[0]), JoinEntries(ps[..n][1..]), ps[n].name + Figures(ps[n]));
    }
  }

  lemma Regroup(first: string, middle: string, last: string)
    ensures first + (", " + (middle + ", " + last)) == first + (", " + middle) + ", " + last
  {}

  method FormatTopProcesses(ps: seq<Process>) returns (s: string)
    ensures s == Format(ps)
  {
    if |ps| == 0 { return "None"; }
    s := "";
    for i := 0 to |ps|
      invariant s == JoinEntries(ps[..i])
    {
      if i > 0 {
        JoinSnoc(ps[..i+1]);
        assert ps[..i+1][..i] == ps[..i];
        s := s + ", ";
      }
      s := s + (ps[i].name + Figures(ps[i]));
    }
    assert ps[..|ps|] == ps;
  }

  // ---- the parser's regular expression:
  //      (.+?) \(([\d.]+)%, (\d+)MB(?:, ([^)]+))?\)(?:, |$)

  /** What "." does not match. */
  predicate IsLineEnd(c: char) {
    c == '\n' || c == '\r' || c as int == 0x2028 || c as int == 0x2029
  }

  predicate IsCpuChar(c: char) {
    IsDigit(c) || c == '.'
  }

  predicate IsUserChar(c: char) {
    c != ')'
  }

  /** The end of the longest run of matching characters from i on. */
  function RunEnd(s: string, i: nat, matches: char -> bool): (e: nat)
    requires i <= |s|
    ensures i <= e <= |s|
    ensures forall j :: i <= j < e ==> matches(s[j])
    ensures e < |s| ==> !matches(s[e])
    decreases |s| - i
  {
    if i < |s| && matches(s[i]) then RunEnd(s, i + 1, matches) else i
  }

  predicate At(s: string, i: nat, text: string) {
    i + |text| <= |s| && s[i..i+|text|] == text
  }

  /** What the part after the name matched: the captured texts and the length consumed. */
  datatype Tail = Tail(cpu: string, memory: string, user: Option<string>, consumed: nat)

  /** (?:, |$) at e. */
  function Ending(s: string, e: nat): Option<nat> {
    if At(s, e, ", ") then Some(e + 2) else if e == |s| then Some(e) else None
  }

  /** Everything after the name group, at the start of s. The runs are greedy; giving back
      characters cannot help, because what follows a run is outside its class. */
  function MatchTail(s: string): (t: Option<Tail>)
    ensures t.Some? ==> 0 < t.value.consumed <= |s| && AllDigits(t.value.memory)
  {
    if !At(s, 0, " (") then None else
      var c := RunEnd(s, 2, IsCpuChar);
      if c == 2 || !At(s, c, "%, ") then None else
        var m := RunEnd(s, c + 3, IsDigit);
        if m == c + 3 || !At(s, m, "MB") then None else
          var (user, e) :=
            if At(s, m + 2, ", ") then
              var u := RunEnd(s, m + 4, IsUserChar);
              (if u > m + 4 then Some(s[m+4..u]) else None, u)
            else (None, m + 2);
          if (At(s, m + 2, ", ") && user.None?) || !At(s, e, ")") then None else
            match Ending(s, e + 1)
            case None => None
            case Some(end) => Some(Tail(s[2..c], s[c+3..m], user, end))
  }

  datatype Match = Match(name: string, tail: Tail, end: nat)

  /** The whole expression at the start of s, with a name of at least j characters; lazily,
      the shortest name that works. */
  function MatchHere(s: string, j: nat): (m: Option<Match>)
    requires j <= |s|
    ensures m.Some? ==> 0 < |m.value.name| && j <= |m.value.name| <= |s| && AllDigits(m.value.tail.memory) && m.value.name == s[..|m.value.name|] && |m.value.name| < m.value.end <= |s|
    decreases |s| - j
  {
    if j > 0 && MatchTail(s[j..]).Some? then
      var t := MatchTail(s[j..]).value;
      Some(Match(s[..j], t, j + t.consumed))
    else if j < |s| && !IsLineEnd(s[j]) then MatchHere(s, j + 1)
    else None
  }

  /** exec: the leftmost match. `end` counts from the start of s. */
  function Exec(s: string): (m: Option<Match>)
    ensures m.Some? ==> |m.value.name| > 0 && 0 < m.value.end <= |s| && AllDigits(m.value.tail.memory)
  {
    if MatchHere(s, 0).Some? then MatchHere(s, 0)
    else if |s| == 0 then None
    else
      match Exec(s[1..])
      case None => None
      case Some(m) => Some(m.(end := m.end + 1))
  }

  // ---- the parser ----

  datatype Parsed = Parsed(pid: nat, name: string, user: string, cpu: Option<real>, memory: nat)

  /** parseFloat: the leading digits, one dot and more digits; None is NaN. */
  function ParseFloat(t: string): Option<real> {
    var i := RunEnd(t, 0, IsDigit);
    var f := if i < |t| && t[i] == '.' then RunEnd(t, i + 1, IsDigit) else i;
    if i == 0 && f <= i + 1 then None
    else Some(Value(t[..i]) as real + (if f > i then Fraction(t[i+1..f]) else 0.0))
  }

  /** 0.d1d2... */
  function Fraction(digits: string): real
    requires AllDigits(digits)
  {
    if |digits| == 0 then 0.0
    else (DigitValue(digits[0]) as real + Fraction(digits[1..])) / 10.0
  }

  function FromMatch(m: Match, index: nat): Parsed
    requires AllDigits(m.tail.memory)
  {
    Parsed(1000 + index, m.name, if m.tail.user.Some? then m.tail.user.value else "?",
           ParseFloat(m.tail.cpu), Value(m.tail.memory))
  }

  /** The while loop over exec, from the part of the string not yet consumed. */
  function ParseFrom(s: string, index: nat): seq<Parsed>
    decreases |s|
  {
    match Exec(s)
    case None => []
    case Some(m) => [FromMatch(m, index)] + ParseFrom(s[m.end..], index + 1)
  }

  /** split(", ") */
  function SplitEntries(s: string): seq<string>
    decreases |s|
  {
    var i := FindSeparator(s, 0);
    if i == |s| then [s] else [s[..i]] + SplitEntries(s[i+2..])
  }

  function FindSeparator(s: string, i: nat): (k: nat)
    requires i <= |s|
    ensures i <= k <= |s|
    ensures k < |s| ==> At(s, k, ", ")
    ensures forall j :: i <= j < k ==> !At(s, j, ", ")
    decreases |s| - i
  {
    if i == |s| || At(s, i, ", ") then i else FindSeparator(s, i + 1)
  }

  function NameOnly(name: string): Parsed {
    Parsed(0, name, "?", Some(0.0), 0)
  }

  function Parse(s: string): seq<Parsed> {
    if s == "" || s == "None" then [] else
      var ps := ParseFrom(s, 0);
      if |ps| > 0 then ps
      else
        var names := SplitEntries(s);
        seq(|names|, i requires 0 <= i < |names| => NameOnly(names[i]))
  }

  lemma ParseFromStep(s: string, index: nat, done: seq<Parsed>)
    ensures done + ParseFrom(s, index) ==
            match Exec(s)
            case None => done
            case Some(m) => done + [FromMatch(m, index)] + ParseFrom(s[m.end..], index + 1)
  {
    hide Exec, FromMatch;
  }

  method ParseMatches(s: string) returns (ps: seq<Parsed>)
    ensures ps == ParseFrom(s, 0)
  {
    hide ParseFrom, FromMatch, Exec;
    ps := [];
    var rest, more := s, true;
    while more
      invariant (if more then ps + ParseFrom(rest, |ps|) else ps) == ParseFrom(s, 0)
      decreases more, |rest|
    {
      ParseFromStep(rest, |ps|, ps);
      match Exec(rest) {
        case None => more := false;
        case Some(m) =>
          ps := ps + [FromMatch(m, |ps|)];
          rest := rest[m.end..];
      }
    }
  }

  method ParseProcesses(s: string) returns (ps: seq<Parsed>)
    ensures ps == Parse(s)
  {
    if s == "" || s == "None" { return []; }
    ps := ParseMatches(s);
    if |ps| > 0 { return; }
    hide ParseFrom, SplitEntries;
    var names := SplitEntries(s);
    ps := seq(|names|, i requires 0 <= i < |names| => NameOnly(names[i]));
  }

  // ---- the round trip ----

  /** A name the summary can carry: no comma, nothing that "." does not match. */
  predicate Printable(name: string) {
    forall i :: 0 <= i < |name| ==> name[i] != ',' && !IsLineEnd(name[i])
  }

  lemma RunIs(s: string, i: nat, e: nat, matches: char -> bool)
    requires i <= e <= |s| && (forall j :: i <= j < e ==> matches(s[j])) && (e < |s| ==> !matches(s[e]))
    ensures RunEnd(s, i, matches) == e
  {
    var k := RunEnd(s, i, matches);
    hide RunEnd;
    assert k <= e && e <= k;
  }

  lemma OneDecimalChars(tenths: nat)
    ensures |OneDecimal(tenths)| > 0 && forall i :: 0 <= i < |OneDecimal(tenths)| ==> IsCpuChar(OneDecimal(tenths)[i])
  {}

  /** What follows an entry: nothing, or the separator and more. */
  predicate Follows(rest: string) {
    rest == "" || At(rest, 0, ", ")
  }

  /** The figures of an entry match the expression after its name group. */
  lemma FiguresMatch(p: Process, rest: string)
    requires Follows(rest)
    ensures MatchTail(Figures(p) + rest)
            == Some(Tail(OneDecimal(p.cpuTenths), Itoa(p.memory), None, |Figures(p)| + if rest == "" then 0 else 2))
  {
    var cpu, memory := OneDecimal(p.cpuTenths), Itoa(p.memory);
    OneDecimalChars(p.cpuTenths);
    FiguresMatchTexts(cpu, memory, rest);
    hide MatchTail, OneDecimal, Itoa;
  }

  lemma MatchTailIs(s: string, c: nat, m: nat, end: nat)
    requires At(s, 0, " (") && 2 < c && RunEnd(s, 2, IsCpuChar) == c && At(s, c, "%, ")
    requires c + 3 < m && RunEnd(s, c + 3, IsDigit) == m && At(s, m, "MB")
    requires !At(s, m + 2, ", ") && At(s, m + 2, ")") && Ending(s, m + 3) == Some(end)
    ensures MatchTail(s) == Some(Tail(s[2..c], s[c+3..m], None, end))
  {
    hide RunEnd;
  }

  lemma FiguresMatchTexts(cpu: string, memory: string, rest: string)
    requires Follows(rest) && |cpu| > 0 && (forall i :: 0 <= i < |cpu| ==> IsCpuChar(cpu[i]))
    requires |memory| > 0 && AllDigits(memory)
    ensures var s := " (" + cpu + "%, " + memory + "MB)" + rest;
            MatchTail(s) == Some(Tail(cpu, memory, None, |s| - |rest| + if rest == "" then 0 else 2))
  {
    hide MatchTail, RunEnd, IsCpuChar, IsDigit;
    var s := " (" + cpu + "%, " + memory + "MB)" + rest;
    var c, m := 2 + |cpu|, 2 + |cpu| + 3 + |memory|;
    FigurePositions(cpu, memory, rest);
    FigureChars(cpu, memory, rest);
    RunIs(s, 2, c, IsCpuChar);
    RunIs(s, c + 3, m, IsDigit);
    EndingIs(s, m + 3, rest);
    MatchTailIs(s, c, m, if rest == "" then m + 3 else m + 5);
  }

  lemma EndingIs(s: string, e: nat, rest: string)
    requires e <= |s| && s[e..] == rest && Follows(rest)
    ensures Ending(s, e) == Some(if rest == "" then e else e + 2)
  {
    if rest == "" {
    } else {
      assert s[e..e+2] == rest[0..2];
    }
  }

  /** Where the parts of an entry's figures are. */
  lemma FigurePositions(cpu: string, memory: string, rest: string)
    ensures var s := " (" + cpu + "%, " + memory + "MB)" + rest;
            var c, m := 2 + |cpu|, 2 + |cpu| + 3 + |memory|;
            && m + 3 <= |s| && |s| == m + 3 + |rest| && s[m+3..] == rest
            && At(s, 0, " (") && s[2..c] == cpu && At(s, c, "%, ") && s[c+3..m] == memory && At(s, m, "MB")
            && At(s, m + 2, ")") && !At(s, m + 2, ", ") && s[c] == '%' && s[m] == 'M'
  {
    var s := " (" + cpu + "%, " + memory + "MB)" + rest;
    var c, m := 2 + |cpu|, 2 + |cpu| + 3 + |memory|;
    assert s[0..2] == " (" && s[2..c] == cpu && s[c..c+3] == "%, " && s[c+3..m] == memory;
    assert s[m..m+2] == "MB" && s[m+2..m+3] == ")";
    assert s[m+2] == ')' && s[c] == '%' && s[m] == 'M';
    AtFirst(s, m + 2, ", ");
  }

  lemma FigureChars(cpu: string, memory: string, rest: string)
    requires (forall i :: 0 <= i < |cpu| ==> IsCpuChar(cpu[i])) && AllDigits(memory)
    ensures var s := " (" + cpu + "%, " + memory + "MB)" + rest;
            var c, m := 2 + |cpu|, 2 + |cpu| + 3 + |memory|;
            && (forall j :: 2 <= j < c ==> IsCpuChar(s[j])) && !IsCpuChar(s[c])
            && (forall j :: c + 3 <= j < m ==> IsDigit(s[j])) && !IsDigit(s[m])
  {
    var s := " (" + cpu + "%, " + memory + "MB)" + rest;
    var c, m := 2 + |cpu|, 2 + |cpu| + 3 + |memory|;
    assert forall j :: 2 <= j < c ==> s[j] == cpu[j-2];
    assert forall j :: c + 3 <= j < m ==> s[j] == memory[j-c-3];
    assert s[c] == '%' && s[m] == 'M';
  }

  lemma AtFirst(s: string, i: nat, text: string)
    requires |text| > 0
    ensures At(s, i, text) ==> s[i] == text[0]
  {
    if At(s, i, text) { assert text[0] == s[i..i+|text|][0]; }
  }

  /** s begins " (" cpu-characters "%,", with the "%" at c. */
  ghost predicate StartsLikeFigures(s: string, c: nat) {
    && 2 < c && c + 1 < |s| && s[1] == '(' && (forall i :: 2 <= i < c ==> IsCpuChar(s[i])) && s[c] == '%' && s[c+1] == ','
  }

  lemma MatchStartsLikeFigures(s: string)
    ensures MatchTail(s).Some? ==> exists c: nat :: StartsLikeFigures(s, c)
  {
    if MatchTail(s).Some? {
      var c := RunEnd(s, 2, IsCpuChar);
      assert s[1] == s[0..2][1];
      assert s[c] == s[c..c+3][0] && s[c+1] == s[c..c+3][1];
      assert StartsLikeFigures(s, c);
    }
  }

  /** Such a beginning has no room for another space before its comma. */
  lemma NoSpaceInFigures(s: string, k: nat, c: nat)
    ensures 1 <= k < |s| && s[k] == ' ' && StartsLikeFigures(s, c) ==> exists i :: 0 <= i < k && s[i] == ','
  {
    if 1 <= k < |s| && s[k] == ' ' && StartsLikeFigures(s, c) {
      assert k != 1 && k != c && k != c + 1;
      assert c + 1 < k;
    }
  }

  /** The lazy name group never stops inside a printable name. */
  lemma NoMatchInside(name: string, j: nat, p: Process, rest: string)
    requires Printable(name) && 0 < j < |name|
    ensures MatchTail(name[j..] + Figures(p) + rest).None?
  {
    assert (Figures(p) + rest)[0] == ' ';
    NoMatchBefore(name, j, Figures(p) + rest);
    assert name[j..] + Figures(p) + rest == name[j..] + (Figures(p) + rest);
  }

  lemma NoMatchBefore(name: string, j: nat, after: string)
    requires Printable(name) && 0 < j < |name| && |after| > 0 && after[0] == ' '
    ensures MatchTail(name[j..] + after).None?
  {
    var s := name[j..] + after;
    var k := |name| - j;
    assert s[k] == ' ';
    assert forall i :: 0 <= i < k ==> s[i] == name[j+i];
    MatchStartsLikeFigures(s);
    hide MatchTail, StartsLikeFigures;
    forall c: nat
      ensures !StartsLikeFigures(s, c)
    {
      NoSpaceInFigures(s, k, c);
    }
  }

  lemma MatchHereStep(s: string, j: nat)
    requires j <= |s|
    ensures MatchHere(s, j) ==
            if j > 0 && MatchTail(s[j..]).Some? then
              Some(Match(s[..j], MatchTail(s[j..]).value, j + MatchTail(s[j..]).value.consumed))
            else if j < |s| && !IsLineEnd(s[j]) then MatchHere(s, j + 1)
            else None
  {}

  /** What the expression should match at the start of an entry. */
  function EntryMatch(p: Process, rest: string): Match {
    var t := Tail(OneDecimal(p.cpuTenths), Itoa(p.memory), None, |Figures(p)| + if rest == "" then 0 else 2);
    Match(p.name, t, |p.name| + t.consumed)
  }

  lemma {:induction false} MatchesAtName(p: Process, rest: string, j: nat)
    requires Printable(p.name) && |p.name| > 0 && j <= |p.name| && Follows(rest)
    ensures MatchHere(p.name + Figures(p) + rest, j) == Some(EntryMatch(p, rest))
    decreases |p.name| - j
  {
    hide MatchTail, MatchHere, Figures, OneDecimal, Itoa;
    var s := p.name + Figures(p) + rest;
    MatchHereStep(s, j);
    assert s[j..] == p.name[j..] + Figures(p) + rest;
    if j == |p.name| {
      assert s[j..] == Figures(p) + rest && s[..j] == p.name;
      FiguresMatch(p, rest);
    } else {
      if j > 0 { NoMatchInside(p.name, j, p, rest); }
      assert s[j] == p.name[j];
      MatchesAtName(p, rest, j + 1);
    }
  }

  /** Parsing the figures gives back the tenths and the megabytes. */
  lemma FiguresParse(p: Process)
    ensures ParseFloat(OneDecimal(p.cpuTenths)) == Some(p.cpuTenths as real / 10.0)
    ensures Value(Itoa(p.memory)) == p.memory
  {
    ValueOfItoa(p.memory);
    ValueOfItoa(p.cpuTenths / 10);
    var whole, d := Itoa(p.cpuTenths / 10), DigitChar(p.cpuTenths % 10);
    var t := OneDecimal(p.cpuTenths);
    assert t == whole + ['.', d] && t[..|whole|] == whole && t[|whole|+1..|whole|+2] == [d];
    RunIs(t, 0, |whole|, IsDigit);
    RunIs(t, |whole| + 1, |whole| + 2, IsDigit);
    assert [d][1..] == [];
    assert Fraction([d]) == (p.cpuTenths % 10) as real / 10.0;
    hide RunEnd, Itoa;
  }

  /** What the dashboard should get back. */
  function Expected(p: Process, index: nat): Parsed {
    Parsed(1000 + index, p.name, "?", Some(p.cpuTenths as real / 10.0), p.memory)
  }

  lemma FromEntryMatch(p: Process, rest: string, index: nat)
    ensures AllDigits(EntryMatch(p, rest).tail.memory)
    ensures FromMatch(EntryMatch(p, rest), index) == Expected(p, index)
  {
    FiguresParse(p);
    hide OneDecimal, Itoa, ParseFloat, Value;
  }

  lemma AfterEntry(p: Process, rest: string)
    requires Follows(rest)
    ensures var s, end := p.name + Figures(p) + rest, EntryMatch(p, rest).end;
            end <= |s| && s[end..] == if rest == "" then "" else rest[2..]
  {
    hide Figures, OneDecimal, Itoa;
  }

  /** One entry at the front is parsed and consumed with its separator. */
  lemma EntryParses(p: Process, rest: string, index: nat)
    requires Printable(p.name) && |p.name| > 0 && Follows(rest)
    ensures ParseFrom(p.name + Figures(p) + rest, index)
            == [Expected(p, index)] + ParseFrom(if rest == "" then "" else rest[2..], index + 1)
  {
    hide MatchHere, Figures, FromMatch, Expected, EntryMatch, Printable;
    MatchesAtName(p, rest, 0);
    FromEntryMatch(p, rest, index);
    AfterEntry(p, rest);
    var s := p.name + Figures(p) + rest;
    assert Exec(s) == Some(EntryMatch(p, rest));
    hide Exec;
  }

  lemma NothingParses(index: nat)
    ensures ParseFrom("", index) == []
  {
    assert MatchHere("", 0).None?;
  }

  function ExpectedAll(ps: seq<Process>, index: nat): seq<Parsed> {
    if |ps| == 0 then [] else [Expected(ps[0], index)] + ExpectedAll(ps[1..], index + 1)
  }

  lemma {:induction false} ExpectedAt(ps: seq<Process>, index: nat)
    ensures |ExpectedAll(ps, index)| == |ps|
    ensures forall i :: 0 <= i < |ps| ==> ExpectedAll(ps, index)[i] == Expected(ps[i], index + i)
  {
    if |ps| == 0 {
    } else {
      ExpectedAt(ps[1..], index + 1);
      assert forall i :: 1 <= i < |ps| ==> ps[i] == ps[1..][i-1];
    }
  }

  lemma {:induction false} EntriesParse(ps: seq<Process>, index: nat)
    requires forall i :: 0 <= i < |ps| ==> Printable(ps[i].name) && |ps[i].name| > 0
    ensures ParseFrom(JoinEntries(ps), index)
            == ExpectedAll(ps, index)
  {
    NothingParses(index);
    if |ps| > 0 {
      var p := ps[0];
      var rest := if |ps| == 1 then "" else ", " + JoinEntries(ps[1..]);
      assert JoinEntries(ps) == p.name + Figures(p) + rest;
      assert |ps| > 1 ==> rest[0..2] == ", " && rest[2..] == JoinEntries(ps[1..]);
      assert |ps| == 1 ==> JoinEntries(ps[1..]) == "";
      hide ParseFrom, Figures, JoinEntries, Expected, Printable;
      EntryParses(p, rest, index);
      EntriesParse(ps[1..], index + 1);
    }
  }

  /** The printed summary of any list of processes whose names are printable and not empty
      parses back to the same names, CPU at one decimal and megabytes, in order. */
  lemma RoundTrip(ps: seq<Process>)
    requires forall i :: 0 <= i < |ps| ==> Printable(ps[i].name) && |ps[i].name| > 0
    ensures |Parse(Format(ps))| == |ps|
    ensures forall i :: 0 <= i < |ps| ==> Parse(Format(ps))[i] == Expected(ps[i], i)
  {
    if |ps| > 0 {
      EntriesParse(ps, 0);
      ExpectedAt(ps, 0);
      var s := JoinEntries(ps);
      assert |s| > 0 && s[|s|-1] == ')' by { LastIsClosing(ps); }
      assert s != "None" by { assert "None"[3] == 'e'; }
    }
  }

  lemma {:induction false} LastIsClosing(ps: seq<Process>)
    requires |ps| > 0
    ensures |JoinEntries(ps)| > 0 && JoinEntries(ps)[|JoinEntries(ps)|-1] == ')'
  {
    if |ps| > 1 { LastIsClosing(ps[1..]); }
  }

  // ---- exactly which lists round-trip ----

  ghost predicate RoundTrips(ps: seq<Process>) {
    var back := Parse(Format(ps));
    && |back| == |ps|
    && forall i :: 0 <= i < |ps| ==>
         back[i].name == ps[i].name && back[i].cpu == Some(ps[i].cpuTenths as real / 10.0) && back[i].memory == ps[i].memory
  }

  lemma {:induction false} MatchedNamesNonEmpty(s: string, index: nat)
    ensures forall i :: 0 <= i < |ParseFrom(s, index)| ==> ParseFrom(s, index)[i].name != ""
    decreases |s|
  {
    if Exec(s).Some? {
      var m := Exec(s).value;
      MatchedNamesNonEmpty(s[m.end..], index + 1);
      assert forall i :: 1 <= i < |ParseFrom(s, index)| ==>
               ParseFrom(s, index)[i] == ParseFrom(s[m.end..], index + 1)[i-1];
    }
  }

  lemma SeparatorIsComma(s: string, k: nat)
    ensures At(s, k, ", ") ==> s[k] == ','
  {
    if At(s, k, ", ") { assert s[k..k+2][0] == s[k]; }
  }

  /** The first piece the fallback cuts off runs past a printable name. */
  lemma FirstPieceIsLonger(ps: seq<Process>)
    requires |ps| > 0 && Printable(ps[0].name)
    ensures |SplitEntries(JoinEntries(ps))| > 0 && |SplitEntries(JoinEntries(ps))[0]| > |ps[0].name|
  {
    var s, p := JoinEntries(ps), ps[0];
    var rest := if |ps| == 1 then "" else ", " + JoinEntries(ps[1..]);
    assert s == p.name + Figures(p) + rest;
    assert Figures(p)[0] == ' ';
    forall k | 0 <= k <= |p.name|
      ensures !At(s, k, ", ")
    {
      assert s[k] == if k < |p.name| then p.name[k] else ' ';
      SeparatorIsComma(s, k);
    }
    assert |s| > |p.name|;
    hide FindSeparator, JoinEntries, Figures;
  }

  /** Given printable names, a list survives the round trip exactly when none is empty. */
  lemma RoundTripIff(ps: seq<Process>)
    requires forall i :: 0 <= i < |ps| ==> Printable(ps[i].name)
    ensures RoundTrips(ps) <==> forall i :: 0 <= i < |ps| ==> ps[i].name != ""
  {
    if forall i :: 0 <= i < |ps| ==> ps[i].name != "" {
      RoundTrip(ps);
    } else {
      var s := JoinEntries(ps);
      MatchedNamesNonEmpty(s, 0);
      LastIsClosing(ps);
      FirstPieceIsLonger(ps);
      assert s[|s|-1] == ')' && "None"[3] == 'e';
    }
  }

  // ---- compactProcessName ----

  /** strings.Join(strings.Fields(name), " "): runs of white space become one space, none at
      the ends. */
  function Collapse(name: string): string {
    if |name| == 0 then "" else
      var before, c := Collapse(name[..|name|-1]), name[|name|-1];
      if AnalysisResponse.IsSpace(c) then before
      else if |before| > 0 && AnalysisResponse.IsSpace(name[|name|-2]) then before + [' ', c]
      else before + [c]
  }

  /** strings.ReplaceAll(name, ",", " ") */
  function NoCommas(name: string): string {
    seq(|name|, i requires 0 <= i < |name| => if name[i] == ',' then ' ' else name[i])
  }

  function Compact(name: string): string {
    var clean := NoCommas(Collapse(name));
    if |clean| <= 80 then clean else clean[..77] + "..."
  }

  lemma {:induction false} CollapseChars(name: string)
    ensures forall i :: 0 <= i < |Collapse(name)| ==>
              Collapse(name)[i] == ' ' || !AnalysisResponse.IsSpace(Collapse(name)[i])
    ensures Collapse(name) == "" <==> forall i :: 0 <= i < |name| ==> AnalysisResponse.IsSpace(name[i])
  {
    if |name| == 0 {
    } else {
      CollapseChars(name[..|name|-1]);
      assert forall i :: 0 <= i < |name| - 1 ==> name[..|name|-1][i] == name[i];
    }
  }

  /** Every cleaned-up name is printable and at most 80 long, and it is empty exactly when
      there was nothing but white space to begin with. */
  lemma CompactIsPrintable(name: string)
    ensures Printable(Compact(name)) && |Compact(name)| <= 80
    ensures Compact(name) == "" <==> forall i :: 0 <= i < |name| ==> AnalysisResponse.IsSpace(name[i])
  {
    CollapseChars(name);
    hide Collapse;
  }
}
