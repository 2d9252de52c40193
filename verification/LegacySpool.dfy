/** What a spool file holds, said of the file's parts: the samples of an array left by an earlier
    version first, then those of the lines, and after a broken array only those of the lines
    below it (internal/agent/spool.go:221-273). */
module LegacySpool {
  import opened Common
  import opened Json
  import opened SpoolFormat

  /** Only spaces, tabs, carriage returns and newlines. */
  predicate Layout(x: bytes) {
    forall i :: 0 <= i < |x| ==> x[i] == 32 || x[i] == 9 || x[i] == 13 || x[i] == 10
  }

  predicate OneLine(x: bytes) {
    forall i :: 0 <= i < |x| ==> x[i] != 10
  }

  /** The text starts with something else than layout. */
  predicate Starts(text: bytes) {
    |text| > 0 && !Layout(text[..1])
  }

  lemma {:induction false} TrimLayout(layout: bytes, text: bytes)
    requires Layout(layout) && (text == [] || Starts(text))
    ensures TrimLeft(layout + text) == text
  {
    if |layout| == 0 {
      assert layout + text == text;
      if Starts(text) { assert text[..1][0] == text[0]; }
    } else {
      assert (layout + text)[1..] == layout[1..] + text;
      assert (layout + text)[0] == layout[0];
      TrimLayout(layout[1..], text);
    }
  }

  // ---- lines ----

  /** Not only space, tab, newline, vertical tab, form feed and carriage return. */
  predicate SaysSomething(line: bytes) {
    exists i :: 0 <= i < |line| && line[i] != 32 && !(9 <= line[i] <= 13)
  }

  /** The sample of one line, if it says something and decodes. */
  function OfLine<S>(c: Codec<S>, line: bytes): seq<S> {
    if SaysSomething(line) && c.unmarshal(line).Some? then [c.unmarshal(line).value] else []
  }

  /** The samples of some lines, in order. */
  function Samples<S>(c: Codec<S>, lines: seq<bytes>): seq<S> {
    if |lines| == 0 then [] else
      Samples(c, lines[..|lines|-1]) + OfLine(c, lines[|lines|-1])
  }

  /** The lines with newlines between them. */
  function Joined(lines: seq<bytes>): bytes
    requires |lines| > 0
  {
    if |lines| == 1 then lines[0] else Joined(lines[..|lines|-1]) + [10] + lines[|lines|-1]
  }

  lemma LineRead<S>(c: Codec<S>, line: bytes)
    ensures DecodeLine(c, line) == OfLine(c, line)
  {
    assert SaysSomething(line) <==> !Blank(line);
    hide SaysSomething, Blank;
  }

  lemma SamplesMore<S>(c: Codec<S>, lines: seq<bytes>)
    requires |lines| > 0
    ensures Samples(c, lines) == Samples(c, lines[..|lines|-1]) + OfLine(c, lines[|lines|-1])
    ensures |lines| == 1 ==> Samples(c, lines) == OfLine(c, lines[0])
  {
    hide SaysSomething;
    if |lines| == 1 { assert Samples(c, lines[..0]) == []; }
  }

  lemma {:induction false} LinesRead<S>(c: Codec<S>, lines: seq<bytes>)
    requires |lines| > 0 && forall i :: 0 <= i < |lines| ==> OneLine(lines[i])
    ensures DecodeLines(c, Joined(lines)) == Samples(c, lines)
  {
    hide DecodeLines, DecodeLine, OfLine, Samples;
    var n := |lines| - 1;
    FirstLine(c, lines[n], []);
    LineRead(c, lines[n]);
    SamplesMore(c, lines);
    if n > 0 {
      LinesRead(c, lines[..n]);
      LinesCut(c, Joined(lines[..n]), lines[n]);
    }
  }

  // ---- the three kinds of file ----

  /** No array: only lines. */
  lemma PlainFile<S>(c: Codec<S>, layout: bytes, text: bytes)
    requires Layout(layout) && (text == [] || (Starts(text) && text[0] as char != '['))
    ensures Decode(c, layout + text) == DecodeLines(c, layout + text)
  {
    TrimLayout(layout, text);
    hide TrimLeft, DecodeLines;
    assert [] + DecodeLines(c, layout + text) == DecodeLines(c, layout + text);
  }

  /** An array of samples l in the first k bytes: these, and then the lines after byte k. */
  lemma ArrayFirst<S>(c: Codec<S>, layout: bytes, text: bytes, l: seq<S>, k: nat)
    requires Layout(layout) && |text| > 0 && text[0] as char == '[' && c.decodeArray(text) == Some((l, k)) && k <= |text|
    ensures Decode(c, layout + text) == l + DecodeLines(c, text[k..])
  {
    assert text[..1][0] == text[0];
    TrimLayout(layout, text);
    hide TrimLeft, DecodeLines;
  }

  /** A broken array: only the lines below its first. */
  lemma BrokenArray<S>(c: Codec<S>, layout: bytes, line: bytes, below: bytes)
    requires Layout(layout) && OneLine(line) && |line| > 0 && line[0] as char == '['
    ensures c.decodeArray(line + [10] + below).None? ==> Decode(c, layout + (line + [10] + below)) == DecodeLines(c, below)
    ensures c.decodeArray(line).None? ==> Decode(c, layout + line) == []
  {
    var text := line + [10] + below;
    assert line[..1][0] == line[0] && text[..1][0] == line[0];
    TrimLayout(layout, text);
    TrimLayout(layout, line);
    LineEndOf(line, below);
    EmptyLine(c);
    hide TrimLeft, DecodeLines, LineEnd;
    assert text[|line|+1..] == below;
    assert [] + DecodeLines(c, below) == DecodeLines(c, below);
  }

  lemma {:induction false} BlankLines<S>(c: Codec<S>, x: bytes)
    requires Blank(x)
    ensures DecodeLines(c, x) == []
    decreases |x|
  {
    var i := LineEnd(x);
    if i < |x| { BlankLines(c, x[i+1..]); }
    hide LineEnd;
  }

  /** A file that is an array and nothing more holds exactly its samples. */
  lemma ArrayAlone<S>(c: Codec<S>, layout: bytes, text: bytes, l: seq<S>, k: nat)
    requires Layout(layout) && |text| > 0 && text[0] as char == '[' && c.decodeArray(text) == Some((l, k)) && k <= |text|
    requires Blank(text[k..])
    ensures Decode(c, layout + text) == l
  {
    hide Decode, DecodeLines;
    ArrayFirst(c, layout, text, l, k);
    BlankLines(c, text[k..]);
  }

  // ---- and after any number of appends ----

  /** The file after appending the samples one by one. */
  function Appended<S>(c: Codec<S>, raw: bytes, samples: seq<S>): bytes
    requires forall s :: s in samples ==> c.marshal(s).Some?
  {
    if |samples| == 0 then raw else
      var before := Appended(c, raw, samples[..|samples|-1]);
      before + Appendix(before, c.marshal(samples[|samples|-1]).value)
  }

  lemma {:induction false} AppendsDecode<S(!new)>(c: Codec<S>, raw: bytes, samples: seq<S>)
    requires Lawful(c) && forall s :: s in samples ==> c.marshal(s).Some?
    ensures Decode(c, Appended(c, raw, samples)) == Decode(c, raw) + samples
  {
    hide Lawful, Decode, Appendix;
    if |samples| == 0 {
      assert Decode(c, raw) + [] == Decode(c, raw);
    } else {
      var n := |samples| - 1;
      AppendsDecode(c, raw, samples[..n]);
      AppendDecodes(c, Appended(c, raw, samples[..n]), samples[n], c.marshal(samples[n]).value);
      assert samples == samples[..n] + [samples[n]];
    }
  }

  /** The samples of a good array stay in front, whatever is appended. */
  lemma LegacyStaysInFront<S(!new)>(c: Codec<S>, layout: bytes, text: bytes, l: seq<S>, k: nat, samples: seq<S>)
    requires Lawful(c) && forall s :: s in samples ==> c.marshal(s).Some?
    requires Layout(layout) && |text| > 0 && text[0] as char == '[' && c.decodeArray(text) == Some((l, k)) && k <= |text|
    ensures l <= Decode(c, Appended(c, layout + text, samples))
    ensures Blank(text[k..]) ==> Decode(c, Appended(c, layout + text, samples)) == l + samples
  {
    hide Lawful, Decode, DecodeLines, Appended;
    ArrayFirst(c, layout, text, l, k);
    AppendsDecode(c, layout + text, samples);
    if Blank(text[k..]) { ArrayAlone(c, layout, text, l, k); }
  }
}
