/** The spool's file format (internal/agent/spool.go:205-273): one sample a line, after an
    optional JSON array left by earlier versions. */
module SpoolFormat {
  import opened Common
  import opened Json

  // ---- lines ----

  predicate IsSpace(b: byte) {
    b == 32 || 9 <= b <= 13
  }

  predicate Blank(x: bytes) {
    forall i :: 0 <= i < |x| ==> IsSpace(x[i])
  }

  function DecodeLine<S>(c: Codec<S>, line: bytes): seq<S> {
    if Blank(line) then [] else
      match c.unmarshal(line)
      case Some(s) => [s]
      case None => []
  }

  /** The index of the first newline, or the length. */
  function LineEnd(x: bytes): (i: nat)
    ensures i <= |x|
    ensures forall j :: 0 <= j < i ==> x[j] != NEWLINE
    ensures i < |x| ==> x[i] == NEWLINE
  {
    if |x| == 0 || x[0] == NEWLINE then 0 else 1 + LineEnd(x[1..])
  }

  function DecodeLines<S>(c: Codec<S>, x: bytes): seq<S>
    decreases |x|
  {
    var i := LineEnd(x);
    if i == |x| then DecodeLine(c, x) else DecodeLine(c, x[..i]) + DecodeLines(c, x[i+1..])
  }

  lemma NextLine<S>(c: Codec<S>, x: bytes)
    ensures var i := LineEnd(x);
            DecodeLines(c, x) == DecodeLine(c, x[..i]) + if i < |x| then DecodeLines(c, x[i+1..]) else []
  {
    hide LineEnd, DecodeLine;
    if LineEnd(x) == |x| { assert x[..|x|] == x; }
    assert DecodeLine(c, x) + [] == DecodeLine(c, x);
  }

  lemma LinesAfter<S>(c: Codec<S>, samples: seq<S>, x: bytes)
    ensures var i := LineEnd(x);
            samples + DecodeLines(c, x)
            == samples + DecodeLine(c, x[..i]) + if i < |x| then DecodeLines(c, x[i+1..]) else []
  {
    NextLine(c, x);
    hide DecodeLines, DecodeLine, LineEnd;
  }

  // ---- the whole file ----

  /** bytes.TrimLeft(raw, " \t\r\n") */
  function TrimLeft(x: bytes): bytes {
    if |x| > 0 && (x[0] == 32 || x[0] == 9 || x[0] == 13 || x[0] == 10) then TrimLeft(x[1..]) else x
  }

  /** The bytes after the first newline, which is all that is read of a broken array. */
  function AfterLine(x: bytes): bytes {
    var i := LineEnd(x);
    if i < |x| then x[i+1..] else []
  }

  /** The legacy samples, and the bytes to be read as lines. */
  function SplitLegacy<S>(c: Codec<S>, raw: bytes): (seq<S>, bytes) {
    var trimmed := TrimLeft(raw);
    if |trimmed| > 0 && trimmed[0] == LEFT_BRACKET then
      match c.decodeArray(trimmed)
      case Some((legacy, k)) => (legacy, if k <= |trimmed| then trimmed[k..] else [])
      case None => ([], AfterLine(trimmed))
    else ([], raw)
  }

  function Decode<S>(c: Codec<S>, raw: bytes): seq<S> {
    var (legacy, rest) := SplitLegacy(c, raw);
    legacy + DecodeLines(c, rest)
  }

  /** decodeSpool's loop over the lines. */
  method DecodeSpool<S>(c: Codec<S>, raw: bytes) returns (samples: seq<S>)
    ensures samples == Decode(c, raw)
  {
    hide DecodeLines, LineEnd, SplitLegacy, Blank;
    var (legacy, rest) := SplitLegacy(c, raw);
    samples := legacy;
    var more := true;
    ghost var all := legacy + DecodeLines(c, rest);
    while more
      invariant (if more then samples + DecodeLines(c, rest) else samples) == all
      decreases more, |rest|
    {
      var i := LineEnd(rest);
      var line := rest[..i];
      ghost var before := samples;
      LinesAfter(c, samples, rest);
      if i < |rest| { rest := rest[i+1..]; } else { more := false; }
      if !Blank(line) {
        match c.unmarshal(line) {
          case None =>
          case Some(s) => samples := samples + [s];
        }
      }
      assert samples == before + DecodeLine(c, line);
    }
  }

  predicate Terminated(raw: bytes) {
    |raw| == 0 || raw[|raw|-1] == NEWLINE
  }

  /** What Append writes after raw for a marshalled sample. */
  function Appendix(raw: bytes, line: bytes): bytes {
    (if Terminated(raw) then [] else [NEWLINE]) + line + [NEWLINE]
  }

  // ---- lines of a longer file ----

  lemma LineEndOf(x: bytes, y: bytes)
    requires forall i :: 0 <= i < |x| ==> x[i] != NEWLINE
    ensures LineEnd(x + [NEWLINE] + y) == |x|
    ensures LineEnd(x) == |x|
  {
    var z := x + [NEWLINE] + y;
    assert z[|x|] == NEWLINE;
    assert forall i :: 0 <= i < |x| ==> z[i] == x[i];
  }

  lemma FirstLine<S>(c: Codec<S>, line: bytes, y: bytes)
    requires forall i :: 0 <= i < |line| ==> line[i] != NEWLINE
    ensures DecodeLines(c, line + [NEWLINE] + y) == DecodeLine(c, line) + DecodeLines(c, y)
    ensures DecodeLines(c, line) == DecodeLine(c, line)
  {
    LineEndOf(line, y);
    var z := line + [NEWLINE] + y;
    assert z[..|line|] == line && z[|line|+1..] == y;
    hide DecodeLine, LineEnd;
  }

  /** Cutting a file at a newline cuts its samples. */
  lemma {:induction false} LinesCut<S>(c: Codec<S>, x: bytes, y: bytes)
    ensures DecodeLines(c, x + [NEWLINE] + y) == DecodeLines(c, x) + DecodeLines(c, y)
    decreases |x|
  {
    var i := LineEnd(x);
    hide DecodeLines, DecodeLine, LineEnd;
    if i == |x| {
      FirstLine(c, x, y);
    } else {
      var line, rest := x[..i], x[i+1..];
      LinesCut(c, rest, y);
      assert x == line + [NEWLINE] + rest;
      assert x + [NEWLINE] + y == line + [NEWLINE] + (rest + [NEWLINE] + y);
      FirstLine(c, line, rest);
      FirstLine(c, line, rest + [NEWLINE] + y);
    }
  }

  lemma EmptyLine<S>(c: Codec<S>)
    ensures DecodeLines(c, []) == []
  {}

  /** Lines that follow a terminated file, or a newline put there, follow its samples. */
  lemma LinesFollow<S>(c: Codec<S>, rest: bytes, separator: bytes, part: bytes)
    requires separator == [NEWLINE] || (separator == [] && Terminated(rest))
    ensures DecodeLines(c, rest + separator + part) == DecodeLines(c, rest) + DecodeLines(c, part)
  {
    EmptyLine(c);
    hide DecodeLines;
    if separator == [NEWLINE] {
      LinesCut(c, rest, part);
    } else if |rest| > 0 {
      var front := rest[..|rest|-1];
      assert rest == front + [NEWLINE] + [];
      LinesCut(c, front, []);
      LinesCut(c, front, part);
      assert rest + separator + part == front + [NEWLINE] + part;
    } else {
      assert rest + separator + part == part;
    }
  }

  // ---- the array prefix of a longer file ----

  lemma {:induction false} TrimOf(x: bytes, y: bytes)
    ensures TrimLeft(x + y) == if |TrimLeft(x)| == 0 then TrimLeft(y) else TrimLeft(x) + y
    ensures |TrimLeft(x)| <= |x| && x[|x|-|TrimLeft(x)|..] == TrimLeft(x)
  {
    if |x| == 0 {
      assert x + y == y;
    } else {
      assert (x + y)[1..] == x[1..] + y;
      TrimOf(x[1..], y);
    }
  }

  /** The part of a marshalled sample that got written, with or without its newline. */
  ghost predicate PartOf(part: bytes, line: bytes) {
    part <= line + [NEWLINE]
  }

  /** A broken array is not mended by what is appended to it: no bracket can close inside
      the appended text. */
  lemma BrokenArrayStays<S(!new)>(c: Codec<S>, x: bytes, separator: bytes, line: bytes, part: bytes)
    requires Lawful(c) && |x| > 0 && x[0] == LEFT_BRACKET && c.decodeArray(x).None?
    requires separator == [NEWLINE] || (separator == [] && x[|x|-1] == NEWLINE)
    requires ClosesAt(line, |line|) && PartOf(part, line)
    ensures c.decodeArray(x + separator + part).None?
  {
    var y := x + separator + part;
    if c.decodeArray(y).Some? {
      var k := c.decodeArray(y).value.1;
      assert y[0] == LEFT_BRACKET && ClosesAt(y, k);
      assert y == x + (separator + part);
      NoCloseAfter(x, separator, line, part, k);
      ArrayOfPrefix(c, x, separator + part);
    }
  }

  /** What the array decoder finds within x it finds in x. */
  lemma ArrayOfPrefix<S(!new)>(c: Codec<S>, x: bytes, y: bytes)
    requires Lawful(c) && |x| > 0 && x[0] == LEFT_BRACKET
    ensures c.decodeArray(x + y).Some? && c.decodeArray(x + y).value.1 <= |x| ==> c.decodeArray(x) == c.decodeArray(x + y)
    ensures c.decodeArray(x).Some? ==> c.decodeArray(x + y) == c.decodeArray(x)
  {
    hide Lawful;
    var z := x + y;
    assert z[0] == LEFT_BRACKET;
    if c.decodeArray(z).Some? && c.decodeArray(z).value.1 <= |x| {
      var k := c.decodeArray(z).value.1;
      ArrayStands(c, z, x[k..]);
      assert z[..k] + x[k..] == x;
    }
    if c.decodeArray(x).Some? {
      var k := c.decodeArray(x).value.1;
      ArrayStands(c, x, []);
      ArrayStands(c, x, x[k..] + y);
      assert x[..k] + (x[k..] + y) == z;
    }
  }

  /** What the decoder found does not depend on what follows it. */
  lemma ArrayStands<S(!new)>(c: Codec<S>, x: bytes, y: bytes)
    requires Lawful(c) && |x| > 0 && x[0] == LEFT_BRACKET && c.decodeArray(x).Some?
    ensures var k := c.decodeArray(x).value.1; k <= |x| && c.decodeArray(x[..k] + y) == c.decodeArray(x)
  {
    hide Marshals, Unmarshals;
    assert ClosesAt(x, c.decodeArray(x).value.1);
    hide ReadAll;
  }

  lemma {:induction false} EscapedInString(x: bytes)
    ensures ReadAll(START, x).escaped ==> ReadAll(START, x).inString
  {
    if |x| == 0 {
    } else {
      EscapedInString(x[..|x|-1]);
    }
  }

  /** Reading a part of an appended sample, from outside strings, does not get above where
      it started. */
  lemma PartKeepsDepth(q: Scan, line: bytes, part: bytes, n: nat)
    requires ClosesAt(line, |line|) && PartOf(part, line) && n <= |part|
    requires !q.inString && !q.escaped && !q.broken
    ensures ReadAll(q, part[..n]).depth >= q.depth
  {
    var whole := line + [NEWLINE];
    assert part[..n] == whole[..n];
    if n <= |line| {
      assert whole[..n] == line[..n];
      PartStaysInside(q, line, n);
    } else {
      assert whole[..n] == whole && whole[..|whole|-1] == line && line[..|line|] == line;
      PartStaysInside(q, line, |line|);
    }
  }

  /** The newline before an appended sample leaves an open array open, or broken. */
  lemma AfterSeparator(x: bytes, separator: bytes)
    requires |x| > 0 && (separator == [NEWLINE] || (separator == [] && x[|x|-1] == NEWLINE))
    ensures var q := ReadAll(START, x + separator);
            q.depth == ReadAll(START, x).depth && (q.inString ==> q.broken)
  {
    var y := x + separator;
    if separator == [] {
      assert y == x;
    } else {
      assert y[..|y|-1] == x;
    }
    AfterNewline(START, y);
  }

  lemma NoCloseAfter(x: bytes, separator: bytes, line: bytes, part: bytes, k: nat)
    requires |x| > 0 && (separator == [NEWLINE] || (separator == [] && x[|x|-1] == NEWLINE))
    requires ClosesAt(line, |line|) && PartOf(part, line)
    ensures !(|x| < k && ClosesAt(x + separator + part, k))
  {
    var y, n := x + separator + part, |x| + |separator|;
    if |x| < k && ClosesAt(y, k) {
      var q := ReadAll(START, x + separator);
      assert ReadAll(START, x).depth >= 1 by { assert y[..|x|] == x; }
      assert y[..k] == (x + separator) + part[..k-n];
      hide ReadAll, Read, ClosesAt;
      AfterSeparator(x, separator);
      ReadOn(START, x + separator, part[..k-n]);
      if q.broken {
        BrokenStays(q, part[..k-n]);
      } else {
        EscapedInString(x + separator);
        PartKeepsDepth(q, line, part, k - n);
      }
    }
  }

  // ---- appending ----

  lemma {:induction false} TrimmedEmpty<S>(c: Codec<S>, raw: bytes)
    requires |TrimLeft(raw)| == 0
    ensures Blank(raw) && DecodeLines(c, raw) == []
    decreases |raw|
  {
    TrimmedBlank(raw);
    var i := LineEnd(raw);
    if i < |raw| {
      TrimmedSuffix(raw, i + 1);
      TrimmedEmpty(c, raw[i+1..]);
    }
    assert Blank(raw[..i]);
    NextLine(c, raw);
  }

  lemma {:induction false} TrimmedBlank(raw: bytes)
    requires |TrimLeft(raw)| == 0
    ensures Blank(raw)
  {
    if |raw| == 0 {
    } else {
      TrimmedBlank(raw[1..]);
      assert forall i :: 1 <= i < |raw| ==> raw[i] == raw[1..][i-1];
    }
  }

  lemma {:induction false} TrimmedSuffix(raw: bytes, n: nat)
    requires |TrimLeft(raw)| == 0 && n <= |raw|
    ensures |TrimLeft(raw[n..])| == 0
  {
    if n == 0 {
      assert raw[0..] == raw;
    } else {
      TrimmedSuffix(raw[1..], n - 1);
      assert raw[1..][n-1..] == raw[n..];
    }
  }

  /** Text that starts like a sample is not trimmed and starts no array. */
  lemma TrimPart(separator: bytes, line: bytes, part: bytes)
    requires separator == [] || separator == [NEWLINE]
    requires ClosesAt(line, |line|) && line[0] == LEFT_BRACE && PartOf(part, line)
    ensures TrimLeft(separator + part) == part
    ensures |part| > 0 ==> part[0] != LEFT_BRACKET
  {
    if |part| > 0 { assert part[0] == (line + [NEWLINE])[0]; }
    if separator == [] {
      assert separator + part == part;
    } else {
      assert (separator + part)[1..] == part;
    }
  }

  /** However a file ends, writing a newline if it needs one and then part of a sample after
      it leaves its samples as they were, followed by those of the part. */
  lemma AppendPart<S(!new)>(c: Codec<S>, raw: bytes, line: bytes, part: bytes)
    requires Lawful(c) && ClosesAt(line, |line|) && line[0] == LEFT_BRACE && PartOf(part, line)
    ensures var separator := if Terminated(raw) then [] else [NEWLINE];
            Decode(c, raw + separator + part) == Decode(c, raw) + DecodeLines(c, part)
  {
    hide DecodeLines, TrimLeft, Lawful, ClosesAt, PartOf, AfterLine, Decode, Terminated;
    var separator: bytes := if Terminated(raw) then [] else [NEWLINE];
    if |TrimLeft(raw)| == 0 {
      AppendAfterBlank(c, raw, separator, line, part);
    } else if TrimLeft(raw)[0] == LEFT_BRACKET {
      AppendAfterArray(c, raw, separator, line, part);
    } else {
      AppendAfterLines(c, raw, separator, part);
    }
  }

  lemma AppendAfterBlank<S(!new)>(c: Codec<S>, raw: bytes, separator: bytes, line: bytes, part: bytes)
    requires ClosesAt(line, |line|) && line[0] == LEFT_BRACE && PartOf(part, line) && |TrimLeft(raw)| == 0
    requires separator == if Terminated(raw) then [] else [NEWLINE]
    ensures Decode(c, raw + separator + part) == Decode(c, raw) + DecodeLines(c, part)
  {
    hide DecodeLines, TrimLeft, AfterLine;
    TrimPart(separator, line, part);
    hide ClosesAt, PartOf;
    TrimOf(raw, separator + part);
    assert raw + separator + part == raw + (separator + part);
    TrimmedEmpty(c, raw);
    LinesFollow(c, raw, separator, part);
    NoArray(c, raw);
    NoArray(c, raw + separator + part);
  }

  lemma AppendAfterLines<S(!new)>(c: Codec<S>, raw: bytes, separator: bytes, part: bytes)
    requires |TrimLeft(raw)| > 0 && TrimLeft(raw)[0] != LEFT_BRACKET
    requires separator == if Terminated(raw) then [] else [NEWLINE]
    ensures Decode(c, raw + separator + part) == Decode(c, raw) + DecodeLines(c, part)
  {
    hide DecodeLines, TrimLeft, Decode;
    ArrayPrefix(raw, separator, part);
    LinesFollow(c, raw, separator, part);
    NoArray(c, raw);
    NoArray(c, raw + separator + part);
  }

  lemma NoArray<S>(c: Codec<S>, raw: bytes)
    requires |TrimLeft(raw)| == 0 || TrimLeft(raw)[0] != LEFT_BRACKET
    ensures Decode(c, raw) == DecodeLines(c, raw)
  {
    hide DecodeLines, TrimLeft;
    assert [] + DecodeLines(c, raw) == DecodeLines(c, raw);
  }

  lemma AppendAfterArray<S(!new)>(c: Codec<S>, raw: bytes, separator: bytes, line: bytes, part: bytes)
    requires Lawful(c) && ClosesAt(line, |line|) && PartOf(part, line)
    requires separator == if Terminated(raw) then [] else [NEWLINE]
    requires |TrimLeft(raw)| > 0 && TrimLeft(raw)[0] == LEFT_BRACKET
    ensures Decode(c, raw + separator + part) == Decode(c, raw) + DecodeLines(c, part)
  {
    hide DecodeLines, LineEnd, TrimLeft, Lawful, ClosesAt, PartOf, AfterLine;
    var trimmed := TrimLeft(raw);
    ArrayPrefix(raw, separator, part);
    if c.decodeArray(trimmed).Some? {
      AfterGoodArray(c, trimmed, separator, part);
    } else {
      BrokenArrayStays(c, trimmed, separator, line, part);
      AfterBrokenArray(c, trimmed, separator, part);
    }
  }

  /** The trimmed text of a longer file, and its ends. */
  lemma ArrayPrefix(raw: bytes, separator: bytes, part: bytes)
    requires |TrimLeft(raw)| > 0
    ensures var trimmed := TrimLeft(raw);
            && TrimLeft(raw + separator + part) == trimmed + separator + part
            && (trimmed + separator + part)[0] == trimmed[0]
            && |raw| > 0 && trimmed[|trimmed|-1] == raw[|raw|-1]
  {
    hide TrimLeft;
    var trimmed := TrimLeft(raw);
    TrimOf(raw, separator + part);
    assert raw + separator + part == raw + (separator + part);
    assert trimmed + (separator + part) == trimmed + separator + part;
  }

  lemma AfterGoodArray<S(!new)>(c: Codec<S>, trimmed: bytes, separator: bytes, part: bytes)
    requires Lawful(c) && |trimmed| > 0 && trimmed[0] == LEFT_BRACKET && c.decodeArray(trimmed).Some?
    requires separator == if trimmed[|trimmed|-1] == NEWLINE then [] else [NEWLINE]
    ensures var longer, k := trimmed + separator + part, c.decodeArray(trimmed).value.1;
            && c.decodeArray(longer) == c.decodeArray(trimmed) && k <= |trimmed|
            && DecodeLines(c, longer[k..]) == DecodeLines(c, trimmed[k..]) + DecodeLines(c, part)
  {
    ArrayOfPrefix(c, trimmed, separator + part);
    var longer, k := trimmed + separator + part, c.decodeArray(trimmed).value.1;
    assert longer == trimmed + (separator + part);
    assert ClosesAt(trimmed, k);
    ClosingByte(trimmed, k);
    hide Lawful, ClosesAt, DecodeLines;
    var rest := trimmed[k..];
    assert longer[k..] == rest + separator + part;
    LinesFollow(c, rest, separator, part);
  }

  lemma AfterBrokenArray<S(!new)>(c: Codec<S>, trimmed: bytes, separator: bytes, part: bytes)
    requires |trimmed| > 0
    requires separator == if trimmed[|trimmed|-1] == NEWLINE then [] else [NEWLINE]
    ensures DecodeLines(c, AfterLine(trimmed + separator + part))
            == DecodeLines(c, AfterLine(trimmed)) + DecodeLines(c, part)
  {
    var longer, i := trimmed + separator + part, LineEnd(trimmed);
    EmptyLine(c);
    hide DecodeLines, LineEnd;
    if i < |trimmed| {
      var line, rest := trimmed[..i], trimmed[i+1..];
      LineEndOf(line, rest + separator + part);
      assert longer == line + [NEWLINE] + (rest + separator + part);
      assert longer[i+1..] == rest + separator + part;
      assert |rest| > 0 ==> rest[|rest|-1] == trimmed[|trimmed|-1];
      LinesFollow(c, rest, separator, part);
    } else {
      LineEndOf(trimmed, part);
      assert longer == trimmed + [NEWLINE] + part && longer[i+1..] == part;
    }
  }

  /** What a part of a sample's line decodes to: nothing, until only its newline is missing. */
  lemma PartDecodes<S(!new)>(c: Codec<S>, s: S, line: bytes, part: bytes)
    requires Lawful(c) && c.marshal(s) == Some(line) && PartOf(part, line)
    ensures DecodeLines(c, part) == if |part| < |line| then [] else [s]
  {
    assert ClosesAt(line, |line|) && line[0] == LEFT_BRACE && c.unmarshal(line) == Some(s);
    assert forall i :: 0 <= i < |line| ==> line[i] != NEWLINE;
    assert !Blank(line);
    if |part| <= |line| {
      assert part == (line + [NEWLINE])[..|part|] == line[..|part|];
      FirstLine(c, part, []);
      if |part| == |line| {
        assert part == line;
      } else if |part| > 0 {
        ProperPrefixUnbalanced(line, |part|);
      }
    } else {
      assert part == line + [NEWLINE] == line + [NEWLINE] + [];
      FirstLine(c, line, []);
      EmptyLine(c);
    }
  }

  /** Append on any file content, terminated or not, with corrupt lines, with a good or a
      broken array in front: the old samples, then exactly the new one. */
  lemma AppendDecodes<S(!new)>(c: Codec<S>, raw: bytes, s: S, line: bytes)
    requires Lawful(c) && c.marshal(s) == Some(line)
    ensures Decode(c, raw + Appendix(raw, line)) == Decode(c, raw) + [s]
  {
    AppendCutShort(c, raw, s, line, |Appendix(raw, line)|);
    assert Appendix(raw, line)[..|Appendix(raw, line)|] == Appendix(raw, line);
  }

  lemma MarshalledLine<S(!new)>(c: Codec<S>, s: S, line: bytes)
    requires Lawful(c) && c.marshal(s) == Some(line)
    ensures ClosesAt(line, |line|) && |line| > 0 && line[0] == LEFT_BRACE
  {
    hide ClosesAt, Unmarshals, DecodesArrays;
    assert |line| >= 2 by { assert ClosesAt(line, |line|); ClosesLong(line, |line|); }
  }

  lemma ClosesLong(x: bytes, k: nat)
    requires ClosesAt(x, k)
    ensures 2 <= k <= |x|
  {}

  /** The first n bytes of an appendix: nothing yet, or the separator and part of the line. */
  lemma CutAppendix(raw: bytes, line: bytes, n: nat) returns (part: bytes)
    requires n <= |Appendix(raw, line)|
    ensures PartOf(part, line)
    ensures var separator := if Terminated(raw) then [] else [NEWLINE];
            && |Appendix(raw, line)| == |separator| + |line| + 1
            && (if n < |separator| then raw + Appendix(raw, line)[..n] == raw
                else |part| == n - |separator| && raw + Appendix(raw, line)[..n] == raw + separator + part)
  {
    var separator: bytes := if Terminated(raw) then [] else [NEWLINE];
    var all := Appendix(raw, line);
    assert all == separator + (line + [NEWLINE]);
    if n < |separator| {
      part := [];
    } else {
      part := (line + [NEWLINE])[..n-|separator|];
      assert all[..n] == separator + part;
      assert raw + (separator + part) == raw + separator + part;
    }
  }

  /** An append cut short after n bytes costs at most the sample being appended, and not
      even that when only the final newline is missing. */
  lemma AppendCutShort<S(!new)>(c: Codec<S>, raw: bytes, s: S, line: bytes, n: nat)
    requires Lawful(c) && c.marshal(s) == Some(line) && n <= |Appendix(raw, line)|
    ensures Decode(c, raw + Appendix(raw, line)[..n])
            == if n + 1 < |Appendix(raw, line)| then Decode(c, raw) else Decode(c, raw) + [s]
  {
    hide *;
    MarshalledLine(c, s, line);
    var part := CutAppendix(raw, line, n);
    AppendPart(c, raw, line, part);
    PartDecodes(c, s, line, part);
  }

  // ---- files the spool wrote itself ----

  /** writeLocked: one line a sample; None when a sample cannot be encoded. */
  function Encode<S>(c: Codec<S>, samples: seq<S>): Option<bytes> {
    if |samples| == 0 then Some([]) else
      var front, line := Encode(c, samples[..|samples|-1]), c.marshal(samples[|samples|-1]);
      if front.None? || line.None? then None else Some(front.value + line.value + [NEWLINE])
  }

  /** Writing one sample more is appending it. */
  lemma EncodeMore<S(!new)>(c: Codec<S>, samples: seq<S>)
    requires Lawful(c) && |samples| > 0 && Encode(c, samples).Some?
    ensures var m := |samples| - 1;
            var front, line := Encode(c, samples[..m]), c.marshal(samples[m]);
            && front.Some? && line.Some? && |line.value| > 0
            && Terminated(front.value)
            && |front.value| + 1 < |Encode(c, samples).value|
            && Encode(c, samples).value == front.value + Appendix(front.value, line.value)
            && samples == samples[..m] + [samples[m]]
  {
    var m := |samples| - 1;
    var line := c.marshal(samples[m]).value;
    assert ClosesAt(line, |line|);
    var front := Encode(c, samples[..m]).value;
    assert front + line + [NEWLINE] == front + ([] + line + [NEWLINE]);
  }

  /** A file holds what was written to it. */
  lemma {:induction false} WrittenDecodes<S(!new)>(c: Codec<S>, samples: seq<S>)
    requires Lawful(c) && Encode(c, samples).Some?
    ensures Decode(c, Encode(c, samples).value) == samples
  {
    if |samples| == 0 {
    } else {
      var m := |samples| - 1;
      EncodeMore(c, samples);
      hide Lawful, Decode, Encode, Appendix;
      WrittenDecodes(c, samples[..m]);
      AppendDecodes(c, Encode(c, samples[..m]).value, samples[m], c.marshal(samples[m]).value);
    }
  }

  /** The first `kept` samples are those whose lines lie in the first n bytes, a last one
      included that lacks only its newline. */
  ghost predicate FitsIn<S>(c: Codec<S>, samples: seq<S>, n: nat, kept: nat)
    requires kept <= |samples|
  {
    && Encode(c, samples[..kept]).Some? && |Encode(c, samples[..kept]).value| <= n + 1
    && (kept < |samples| ==>
          Encode(c, samples[..kept+1]).Some? && n + 1 < |Encode(c, samples[..kept+1]).value|)
  }

  lemma FitsInFront<S>(c: Codec<S>, samples: seq<S>, n: nat, kept: nat)
    requires |samples| > 0 && kept <= |samples| - 1 && FitsIn(c, samples[..|samples|-1], n, kept)
    requires Encode(c, samples).Some? && n + 1 < |Encode(c, samples).value|
    ensures FitsIn(c, samples, n, kept)
  {
    hide Encode;
    var front := samples[..|samples|-1];
    assert front[..kept] == samples[..kept];
    if kept < |front| {
      assert front[..kept+1] == samples[..kept+1];
    } else {
      assert samples[..kept+1] == samples;
    }
  }

  lemma FitsInLast<S>(c: Codec<S>, samples: seq<S>, n: nat)
    requires |samples| > 0 && Encode(c, samples).Some? && n <= |Encode(c, samples).value|
    requires var front := Encode(c, samples[..|samples|-1]); front.Some? && |front.value| <= n
    ensures FitsIn(c, samples, n, if n + 1 < |Encode(c, samples).value| then |samples| - 1 else |samples|)
  {
    assert samples[..|samples|-1+1] == samples;
    hide Encode;
  }

  /** Reading a written file cut at any byte gives the samples whose lines are complete:
      damage costs only the damaged tail. */
  lemma {:induction false} TruncatedDecodes<S(!new)>(c: Codec<S>, samples: seq<S>, n: nat) returns (kept: nat)
    requires Lawful(c) && Encode(c, samples).Some? && n <= |Encode(c, samples).value|
    ensures kept <= |samples| && FitsIn(c, samples, n, kept)
    ensures Decode(c, Encode(c, samples).value[..n]) == samples[..kept]
    decreases |samples|
  {
    hide Lawful, Decode, Encode, Appendix, Terminated, FitsIn;
    if |samples| == 0 {
      kept := 0;
      NothingWritten(c, samples, n);
    } else {
      EncodeMore(c, samples);
      var m := |samples| - 1;
      var all, front := Encode(c, samples).value, Encode(c, samples[..m]).value;
      if n < |front| {
        kept := TruncatedDecodes(c, samples[..m], n);
        FitsInFront(c, samples, n, kept);
        assert all[..n] == front[..n];
        assert samples[..m][..kept] == samples[..kept];
      } else {
        kept := if n + 1 < |all| then m else |samples|;
        FitsInLast(c, samples, n);
        LastLineCut(c, samples, n);
      }
    }
  }

  lemma NothingWritten<S>(c: Codec<S>, samples: seq<S>, n: nat)
    requires |samples| == 0 && Encode(c, samples).Some? && n <= |Encode(c, samples).value|
    ensures n == 0 && FitsIn(c, samples, n, 0) && Decode(c, Encode(c, samples).value[..n]) == samples[..0]
  {
    assert samples[..0] == samples;
    assert Encode(c, samples).value == [] && Encode(c, samples).value[..0] == [];
  }

  /** A cut in the last line. */
  lemma LastLineCut<S(!new)>(c: Codec<S>, samples: seq<S>, n: nat)
    requires Lawful(c) && |samples| > 0 && Encode(c, samples).Some? && n <= |Encode(c, samples).value|
    requires Encode(c, samples[..|samples|-1]).Some? && |Encode(c, samples[..|samples|-1]).value| <= n
    ensures var all := Encode(c, samples).value;
            Decode(c, all[..n]) == samples[..if n + 1 < |all| then |samples| - 1 else |samples|]
  {
    hide Lawful, Decode, Encode, Appendix, Terminated;
    EncodeMore(c, samples);
    var m := |samples| - 1;
    var all, front, line := Encode(c, samples).value, Encode(c, samples[..m]).value, c.marshal(samples[m]).value;
    assert all[..n] == front + Appendix(front, line)[..n-|front|];
    WrittenDecodes(c, samples[..m]);
    AppendCutShort(c, front, samples[m], line, n - |front|);
    assert samples[..m] + [samples[m]] == samples[..|samples|];
    assert samples[..m] + [] == samples[..m];
  }

  /** Whatever was decoded can be written again. */
  lemma {:induction false} DecodedEncodes<S(!new)>(c: Codec<S>, samples: seq<S>)
    requires forall s :: s in samples ==> c.marshal(s).Some?
    ensures Encode(c, samples).Some?
  {
    if |samples| == 0 {
    } else {
      DecodedEncodes(c, samples[..|samples|-1]);
    }
  }

  lemma {:induction false} LinesMarshal<S(!new)>(c: Codec<S>, x: bytes)
    requires Lawful(c)
    ensures forall s :: s in DecodeLines(c, x) ==> c.marshal(s).Some?
    decreases |x|
  {
    var i := LineEnd(x);
    if i < |x| { LinesMarshal(c, x[i+1..]); }
  }

  lemma DecodeMarshals<S(!new)>(c: Codec<S>, raw: bytes)
    requires Lawful(c)
    ensures forall s :: s in Decode(c, raw) ==> c.marshal(s).Some?
  {
    var (legacy, rest) := SplitLegacy(c, raw);
    LinesMarshal(c, rest);
  }
}
