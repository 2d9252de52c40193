/** What the spool relies on about JSON text. Marshalling and parsing are functions given
    from outside; the facts stated of them are those of RFC 8259 as far as brackets and
    strings go, and encoding/json's round trip on the values it can encode. */
module Json {
  import opened Common

  const NEWLINE: byte := 10
  const QUOTE: byte := 34
  const LEFT_BRACKET: byte := 91
  const BACKSLASH: byte := 92
  const RIGHT_BRACKET: byte := 93
  const LEFT_BRACE: byte := 123
  const RIGHT_BRACE: byte := 125

  /** Where a left-to-right reading of JSON text stands: bracket depth, inside a string,
      after a backslash in one, and whether a raw newline was met inside a string. */
  datatype Scan = Scan(depth: int, inString: bool, escaped: bool, broken: bool)

  const START := Scan(0, false, false, false)

  function Read(q: Scan, b: byte): Scan {
    if q.inString then
      var broken := q.broken || b == NEWLINE;
      if q.escaped then q.(escaped := false, broken := broken)
      else if b == BACKSLASH then q.(escaped := true, broken := broken)
      else if b == QUOTE then q.(inString := false, broken := broken)
      else q.(broken := broken)
    else if b == QUOTE then q.(inString := true)
    else if b == LEFT_BRACE || b == LEFT_BRACKET then q.(depth := q.depth + 1)
    else if b == RIGHT_BRACE || b == RIGHT_BRACKET then q.(depth := q.depth - 1)
    else q
  }

  function ReadAll(q: Scan, x: bytes): Scan {
    if |x| == 0 then q else Read(ReadAll(q, x[..|x|-1]), x[|x|-1])
  }

  /** The text closes at k: brackets are open all the way to k, all closed at k, and no
      string before k holds a raw newline. */
  ghost predicate ClosesAt(x: bytes, k: nat) {
    && 2 <= k <= |x|
    && (forall i :: 0 < i < k ==> ReadAll(START, x[..i]).depth >= 1)
    && ReadAll(START, x[..k]) == START
  }

  /** Every JSON text leaves brackets and strings closed (RFC 8259, section 2). */
  predicate Balanced(x: bytes) {
    ReadAll(START, x).depth == 0 && !ReadAll(START, x).inString
  }

  /** Marshal and Unmarshal of one sample, and the decoder of one leading array of samples,
      which gives the samples and the number of bytes it consumed. */
  datatype Codec<!S> = Codec(
    marshal: S -> Option<bytes>,
    unmarshal: bytes -> Option<S>,
    decodeArray: bytes -> Option<(seq<S>, nat)>)

  ghost predicate Marshals<S(!new)>(c: Codec<S>) {
    forall s: S, x: bytes :: c.marshal(s) == Some(x) ==>
      && ClosesAt(x, |x|) && x[0] == LEFT_BRACE
      && (forall i :: 0 <= i < |x| ==> x[i] != NEWLINE)
      && c.unmarshal(x) == Some(s)
  }

  ghost predicate Unmarshals<S(!new)>(c: Codec<S>) {
    forall x: bytes, s: S :: c.unmarshal(x) == Some(s) ==> Balanced(x) && c.marshal(s).Some?
  }

  ghost predicate DecodesArrays<S(!new)>(c: Codec<S>) {
    forall x: bytes, l: seq<S>, k: nat :: |x| > 0 && x[0] == LEFT_BRACKET && c.decodeArray(x) == Some((l, k)) ==>
      && ClosesAt(x, k)
      && (forall s :: s in l ==> c.marshal(s).Some?)
      && forall y: bytes :: c.decodeArray(x[..k] + y) == Some((l, k))
  }

  ghost predicate Lawful<S(!new)>(c: Codec<S>) {
    Marshals(c) && Unmarshals(c) && DecodesArrays(c)
  }

  // ---- the laws can be met ----

  const ONE: byte := 49

  function Ones(n: nat): bytes {
    seq(n, i => ONE)
  }

  /** A sample that is a number, written in unary between braces. */
  function Unary(n: nat): bytes {
    [LEFT_BRACE] + Ones(n) + [RIGHT_BRACE]
  }

  function ParseUnary(x: bytes): Option<nat> {
    if |x| >= 2 && x == Unary(|x| - 2) then Some(|x| - 2) else None
  }

  /** How many ones x starts with. */
  function OnesOf(x: bytes): nat {
    if |x| > 0 && x[0] == ONE then 1 + OnesOf(x[1..]) else 0
  }

  /** An array of at most one sample, and where it ends. */
  function ParseUnaries(x: bytes): (r: Option<(seq<nat>, nat)>)
    ensures r.Some? ==> r.value.1 <= |x|
  {
    var n := if |x| >= 2 then OnesOf(x[2..]) else 0;
    if [LEFT_BRACKET, RIGHT_BRACKET] <= x then Some(([], 2))
    else if [LEFT_BRACKET] + Unary(n) + [RIGHT_BRACKET] <= x then Some(([n], n + 4))
    else None
  }

  function UnaryCodec(): Codec<nat> {
    Codec(n => Some(Unary(n)), ParseUnary, ParseUnaries)
  }

  lemma {:induction false} ReadOnes(q: Scan, n: nat)
    requires !q.inString
    ensures ReadAll(q, Ones(n)) == q
  {
    if n == 0 {
    } else {
      ReadOnes(q, n - 1);
      assert Ones(n)[..n-1] == Ones(n - 1);
    }
  }

  /** Reading the first i bytes of a number in braces. */
  lemma ReadUnary(q: Scan, n: nat, i: nat)
    requires !q.inString && i <= n + 2
    ensures ReadAll(q, Unary(n)[..i]) == if i == 0 || i == n + 2 then q else q.(depth := q.depth + 1)
  {
    var x := Unary(n);
    if i == 0 {
      assert x[..0] == [];
    } else if i <= n + 1 {
      assert x[..i] == [LEFT_BRACE] + Ones(i - 1);
      ReadOn(q, [LEFT_BRACE], Ones(i - 1));
      assert [LEFT_BRACE][..0] == [];
      ReadOnes(q.(depth := q.depth + 1), i - 1);
      hide Ones;
    } else {
      ReadUnary(q, n, n + 1);
      assert x[..i][..n+1] == x[..n+1] && x[..i][n+1] == RIGHT_BRACE;
      hide Unary, Ones;
    }
  }

  lemma UnaryCloses(n: nat)
    ensures ClosesAt(Unary(n), n + 2) && Balanced(Unary(n))
  {
    assert Unary(n)[..n+2] == Unary(n);
    forall i: nat | i <= n + 2
      ensures ReadAll(START, Unary(n)[..i]) == if i == 0 || i == n + 2 then START else START.(depth := 1)
    {
      ReadUnary(START, n, i);
    }
    hide ReadAll, Unary, Ones;
  }

  lemma ReadOne(q: Scan, x: bytes, b: byte)
    ensures ReadAll(q, x + [b]) == Read(ReadAll(q, x), b)
    ensures ReadAll(q, [b]) == Read(q, b)
  {
    assert (x + [b])[..|x|] == x;
    assert [b][..0] == [];
  }

  /** Reading the first i bytes of an array of one number. */
  lemma ReadUnaries(n: nat, x: bytes, i: nat)
    requires x == [LEFT_BRACKET] + Unary(n) + [RIGHT_BRACKET] && 0 < i <= n + 4
    ensures var q := ReadAll(START, x[..i]); if i == n + 4 then q == START else q.depth >= 1
  {
    hide ReadAll, Unary, Ones;
    ReadOne(START, [], LEFT_BRACKET);
    UnarySize(n);
    if i <= n + 3 {
      assert x[..i] == [LEFT_BRACKET] + Unary(n)[..i-1];
      ReadOn(START, [LEFT_BRACKET], Unary(n)[..i-1]);
      ReadUnary(START.(depth := 1), n, i - 1);
    } else {
      assert x[..i] == x && Unary(n)[..n+2] == Unary(n);
      ReadOn(START, [LEFT_BRACKET], Unary(n));
      ReadUnary(START.(depth := 1), n, n + 2);
      ReadOne(START, [LEFT_BRACKET] + Unary(n), RIGHT_BRACKET);
    }
  }

  lemma UnarySize(n: nat)
    ensures |Unary(n)| == n + 2
  {}

  lemma {:induction false} OnesOfMore(n: nat, y: bytes)
    requires |y| == 0 || y[0] != ONE
    ensures OnesOf(Ones(n) + y) == n
  {
    if n == 0 {
      assert Ones(0) + y == y;
    } else {
      assert (Ones(n) + y)[1..] == Ones(n - 1) + y;
      OnesOfMore(n - 1, y);
    }
  }

  lemma UnaryArrayCloses(x: bytes, l: seq<nat>, k: nat)
    requires ParseUnaries(x) == Some((l, k))
    ensures ClosesAt(x, k)
  {
    if l == [] {
      assert x[..2] == [LEFT_BRACKET, RIGHT_BRACKET];
      assert x[..1] == [LEFT_BRACKET];
      assert x[..2][..1] == x[..1] && x[..1][..0] == [];
      assert ReadAll(START, x[..1]) == START.(depth := 1);
    } else {
      var n := l[0];
      forall i | 0 < i <= k
        ensures var q := ReadAll(START, x[..i]); if i == k then q == START else q.depth >= 1
      {
        assert x[..i] == x[..k][..i];
        ReadUnaries(n, x[..k], i);
      }
      hide ReadAll, Unary, Ones, OnesOf;
    }
  }

  lemma UnaryArrayStands(x: bytes, l: seq<nat>, k: nat, y: bytes)
    requires ParseUnaries(x) == Some((l, k))
    ensures ParseUnaries(x[..k] + y) == Some((l, k))
  {
    var z := x[..k] + y;
    if l == [] {
      assert [LEFT_BRACKET, RIGHT_BRACKET] <= z;
    } else {
      var n := l[0];
      assert x[..k] == [LEFT_BRACKET] + Unary(n) + [RIGHT_BRACKET];
      assert z[2..] == Ones(n) + ([RIGHT_BRACE, RIGHT_BRACKET] + y);
      OnesOfMore(n, [RIGHT_BRACE, RIGHT_BRACKET] + y);
      assert z[1] == LEFT_BRACE;
      hide OnesOf, Ones;
    }
  }

  lemma UnaryIsLawful()
    ensures Lawful(UnaryCodec())
  {
    var c := UnaryCodec();
    hide ClosesAt, ReadAll, Balanced, ParseUnaries;
    forall n: nat
      ensures ClosesAt(Unary(n), |Unary(n)|) && Balanced(Unary(n)) && ParseUnary(Unary(n)) == Some(n)
    {
      UnaryCloses(n);
    }
    forall x: bytes, l: seq<nat>, k: nat | |x| > 0 && x[0] == LEFT_BRACKET && c.decodeArray(x) == Some((l, k))
      ensures ClosesAt(x, k) && forall y: bytes :: c.decodeArray(x[..k] + y) == Some((l, k))
    {
      UnaryArrayCloses(x, l, k);
      forall y: bytes
        ensures c.decodeArray(x[..k] + y) == Some((l, k))
      {
        UnaryArrayStands(x, l, k, y);
      }
    }
  }

  // ---- reading on ----

  lemma {:induction false} ReadOn(q: Scan, x: bytes, y: bytes)
    ensures ReadAll(q, x + y) == ReadAll(ReadAll(q, x), y)
  {
    if |y| == 0 {
      assert x + y == x;
    } else {
      assert (x + y)[..|x + y|-1] == x + y[..|y|-1];
      ReadOn(q, x, y[..|y|-1]);
    }
  }

  /** Reading the same text deeper inside. */
  lemma {:induction false} ReadDeeper(q: Scan, d: int, x: bytes)
    ensures ReadAll(q.(depth := q.depth + d), x) == var r := ReadAll(q, x); r.(depth := r.depth + d)
  {
    if |x| == 0 {
    } else {
      ReadDeeper(q, d, x[..|x|-1]);
    }
  }

  /** Once a newline was met in a string, it stays met. */
  lemma {:induction false} BrokenStays(q: Scan, x: bytes)
    requires q.broken
    ensures ReadAll(q, x).broken
  {
    if |x| == 0 {
    } else {
      BrokenStays(q, x[..|x|-1]);
    }
  }

  /** Any part of a marshalled sample, read outside strings at some depth, never gets above
      where it started. */
  lemma PartStaysInside(q: Scan, line: bytes, n: nat)
    requires ClosesAt(line, |line|) && n <= |line| && !q.inString && !q.escaped && !q.broken
    ensures ReadAll(q, line[..n]).depth >= q.depth
  {
    hide ReadAll, ClosesAt, Read;
    assert q == START.(depth := START.depth + q.depth);
    ReadDeeper(START, q.depth, line[..n]);
    PartDepth(line, n);
  }

  lemma PartDepth(line: bytes, n: nat)
    requires ClosesAt(line, |line|) && n <= |line|
    ensures ReadAll(START, line[..n]).depth >= 0
  {
    hide Read;
    if n == |line| { assert line[..n] == line; }
  }

  /** A proper prefix of a marshalled sample is not a JSON text. */
  lemma ProperPrefixUnbalanced(line: bytes, n: nat)
    requires ClosesAt(line, |line|) && 0 < n < |line|
    ensures !Balanced(line[..n])
  {}

  /** After a newline one is either outside strings or the text is broken. */
  lemma AfterNewline(q: Scan, x: bytes)
    requires |x| > 0 && x[|x|-1] == NEWLINE
    ensures ReadAll(q, x).inString ==> ReadAll(q, x).broken
  {}

  /** Where a text closes there is a closing bracket, not a newline. */
  lemma ClosingByte(x: bytes, k: nat)
    requires ClosesAt(x, k)
    ensures x[k-1] != NEWLINE
  {
    assert x[..k][..k-1] == x[..k-1];
  }
}
