/** The scanner of /proc/<pid>/stat (internal/collector/proctimes_linux.go). */
module ProcStat {
  import opened Common

  const SPACE: byte := 32
  const CLOSE: byte := 41
  const BUFFER_SIZE := 512
  const UTIME_FIELD := 12
  const STIME_FIELD := 13
  const RSS_FIELD := 22

  predicate IsDigit(c: byte) {
    48 <= c <= 57
  }

  /** The value of the leading digits, on top of n read before them. */
  function ParseFrom(b: bytes, n: nat): nat {
    if |b| == 0 || !IsDigit(b[0]) then n else ParseFrom(b[1..], n * 10 + (b[0] as int - 48))
  }

  method ParseUint(b: bytes) returns (n: nat)
    ensures n == ParseFrom(b, 0)
  {
    n := 0;
    for i := 0 to |b|
      invariant ParseFrom(b[i..], n) == ParseFrom(b, 0)
    {
      if !IsDigit(b[i]) { return; }
      n := n * 10 + (b[i] as int - 48);
      assert b[i..][1..] == b[i+1..];
    }
  }

  /** The index of the last ')', or -1. */
  function LastClose(line: bytes): (i: int)
    ensures -1 <= i < |line|
    ensures 0 <= i ==> line[i] == CLOSE
    ensures forall j :: i < j < |line| ==> line[j] != CLOSE
  {
    if |line| == 0 then -1
    else if line[|line|-1] == CLOSE then |line| - 1
    else LastClose(line[..|line|-1])
  }

  /** Reading bytes one by one: the tokens completed, and the one being read. */
  function Split(x: bytes): (seq<bytes>, bytes) {
    if |x| == 0 then ([], []) else
      var (done, current) := Split(x[..|x|-1]);
      if x[|x|-1] == SPACE then (Completed(done, current), []) else (done, current + [x[|x|-1]])
  }

  function Completed(done: seq<bytes>, current: bytes): seq<bytes> {
    if |current| == 0 then done else done + [current]
  }

  /** The non-empty stretches between spaces. */
  function Tokens(x: bytes): seq<bytes> {
    Completed(Split(x).0, Split(x).1)
  }

  /** The tokens after the command name, numbered from 1 in the code. */
  function Fields(line: bytes): seq<bytes> {
    var close := LastClose(line);
    if close < 0 || close + 2 >= |line| then [] else Tokens(line[close+2..])
  }

  function FieldValue(fields: seq<bytes>, n: nat): nat
    requires 1 <= n
  {
    if n <= |fields| then ParseFrom(fields[n-1], 0) else 0
  }

  /** Bytes of a page count in 64-bit arithmetic. */
  function Resident(pages: nat, pageSize: nat): nat {
    pages * pageSize % 0x1_0000_0000_0000_0000
  }

  /** Resident bytes are pages times page size, less what 64 bits do not hold. */
  lemma ResidentIs(pages: nat, pageSize: nat)
    ensures 0 <= Resident(pages, pageSize) < 0x1_0000_0000_0000_0000
    ensures pages * pageSize < 0x1_0000_0000_0000_0000 ==> Resident(pages, pageSize) == pages * pageSize
    ensures exists wraps: nat :: pages * pageSize == Resident(pages, pageSize) + wraps * 0x1_0000_0000_0000_0000
  {
    var bytes' := pages * pageSize;
    var wraps := bytes' / 0x1_0000_0000_0000_0000;
    assert bytes' == Resident(pages, pageSize) + wraps * 0x1_0000_0000_0000_0000;
  }

  method FindClose(line: bytes) returns (closeIdx: int)
    ensures closeIdx == LastClose(line)
  {
    closeIdx := -1;
    var i := |line| - 1;
    while i >= 0
      invariant -1 <= i < |line|
      invariant forall j :: i < j < |line| ==> line[j] != CLOSE
    {
      if line[i] == CLOSE { return i; }
      i := i - 1;
    }
  }

  /** The scanner's variables: the number of the next field, and what was read so far. */
  datatype Reading = Reading(field: nat, utime: nat, stime: nat, rssPages: nat)

  /** What they hold after the tokens in `done`. */
  function ReadingOf(done: seq<bytes>): Reading {
    Reading(|done| + 1, FieldValue(done, UTIME_FIELD), FieldValue(done, STIME_FIELD), FieldValue(done, RSS_FIELD))
  }

  /** The switch on the field number. */
  method TakeField(ghost done: seq<bytes>, token: bytes, q: Reading) returns (r: Reading)
    requires q == ReadingOf(done)
    ensures r == ReadingOf(done + [token])
  {
    var value := ParseUint(token);
    r := q.(field := q.field + 1);
    if q.field == UTIME_FIELD {
      r := r.(utime := value);
    } else if q.field == STIME_FIELD {
      r := r.(stime := value);
    } else if q.field == RSS_FIELD {
      r := r.(rssPages := value);
    }
  }

  /** The scan over the bytes x after the command name, up to token number 22. */
  method ScanFields(x: bytes) returns (q: Reading)
    ensures q == ReadingOf(Tokens(x)[..Min(|Tokens(x)|, RSS_FIELD)])
  {
    q := Reading(1, 0, 0, 0);
    var start, i := 0, 0;
    ghost var done: seq<bytes> := [];
    while i <= |x|
      invariant start <= i <= |x| + 1
      invariant if i <= |x| then Split(x[..i]) == (done, x[start..i]) else done == Tokens(x)
      invariant q == ReadingOf(done) && |done| < RSS_FIELD
    {
      SplitStep(x, i);
      if i < |x| && x[i] != SPACE {
        assert x[start..i] + [x[i]] == x[start..i+1];
        i := i + 1;
        continue;
      }
      if i > start {
        q := TakeField(done, x[start..i], q);
        done := done + [x[start..i]];
        if q.field > RSS_FIELD {
          assert done <= Tokens(x) by { TokensGrow(x, i); }
          return;
        }
      } else {
        assert x[start..i] == [];
      }
      start := i + 1;
      i := i + 1;
      assert i <= |x| ==> x[start..i] == [];
    }
    assert Tokens(x)[..|Tokens(x)|] == Tokens(x);
  }

  lemma SplitStep(x: bytes, i: nat)
    requires i <= |x|
    ensures var (done, current) := Split(x[..i]);
            && (i < |x| && x[i] == SPACE ==> Split(x[..i+1]) == (Completed(done, current), []))
            && (i < |x| && x[i] != SPACE ==> Split(x[..i+1]) == (done, current + [x[i]]))
            && (i == |x| ==> Tokens(x) == Completed(done, current))
  {
    if i < |x| {
      assert x[..i+1][..i] == x[..i];
    } else {
      assert x[..i] == x;
    }
  }

  lemma {:induction false} SplitGrows(x: bytes, y: bytes)
    ensures Split(x).0 <= Split(x + y).0
  {
    if |y| == 0 {
      assert x + y == x;
    } else {
      assert (x + y)[..|x + y|-1] == x + y[..|y|-1];
      SplitGrows(x, y[..|y|-1]);
    }
  }

  /** The tokens completed at a space or at the end are the first tokens. */
  lemma TokensGrow(x: bytes, i: nat)
    requires i == |x| || (i < |x| && x[i] == SPACE)
    ensures Completed(Split(x[..i]).0, Split(x[..i]).1) <= Tokens(x)
  {
    SplitStep(x, i);
    if i < |x| {
      SplitGrows(x[..i+1], x[i+1..]);
      assert x[..i+1] + x[i+1..] == x;
    }
  }

  /** procStat on the file's content: utime plus stime in clock ticks, resident bytes. */
  method Scan(data: bytes, pageSize: nat) returns (ticks: nat, rss: nat, ok: bool)
    ensures var fields := Fields(data[..Min(|data|, BUFFER_SIZE)]);
            && (ok <==> |fields| >= STIME_FIELD)
            && (ok ==> ticks == FieldValue(fields, UTIME_FIELD) + FieldValue(fields, STIME_FIELD))
            && (ok ==> rss == Resident(FieldValue(fields, RSS_FIELD), pageSize))
            && (!ok ==> ticks == 0 && rss == 0)
  {
    hide Resident, Tokens, ParseFrom;
    var line := data[..Min(|data|, BUFFER_SIZE)];
    if |line| == 0 { return 0, 0, false; }
    var closeIdx := FindClose(line);
    if closeIdx < 0 || closeIdx + 2 >= |line| { return 0, 0, false; }
    var q := ScanFields(line[closeIdx+2..]);
    if q.field <= STIME_FIELD { return 0, 0, false; }
    return q.utime + q.stime, Resident(q.rssPages, pageSize), true;
  }

  // ---- the layout of proc(5) ----

  function Join(fields: seq<bytes>): bytes {
    if |fields| == 0 then []
    else if |fields| == 1 then fields[0]
    else Join(fields[..|fields|-1]) + [SPACE] + fields[|fields|-1]
  }

  /** A field: not empty, no space, no ')'. */
  ghost predicate IsField(f: bytes) {
    |f| > 0 && forall i :: 0 <= i < |f| ==> f[i] != SPACE && f[i] != CLOSE
  }

  /** Anything up to and including the command name's ')', a space, the fields, and what
      follows them; the command name may itself hold spaces and ')'. */
  function Layout(head: bytes, fields: seq<bytes>, tail: bytes): bytes {
    head + [CLOSE, SPACE] + Join(fields) + tail
  }

  /** What follows the fields: nothing, or more fields. */
  ghost predicate IsTail(tail: bytes) {
    (|tail| > 0 ==> tail[0] == SPACE) && forall i :: 0 <= i < |tail| ==> tail[i] != CLOSE
  }

  /** Cutting at a space cuts the tokens. */
  lemma {:induction false} SplitCut(x: bytes, y: bytes)
    ensures Split(x + [SPACE] + y) == (Tokens(x) + Split(y).0, Split(y).1)
  {
    var z := x + [SPACE] + y;
    if |y| == 0 {
      assert z[..|z|-1] == x && z[|z|-1] == SPACE;
      assert Tokens(x) + [] == Tokens(x);
    } else {
      assert z[..|z|-1] == x + [SPACE] + y[..|y|-1] && z[|z|-1] == y[|y|-1];
      SplitCut(x, y[..|y|-1]);
      var (done, current) := Split(y[..|y|-1]);
      assert Tokens(x) + done + [current] == Tokens(x) + (done + [current]);
    }
  }

  lemma TokensCut(x: bytes, y: bytes)
    ensures Tokens(x + [SPACE] + y) == Tokens(x) + Tokens(y)
  {
    SplitCut(x, y);
    hide Split;
  }

  lemma {:induction false} SplitField(f: bytes)
    requires forall i :: 0 <= i < |f| ==> f[i] != SPACE
    ensures Split(f) == ([], f)
  {
    if |f| == 0 {
    } else {
      SplitField(f[..|f|-1]);
      assert f[..|f|-1] + [f[|f|-1]] == f;
    }
  }

  lemma OneToken(f: bytes)
    requires IsField(f)
    ensures Tokens(f) == [f]
  {
    SplitField(f);
  }

  /** Splitting at spaces undoes joining with them. */
  lemma {:induction false} TokensOfJoin(fields: seq<bytes>)
    requires forall i :: 0 <= i < |fields| ==> IsField(fields[i])
    ensures Tokens(Join(fields)) == fields
  {
    hide IsField, Split;
    if |fields| == 0 {
      SplitField([]);
      assert Tokens([]) == [];
    } else if |fields| == 1 {
      OneToken(fields[0]);
    } else if |fields| > 1 {
      var n := |fields| - 1;
      TokensOfJoin(fields[..n]);
      OneToken(fields[n]);
      TokensCut(Join(fields[..n]), fields[n]);
    }
  }

  lemma TokensWithTail(fields: seq<bytes>, tail: bytes)
    requires forall i :: 0 <= i < |fields| ==> IsField(fields[i])
    requires IsTail(tail)
    ensures Tokens(Join(fields) + tail) == fields + if |tail| == 0 then [] else Tokens(tail[1..])
  {
    hide Tokens, Join, IsField;
    TokensOfJoin(fields);
    if |tail| == 0 {
      assert Join(fields) + tail == Join(fields);
    } else {
      assert Join(fields) + tail == Join(fields) + [SPACE] + tail[1..];
      TokensCut(Join(fields), tail[1..]);
    }
  }

  lemma {:induction false} JoinHasNoClose(fields: seq<bytes>)
    requires forall i :: 0 <= i < |fields| ==> IsField(fields[i])
    ensures forall i :: 0 <= i < |Join(fields)| ==> Join(fields)[i] != CLOSE
    ensures |fields| > 0 ==> |Join(fields)| > 0
  {
    if |fields| > 1 { JoinHasNoClose(fields[..|fields|-1]); }
  }

  /** The scan inverts the layout: the tokens it sees are exactly the fields, whatever the
      command name holds. */
  lemma FieldsOfLayout(head: bytes, fields: seq<bytes>, tail: bytes)
    requires |fields| > 0 && (forall i :: 0 <= i < |fields| ==> IsField(fields[i])) && IsTail(tail)
    ensures Fields(Layout(head, fields, tail)) == fields + if |tail| == 0 then [] else Tokens(tail[1..])
  {
    JoinHasNoClose(fields);
    TokensWithTail(fields, tail);
    hide Join, Tokens, IsField, LastClose;
    assert Layout(head, fields, tail) == head + [CLOSE, SPACE] + (Join(fields) + tail);
    LastCloseAt(head, Join(fields) + tail);
  }

  lemma LastCloseAt(head: bytes, rest: bytes)
    requires forall i :: 0 <= i < |rest| ==> rest[i] != CLOSE
    ensures var line := head + [CLOSE, SPACE] + rest;
            LastClose(line) == |head| && line[|head|+2..] == rest
  {
    var line := head + [CLOSE, SPACE] + rest;
    assert line[|head|] == CLOSE && line[|head|+1] == SPACE;
    assert forall i :: 0 <= i < |rest| ==> line[|head|+2+i] == rest[i];
    var k := LastClose(line);
    hide LastClose;
    assert k >= |head|;
    assert forall j :: |head| < j < |line| ==> line[j] != CLOSE;
  }

  /** Decimal text of a number, as the kernel prints it. */
  function Digits(n: nat): bytes {
    if n < 10 then [(48 + n) as byte] else Digits(n / 10) + [(48 + n % 10) as byte]
  }

  /** Parsing reads back the number, whatever non-digit follows it. */
  lemma {:induction false} ParseDigits(n: nat, rest: bytes)
    ensures ParseFrom(Digits(n) + rest, 0) == ParseFrom(rest, n)
  {
    var d := [(48 + n % 10) as byte];
    assert (d + rest)[1..] == rest;
    if n >= 10 {
      ParseDigits(n / 10, d + rest);
      assert Digits(n) + rest == Digits(n / 10) + (d + rest);
    }
  }

  /** And it stops at what is not a digit. */
  lemma ParseStops(n: nat, rest: bytes)
    requires |rest| == 0 || rest[0] as int < '0' as int || '9' as int < rest[0] as int
    ensures ParseFrom(Digits(n) + rest, 0) == n
  {
    ParseDigits(n, rest);
  }

  lemma {:induction false} JoinSplit(fields: seq<bytes>, n: nat)
    requires 0 < n < |fields|
    ensures Join(fields) == Join(fields[..n]) + [SPACE] + Join(fields[n..])
    decreases |fields|
  {
    hide Join;
    var m := |fields| - 1;
    JoinMore(fields);
    JoinMore(fields[n..]);
    SliceSlice(fields, n, m);
    if n < m {
      JoinSplit(fields[..m], n);
      Regrouped(Join(fields[..n]) + [SPACE], Join(fields[n..m]), [SPACE] + fields[m]);
    }
  }

  lemma SliceSlice(fields: seq<bytes>, n: nat, m: nat)
    requires n <= m < |fields|
    ensures fields[n..][..m-n] == fields[n..m] && fields[..m][n..] == fields[n..m] && fields[..m][..n] == fields[..n]
    ensures |fields[n..]| == |fields| - n && fields[n..][m-n] == fields[m]
  {}

  lemma Regrouped(a: bytes, b: bytes, c: bytes)
    ensures a + b + c == a + (b + c)
  {}

  lemma JoinMore(fields: seq<bytes>)
    requires |fields| > 0
    ensures var m := |fields| - 1;
            Join(fields) == if m == 0 then fields[0] else Join(fields[..m]) + [SPACE] + fields[m]
  {}

  lemma {:induction false} JoinStarts(fields: seq<bytes>)
    requires |fields| > 0
    ensures fields[0] <= Join(fields)
  {
    JoinMore(fields);
    hide Join;
    if |fields| == 1 {
    } else {
      JoinStarts(fields[..|fields|-1]);
    }
  }

  /** Less than the first field of a joined list. */
  lemma CutField(fields: seq<bytes>, k: nat)
    requires |fields| > 0 && IsField(fields[0]) && k < |fields[0]|
    ensures k <= |Join(fields)| && Join(fields)[..k] == fields[0][..k]
    ensures Tokens(Join(fields)[..k]) == if k == 0 then [] else [fields[0][..k]]
  {
    JoinStarts(fields);
    var x := fields[0][..k];
    assert Join(fields)[..k] == x;
    SplitField(x);
    hide Split, Join;
  }

  /** What is seen of a line that goes on after n fields that fit. */
  lemma CutSeen(head: bytes, fields: seq<bytes>, n: nat) returns (k: nat)
    requires forall i :: 0 <= i < |fields| ==> IsField(fields[i])
    requires 0 < n < |fields| && |Layout(head, fields[..n], [])| <= BUFFER_SIZE
    ensures var data, next := Layout(head, fields, []), Join(fields[n..]);
            && k <= |next|
            && k == Max(0, Min(BUFFER_SIZE - |Layout(head, fields[..n], [])|, 1 + |next|) - 1)
            && Fields(data[..Min(|data|, BUFFER_SIZE)]) == fields[..n] + Tokens(next[..k])
  {
    hide Fields, Layout, Join, Tokens;
    var front, next := fields[..n], Join(fields[n..]);
    var tail := ([SPACE] + next)[..Min(BUFFER_SIZE - |Layout(head, front, [])|, 1 + |next|)];
    CutData(head, fields, n);
    JoinHasNoClose(fields[n..]);
    FieldsOfLayout(head, front, tail);
    k := if |tail| == 0 then 0 else |tail| - 1;
    AfterSpace(next, |tail|);
  }

  lemma AfterSpace(next: bytes, n: nat)
    requires n <= 1 + |next|
    ensures n > 0 ==> ([SPACE] + next)[..n][1..] == next[..n-1]
    ensures Tokens(next[..0]) == []
  {
    assert next[..0] == [];
  }

  /** A stat line of any length as the buffer cuts it: every field that fits is seen, and of the
      first that does not at most a part of it. */
  lemma CutLayout(head: bytes, fields: seq<bytes>, n: nat)
    requires forall i :: 0 <= i < |fields| ==> IsField(fields[i])
    requires 0 < n <= |fields| && |Layout(head, fields[..n], [])| <= BUFFER_SIZE
    ensures var data := Layout(head, fields, []);
            var seen := Fields(data[..Min(|data|, BUFFER_SIZE)]);
            && fields[..n] <= seen
            && (n == |fields| ==> seen == fields)
            && (n < |fields| && |Layout(head, fields[..n+1], [])| > BUFFER_SIZE ==>
                  seen == fields[..n] || (|seen| == n + 1 && seen[n] <= fields[n] && seen[n] != fields[n]))
  {
    var data := Layout(head, fields, []);
    assert fields[..|fields|] == fields;
    if n == |fields| {
      assert data[..|data|] == data;
      FieldsOfLayout(head, fields, []);
    } else {
      CutLength(head, fields, n);
      hide Layout, Fields, Tokens, Join;
      var k := CutSeen(head, fields, n);
      if |Layout(head, fields[..n+1], [])| > BUFFER_SIZE {
        CutField(fields[n..], k);
      }
    }
  }

  lemma CutLength(head: bytes, fields: seq<bytes>, n: nat)
    requires 0 < n < |fields|
    ensures |Layout(head, fields[..n+1], [])| == |Layout(head, fields[..n], [])| + 1 + |fields[n]|
  {
    JoinMore(fields[..n+1]);
    assert fields[..n+1][..n] == fields[..n];
    hide Join;
  }

  lemma CutData(head: bytes, fields: seq<bytes>, n: nat)
    requires 0 < n < |fields| && |Layout(head, fields[..n], [])| <= BUFFER_SIZE
    ensures var data, front, next := Layout(head, fields, []), fields[..n], Join(fields[n..]);
            var room := BUFFER_SIZE - |Layout(head, front, [])|;
            data[..Min(|data|, BUFFER_SIZE)] == Layout(head, front, ([SPACE] + next)[..Min(room, 1 + |next|)])
  {
    JoinSplit(fields, n);
    hide Join;
    assert Layout(head, fields, []) == Layout(head, fields[..n], []) + ([SPACE] + Join(fields[n..]));
  }

  // ---- what is read of a line of any length ----

  /** Where field number n begins. */
  function Offset(head: bytes, fields: seq<bytes>, n: nat): nat
    requires 1 <= n <= |fields|
  {
    |Layout(head, fields[..n-1], [])| + if n == 1 then 0 else 1
  }

  /** The part of field number n that lies in the buffer. */
  function InBuffer(head: bytes, fields: seq<bytes>, n: nat): bytes
    requires 1 <= n <= |fields|
  {
    fields[n-1][..Max(0, Min(|fields[n-1]|, BUFFER_SIZE - Offset(head, fields, n)))]
  }

  lemma FieldEnd(head: bytes, fields: seq<bytes>, n: nat)
    requires 1 <= n <= |fields|
    ensures |Layout(head, fields[..n], [])| == Offset(head, fields, n) + |fields[n-1]|
  {
    JoinMore(fields[..n]);
    assert fields[..n][..n-1] == fields[..n-1];
    hide Join;
    if n == 1 { assert Join(fields[..0]) == [] by { NothingJoined(fields[..0]); } }
  }

  lemma NothingJoined(fields: seq<bytes>)
    requires |fields| == 0
    ensures Join(fields) == []
  {}

  /** A line whose first field is cut. */
  lemma FirstCut(head: bytes, fields: seq<bytes>)
    requires |fields| > 0 && (forall i :: 0 <= i < |fields| ==> IsField(fields[i]))
    requires |head| < BUFFER_SIZE < |Layout(head, fields[..1], [])|
    ensures var data, part := Layout(head, fields, []), InBuffer(head, fields, 1);
            && BUFFER_SIZE <= |data|
            && Fields(data[..BUFFER_SIZE]) == if |part| == 0 then [] else [part]
  {
    hide Join, Tokens, LastClose;
    var data, k := Layout(head, fields, []), BUFFER_SIZE - |head| - 2;
    FieldEnd(head, fields, 1);
    NothingJoined(fields[..0]);
    JoinStarts(fields);
    var line := data[..BUFFER_SIZE];
    if k < 0 {
      ClosedAtEnd(line);
    } else {
      CutField(fields, k);
      assert line == head + [CLOSE, SPACE] + fields[0][..k];
      LastCloseAt(head, fields[0][..k]);
    }
  }

  lemma ClosedAtEnd(line: bytes)
    requires |line| > 0 && line[|line|-1] == CLOSE
    ensures LastClose(line) == |line| - 1
  {}

  /** The first field that is cut. */
  lemma {:induction false} FirstToOverflow(head: bytes, fields: seq<bytes>, n: nat) returns (m: nat)
    requires 1 <= n <= |fields| && |Layout(head, fields[..n], [])| > BUFFER_SIZE
    ensures m < n && |Layout(head, fields[..m+1], [])| > BUFFER_SIZE
    ensures m > 0 ==> |Layout(head, fields[..m], [])| <= BUFFER_SIZE
  {
    if n == 1 || |Layout(head, fields[..n-1], [])| <= BUFFER_SIZE {
      m := n - 1;
    } else {
      m := FirstToOverflow(head, fields, n - 1);
    }
  }

  /** Everything after a field that is cut is not seen. */
  lemma NotSeen(head: bytes, fields: seq<bytes>, n: nat)
    requires forall i :: 0 <= i < |fields| ==> IsField(fields[i])
    requires |head| < BUFFER_SIZE && 1 <= n <= |fields| && |Layout(head, fields[..n], [])| > BUFFER_SIZE
    ensures var data := Layout(head, fields, []); |Fields(data[..Min(|data|, BUFFER_SIZE)])| <= n
  {
    hide Layout, Fields;
    var m := FirstToOverflow(head, fields, n);
    if m == 0 { FirstCut(head, fields); } else { CutLayout(head, fields, m); }
  }

  /** Field number n of a line that is cut there. */
  lemma CutThere(head: bytes, fields: seq<bytes>, n: nat)
    requires forall i :: 0 <= i < |fields| ==> IsField(fields[i])
    requires 2 <= n <= |fields| && |Layout(head, fields[..n-1], [])| <= BUFFER_SIZE < |Layout(head, fields[..n], [])|
    ensures var data, part := Layout(head, fields, []), InBuffer(head, fields, n);
            Fields(data[..Min(|data|, BUFFER_SIZE)]) == fields[..n-1] + if |part| == 0 then [] else [part]
  {
    FieldEnd(head, fields, n);
    JoinStarts(fields[n-1..]);
    hide Layout, Fields, Tokens, Join;
    var k := CutSeen(head, fields, n - 1);
    CutField(fields[n-1..], k);
    assert fields[n-1..][0] == fields[n-1];
  }

  /** On a stat line of any length, field by field: number n is seen exactly when the buffer
      reaches it, and as far as the buffer reaches. */
  lemma SeenFields(head: bytes, fields: seq<bytes>, n: nat)
    requires forall i :: 0 <= i < |fields| ==> IsField(fields[i])
    requires |head| < BUFFER_SIZE && 1 <= n <= |fields|
    ensures var data, part := Layout(head, fields, []), InBuffer(head, fields, n);
            var seen := Fields(data[..Min(|data|, BUFFER_SIZE)]);
            && (n <= |seen| <==> |part| > 0)
            && (n <= |seen| ==> seen[n-1] == part)
  {
    FieldEnd(head, fields, n);
    hide Layout, Fields;
    if |Layout(head, fields[..n], [])| <= BUFFER_SIZE {
      CutLayout(head, fields, n);
      assert fields[..n][n-1] == fields[n-1];
    } else if n == 1 {
      FirstCut(head, fields);
    } else if |Layout(head, fields[..n-1], [])| <= BUFFER_SIZE {
      CutThere(head, fields, n);
    } else {
      NotSeen(head, fields, n - 1);
    }
  }

  /** The first n fields are seen as they are exactly when they fit the buffer. */
  lemma SeenWholeIff(head: bytes, fields: seq<bytes>, n: nat)
    requires forall i :: 0 <= i < |fields| ==> IsField(fields[i])
    requires |head| < BUFFER_SIZE && 1 <= n <= |fields|
    ensures var data := Layout(head, fields, []);
            fields[..n] <= Fields(data[..Min(|data|, BUFFER_SIZE)]) <==> |Layout(head, fields[..n], [])| <= BUFFER_SIZE
  {
    FieldEnd(head, fields, n);
    SeenFields(head, fields, n);
    hide Layout, Fields;
    assert fields[..n][n-1] == fields[n-1];
    if |Layout(head, fields[..n], [])| <= BUFFER_SIZE { CutLayout(head, fields, n); }
  }

  /** Nothing is seen beyond the fields. */
  lemma NothingElse(head: bytes, fields: seq<bytes>)
    requires |fields| > 0 && (forall i :: 0 <= i < |fields| ==> IsField(fields[i])) && |head| < BUFFER_SIZE
    ensures var data := Layout(head, fields, []); |Fields(data[..Min(|data|, BUFFER_SIZE)])| <= |fields|
  {
    hide Layout, Fields;
    assert fields[..|fields|] == fields;
    if |Layout(head, fields, [])| <= BUFFER_SIZE {
      CutLayout(head, fields, |fields|);
    } else {
      NotSeen(head, fields, |fields|);
    }
  }

  /** What procStat makes of a stat line of any length: it fails exactly when there is no
      field 13 or the buffer does not reach it, and otherwise takes what the buffer holds of
      fields 12, 13 and 22. */
  lemma ScanInvertsLayout(head: bytes, fields: seq<bytes>, data: bytes)
    requires |fields| > 0 && (forall i :: 0 <= i < |fields| ==> IsField(fields[i])) && |head| < BUFFER_SIZE
    requires data == Layout(head, fields, [])
    ensures var seen := Fields(data[..Min(|data|, BUFFER_SIZE)]);
            && (|seen| >= STIME_FIELD <==> |fields| >= STIME_FIELD && |InBuffer(head, fields, STIME_FIELD)| > 0)
            && forall n :: n == UTIME_FIELD || n == STIME_FIELD || n == RSS_FIELD ==>
                 FieldValue(seen, n) == if n <= |fields| then ParseFrom(InBuffer(head, fields, n), 0) else 0
  {
    hide Layout, Fields, InBuffer;
    NothingElse(head, fields);
    forall n | 1 <= n <= |fields|
      ensures var part, seen := InBuffer(head, fields, n), Fields(data[..Min(|data|, BUFFER_SIZE)]);
              (n <= |seen| <==> |part| > 0) && (n <= |seen| ==> seen[n-1] == part)
    {
      SeenFields(head, fields, n);
    }
  }

  /** A number cut short is less than the number, unless that is zero. */
  lemma CutNumber(p: nat, k: nat)
    requires k <= |Digits(p)|
    ensures ParseFrom(Digits(p)[..k], 0) == p <==> p == 0 || k == |Digits(p)|
  {
    if k == |Digits(p)| {
      ParseDigits(p, []);
      assert Digits(p)[..k] == Digits(p) + [];
    } else if p >= 10 {
      CutNumberSmall(p, k);
    } else {
      assert Digits(p)[..k] == [];
    }
  }

  lemma {:induction false} CutNumberSmall(p: nat, k: nat)
    requires k < |Digits(p)|
    ensures ParseFrom(Digits(p)[..k], 0) <= p / 10
  {
    if p < 10 {
      assert Digits(p)[..k] == [];
    } else {
      assert Digits(p)[..k] == Digits(p / 10)[..k];
      if k == |Digits(p / 10)| {
        ParseDigits(p / 10, []);
        assert Digits(p / 10)[..k] == Digits(p / 10) + [];
      } else {
        CutNumberSmall(p / 10, k);
      }
    }
  }

  /** A number the kernel printed in field 12, 13 or 22 is read back exactly when it is zero
      or its field fits the buffer. */
  lemma ScanReadsNumbers(head: bytes, fields: seq<bytes>, n: nat, p: nat)
    requires |fields| > 0 && (forall i :: 0 <= i < |fields| ==> IsField(fields[i])) && |head| < BUFFER_SIZE
    requires (n == UTIME_FIELD || n == STIME_FIELD || n == RSS_FIELD) && n <= |fields| && fields[n-1] == Digits(p)
    ensures var data := Layout(head, fields, []);
            FieldValue(Fields(data[..Min(|data|, BUFFER_SIZE)]), n) == p <==> p == 0 || |Layout(head, fields[..n], [])| <= BUFFER_SIZE
  {
    ScanInvertsLayout(head, fields, Layout(head, fields, []));
    FieldEnd(head, fields, n);
    hide Layout, Fields, Digits, ParseFrom, FieldValue, Offset;
    CutNumber(p, |InBuffer(head, fields, n)|);
  }

  /** Fields of at most 20 bytes, as the kernel's numbers are, fit after a short name. */
  lemma ShortLinesFit(head: bytes, fields: seq<bytes>)
    requires |head| <= 49 && |fields| >= RSS_FIELD && forall i :: 0 <= i < RSS_FIELD ==> |fields[i]| <= 20
    ensures |Layout(head, fields[..RSS_FIELD], [])| <= BUFFER_SIZE
  {
    JoinLength(fields[..RSS_FIELD], 0, 20);
  }

  lemma {:induction false} JoinLength(fields: seq<bytes>, least: nat, most: nat)
    requires |fields| > 0 && forall i :: 0 <= i < |fields| ==> least <= |fields[i]| <= most
    ensures |fields| * (least + 1) <= |Join(fields)| + 1 <= |fields| * (most + 1)
  {
    JoinMore(fields);
    hide Join;
    var m := |fields| - 1;
    if m > 0 {
      JoinLength(fields[..m], least, most);
      assert (m + 1) * (least + 1) == m * (least + 1) + least + 1;
      assert (m + 1) * (most + 1) == m * (most + 1) + most + 1;
    }
  }

  /** A line that goes wrong: with 10 in every field after a name of 473 bytes, field 13 is cut
      and not read as 10. */
  lemma LongNameIsMisread(head: bytes, fields: seq<bytes>)
    requires |head| == 473 && |fields| == RSS_FIELD && forall i :: 0 <= i < RSS_FIELD ==> fields[i] == Digits(10)
    ensures var data := Layout(head, fields, []);
            var seen := Fields(data[..Min(|data|, BUFFER_SIZE)]);
            FieldValue(seen, UTIME_FIELD) == 10 && FieldValue(seen, STIME_FIELD) != 10
  {
    assert Digits(10) == [49, 48] by { assert Digits(1) == [49]; }
    JoinLength(fields[..UTIME_FIELD], 2, 2);
    JoinLength(fields[..STIME_FIELD], 2, 2);
    ScanReadsNumbers(head, fields, UTIME_FIELD, 10);
    ScanReadsNumbers(head, fields, STIME_FIELD, 10);
    hide Fields, Digits, ParseFrom, FieldValue, Join;
  }

  // ---- the line of proc(5) ----

  /** The fields after the command name, from number 3 on, by their names in proc(5); the
      ones the scanner reads as numbers, the others as they are printed. */
  datatype Stat = Stat(
    state: bytes, ppid: bytes, pgrp: bytes, session: bytes, ttyNr: bytes, tpgid: bytes, flags: bytes,
    minflt: bytes, cminflt: bytes, majflt: bytes, cmajflt: bytes, utime: nat, stime: nat,
    cutime: bytes, cstime: bytes, priority: bytes, nice: bytes, numThreads: bytes, itrealvalue: bytes,
    starttime: bytes, vsize: bytes, rss: nat, others: seq<bytes>)

  function StatFields(s: Stat): (fields: seq<bytes>)
    ensures |fields| == 22 + |s.others|
  {
    [s.state, s.ppid, s.pgrp, s.session, s.ttyNr, s.tpgid, s.flags, s.minflt, s.cminflt, s.majflt, s.cmajflt,
     Digits(s.utime), Digits(s.stime), s.cutime, s.cstime, s.priority, s.nice, s.numThreads, s.itrealvalue,
     s.starttime, s.vsize, Digits(s.rss)] + s.others
  }

  /** Fields with a space before each. */
  function Spaced(fields: seq<bytes>): bytes {
    if |fields| == 0 then [] else Spaced(fields[..|fields|-1]) + [' ' as byte] + fields[|fields|-1]
  }

  /** The line of a process up to the fields: its pid and its name in parentheses. */
  function Title(pid: nat, name: bytes): bytes {
    Digits(pid) + [' ' as byte, '(' as byte] + name + [')' as byte]
  }

  function StatLine(pid: nat, name: bytes, s: Stat): bytes {
    Title(pid, name) + Spaced(StatFields(s))
  }

  lemma {:induction false} SpacedIsLayout(pid: nat, name: bytes, fields: seq<bytes>)
    requires |fields| > 0
    ensures Title(pid, name) + Spaced(fields) == Layout(Digits(pid) + [' ' as byte, '(' as byte] + name, fields, [])
  {
    hide Digits;
    SpacedIsJoin(fields);
    hide Join, Spaced;
    var head := Digits(pid) + [' ' as byte, '(' as byte] + name;
    assert Title(pid, name) + ([' ' as byte] + Join(fields)) == head + [CLOSE, SPACE] + Join(fields) + [];
  }

  lemma {:induction false} SpacedIsJoin(fields: seq<bytes>)
    requires |fields| > 0
    ensures Spaced(fields) == [' ' as byte] + Join(fields)
  {
    var n := |fields| - 1;
    JoinMore(fields);
    SpacedMore(fields);
    hide Join, Spaced;
    if n > 0 {
      SpacedIsJoin(fields[..n]);
      Associated([' ' as byte], Join(fields[..n]), [' ' as byte], fields[n]);
    }
  }

  lemma SpacedMore(fields: seq<bytes>)
    requires |fields| > 0
    ensures var n := |fields| - 1;
            Spaced(fields) == if n == 0 then [' ' as byte] + fields[0] else Spaced(fields[..n]) + [' ' as byte] + fields[n]
  {
    if |fields| == 1 { assert Spaced(fields[..0]) == []; }
  }

  lemma Associated(a: bytes, b: bytes, c: bytes, d: bytes)
    ensures a + b + c + d == a + (b + c + d)
  {}

  /** From the line of any process with any name, as far as the buffer holds the field rss, the
      scanner reads utime, stime and rss. */
  lemma ScanReadsStat(pid: nat, name: bytes, s: Stat)
    requires forall i :: 0 <= i < |StatFields(s)| ==> IsField(StatFields(s)[i])
    requires |Title(pid, name) + Spaced(StatFields(s)[..22])| <= 512
    ensures var data := StatLine(pid, name, s);
            var seen := Fields(data[..Min(|data|, 512)]);
            && |seen| >= STIME_FIELD && FieldValue(seen, UTIME_FIELD) == s.utime
            && FieldValue(seen, STIME_FIELD) == s.stime && FieldValue(seen, RSS_FIELD) == s.rss
  {
    hide Layout, Fields, Digits, ParseFrom, FieldValue, StatFields, IsField, Spaced, Title;
    var head, fields := Digits(pid) + [' ' as byte, '(' as byte] + name, StatFields(s);
    SpacedIsLayout(pid, name, fields);
    SpacedIsLayout(pid, name, fields[..22]);
    LayoutGrows(head, fields, UTIME_FIELD, RSS_FIELD);
    LayoutGrows(head, fields, STIME_FIELD, RSS_FIELD);
    HeadFits(head, fields);
    StatNumbers(s);
    SeenWholeIff(head, fields, RSS_FIELD);
    ScanReadsNumbers(head, fields, UTIME_FIELD, s.utime);
    ScanReadsNumbers(head, fields, STIME_FIELD, s.stime);
    ScanReadsNumbers(head, fields, RSS_FIELD, s.rss);
  }

  lemma StatNumbers(s: Stat)
    ensures var fields := StatFields(s);
            fields[11] == Digits(s.utime) && fields[12] == Digits(s.stime) && fields[21] == Digits(s.rss)
  {
    hide Digits;
  }

  lemma HeadFits(head: bytes, fields: seq<bytes>)
    requires |Layout(head, fields, [])| <= BUFFER_SIZE || (|fields| >= RSS_FIELD && |Layout(head, fields[..RSS_FIELD], [])| <= BUFFER_SIZE)
    ensures |head| < BUFFER_SIZE
  {}

  lemma {:induction false} LayoutGrows(head: bytes, fields: seq<bytes>, n: nat, m: nat)
    requires 1 <= n <= m <= |fields|
    ensures |Layout(head, fields[..n], [])| <= |Layout(head, fields[..m], [])|
    decreases m
  {
    if n < m {
      FieldEnd(head, fields, m);
      LayoutGrows(head, fields, n, m - 1);
      hide Layout;
    }
  }
}
