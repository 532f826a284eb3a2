/** Line and space handling of strings, as Rust's `str` methods do it. */
module Text {
  function Spaces(n: nat): (r: string)
    ensures |r| == n
  {
    seq(n, _ => ' ')
  }

  function Join(lines: seq<string>, separator: string): string {
    if lines == [] then "" else if |lines| == 1 then lines[0] else lines[0] + separator + Join(lines[1..], separator)
  }

  /** The position of the first occurrence of `c`, or the length of the string. */
  function IndexOf(s: string, c: char): (n: nat)
    ensures n <= |s| && c !in s[..n] && (n < |s| ==> s[n] == c)
  {
    if s == "" || s[0] == c then 0
    else
      var n := 1 + IndexOf(s[1..], c);
      assert s[..n] == [s[0]] + s[1..][..n - 1];
      n
  }

  lemma {:induction false} IndexOfFirst(a: string, c: char, b: string)
    requires c !in a
    ensures IndexOf(a + [c] + b, c) == |a|
  {
    if a != "" {
      IndexOfFirst(a[1..], c, b);
      assert (a + [c] + b)[1..] == a[1..] + [c] + b;
    }
  }

  lemma {:induction false} IndexOfNone(a: string, c: char)
    requires c !in a
    ensures IndexOf(a, c) == |a|
  {
  }

  /** A line without the carriage return of a CRLF ending. */
  function StripCr(line: string): string {
    if line != "" && line[|line| - 1] == '\r' then line[..|line| - 1] else line
  }

  /** `str::lines`: lines end at a newline or CRLF; a final newline starts no further line. */
  function Lines(s: string): seq<string> {
    if s == "" then []
    else
      var n := IndexOf(s, '\n');
      if n == |s| then [s] else [StripCr(s[..n])] + Lines(s[n + 1..])
  }

  /** A line of text: it holds no newline, and its end is not taken for part of a line break. */
  ghost predicate IsLine(s: string) {
    '\n' !in s && (s != "" ==> s[|s| - 1] != '\r')
  }

  lemma {:induction false} LinesStep(head: string, rest: string)
    requires '\n' !in head
    ensures Lines(head + "\n" + rest) == [StripCr(head)] + Lines(rest)
  {
    var s := head + "\n" + rest;
    IndexOfFirst(head, '\n', rest);
    assert s == head + ['\n'] + rest;
    assert s[..|head|] == head && s[|head| + 1..] == rest;
  }

  /** Joined lines are split into the same lines, unless the last is empty. */
  lemma {:induction false} LinesOfJoin(lines: seq<string>)
    requires forall line | line in lines :: IsLine(line)
    requires lines != [] ==> lines[|lines| - 1] != ""
    ensures Lines(Join(lines, "\n")) == lines
    decreases |lines|
  {
    if lines != [] {
      assert lines[0] in lines && IsLine(lines[0]);
      assert [lines[0]] + lines[1..] == lines;
      if |lines| == 1 {
        LinesOfOne(lines[0]);
      } else {
        LinesOfJoin(lines[1..]);
        LinesStep(lines[0], Join(lines[1..], "\n"));
      }
    }
  }

  lemma {:induction false} LinesOfOne(line: string)
    requires IsLine(line) && line != ""
    ensures Lines(line) == [line]
  {
    IndexOfNone(line, '\n');
  }

  lemma {:induction false} JoinAppend(a: seq<string>, b: seq<string>, separator: string)
    requires a != [] && b != []
    ensures Join(a + b, separator) == Join(a, separator) + separator + Join(b, separator)
    decreases |a|
  {
    if |a| == 1 {
      assert (a + b)[1..] == b;
    } else {
      assert (a + b)[1..] == a[1..] + b;
      JoinAppend(a[1..], b, separator);
      var x, y, z := a[0] + separator, Join(a[1..], separator), separator + Join(b, separator);
      assert x + (y + z) == x + y + z;
    }
  }

  /** The Unicode White_Space characters, as `char::is_whitespace`. */
  predicate IsWhitespace(c: char) {
    var n := c as int;
    || 9 <= n <= 13 || n == 32 || n == 0x85 || n == 0xA0 || n == 0x1680 || 0x2000 <= n <= 0x200A
    || n == 0x2028 || n == 0x2029 || n == 0x202F || n == 0x205F || n == 0x3000
  }

  function TrimStart(s: string): (r: string)
    ensures r != "" ==> !IsWhitespace(r[0])
  {
    if s != "" && IsWhitespace(s[0]) then TrimStart(s[1..]) else s
  }

  function TrimEnd(s: string): (r: string)
    ensures r <= s
    ensures r != "" ==> !IsWhitespace(r[|r| - 1])
  {
    if s != "" && IsWhitespace(s[|s| - 1]) then TrimEnd(s[..|s| - 1]) else s
  }

  function Trim(s: string): string {
    TrimEnd(TrimStart(s))
  }

  lemma {:induction false} TrimStartAppend(a: string, b: string)
    ensures TrimStart(a + b) == if TrimStart(a) == "" then TrimStart(b) else TrimStart(a) + b
  {
    if a == "" {
      assert a + b == b;
    } else if IsWhitespace(a[0]) {
      TrimStartAppend(a[1..], b);
      assert (a + b)[1..] == a[1..] + b;
    }
  }

  lemma {:induction false} TrimEndKeeps(s: string, i: nat)
    requires i < |s| && !IsWhitespace(s[i])
    ensures i < |TrimEnd(s)|
  {
    if IsWhitespace(s[|s| - 1]) {
      TrimEndKeeps(s[..|s| - 1], i);
    }
  }

  lemma {:induction false} TrimIsEmptyIff(s: string)
    ensures Trim(s) == "" <==> TrimStart(s) == ""
  {
    if TrimStart(s) != "" {
      TrimEndKeeps(TrimStart(s), 0);
    }
  }

  lemma {:induction false} IndexOfInPrefix(p: string, s: string, c: char)
    requires p <= s && IndexOf(s, c) < |p|
    ensures IndexOf(p, c) == IndexOf(s, c)
  {
    var n := IndexOf(s, c);
    assert p[..n] == s[..n] && p == p[..n] + [c] + p[n + 1..];
    IndexOfFirst(p[..n], c, p[n + 1..]);
  }

  /** A suffix does not move the first occurrence. */
  lemma {:induction false} IndexOfExtended(s: string, c: char, rest: string)
    requires IndexOf(s, c) < |s|
    ensures var n := IndexOf(s, c);
      IndexOf(s + rest, c) == n && (s + rest)[..n] == s[..n] && (s + rest)[n + 1..] == s[n + 1..] + rest
  {
    var n := IndexOf(s, c);
    assert s == s[..n] + [c] + s[n + 1..];
    assert s + rest == s[..n] + [c] + (s[n + 1..] + rest);
    IndexOfFirst(s[..n], c, s[n + 1..] + rest);
  }

  lemma {:induction false} ConcatAssoc<T>(a: seq<T>, b: seq<T>, c: seq<T>)
    ensures a + b + c == a + (b + c)
  {
  }
}
