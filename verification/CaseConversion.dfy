/** Snake and Pascal case of ASCII names, as the code generator converts them. */
module CaseConversion {
  ghost predicate Ascii(s: string) {
    forall i | 0 <= i < |s| :: s[i] < 128 as char
  }

  predicate IsUpper(c: char) { 'A' <= c <= 'Z' }

  predicate IsLower(c: char) { 'a' <= c <= 'z' }

  predicate IsSeparator(c: char) { c == '_' || c == '-' || c == ' ' }

  function ToLower(c: char): char {
    if IsUpper(c) then (c as int + 32) as char else c
  }

  function ToUpper(c: char): char {
    if IsLower(c) then (c as int - 32) as char else c
  }

  function SnakeChar(c: char, first: bool): string {
    if IsUpper(c) then (if first then "" else "_") + [ToLower(c)]
    else if c == '-' || c == ' ' then "_"
    else [c]
  }

  function Snake(s: string, first: bool): string {
    if s == "" then "" else SnakeChar(s[0], first) + Snake(s[1..], false)
  }

  function ToSnakeCase(s: string): string {
    Snake(s, true)
  }

  method ToSnakeCaseLoop(input: string) returns (out: string)
    ensures out == ToSnakeCase(input)
  {
    out := "";
    for i := 0 to |input|
      invariant ToSnakeCase(input) == out + Snake(input[i..], i == 0)
    {
      var ch := input[i];
      assert ToSnakeCase(input) == out + SnakeChar(ch, i == 0) + Snake(input[i + 1..], false) by {
        var rest := input[i..];
        assert rest[0] == ch && rest[1..] == input[i + 1..];
        assert out + (SnakeChar(ch, i == 0) + Snake(rest[1..], false))
          == out + SnakeChar(ch, i == 0) + Snake(rest[1..], false);
      }
      var printed: string := [];
      if IsUpper(ch) {
        if i != 0 {
          printed := printed + ['_'];
        }
        printed := printed + [ToLower(ch)];
      } else if ch == '-' || ch == ' ' {
        printed := printed + ['_'];
      } else {
        printed := printed + [ch];
      }
      assert printed == SnakeChar(ch, i == 0);
      out := out + printed;
    }
  }

  /** The parts between separators, empty ones included; always at least one. */
  function SplitParts(s: string): (r: seq<string>)
    ensures r != []
  {
    if s == "" then [""]
    else
      var rest := SplitParts(s[1..]);
      if IsSeparator(s[0]) then [""] + rest else [[s[0]] + rest[0]] + rest[1..]
  }

  function Capitalize(part: string): string {
    if part == "" then "" else [ToUpper(part[0])] + part[1..]
  }

  function CapitalizeAll(parts: seq<string>): string {
    if parts == [] then "" else Capitalize(parts[0]) + CapitalizeAll(parts[1..])
  }

  function ToPascalCase(s: string): string {
    CapitalizeAll(SplitParts(s))
  }

  /** The same conversion in one pass: separators vanish and the character after one is capitalised. */
  function Pascal(s: string, start: bool): string {
    if s == "" then ""
    else if IsSeparator(s[0]) then Pascal(s[1..], true)
    else [if start then ToUpper(s[0]) else s[0]] + Pascal(s[1..], false)
  }

  /** `CapitalizeAll` with the first part left as it is. */
  function CapitalizeRest(parts: seq<string>): string
    requires parts != []
  {
    parts[0] + CapitalizeAll(parts[1..])
  }

  lemma {:induction false} ExtendFirstPart(c: char, parts: seq<string>)
    requires parts != []
    ensures CapitalizeAll([[c] + parts[0]] + parts[1..]) == [ToUpper(c)] + CapitalizeRest(parts)
    ensures CapitalizeRest([[c] + parts[0]] + parts[1..]) == [c] + CapitalizeRest(parts)
  {
    var part, tail := [c] + parts[0], CapitalizeAll(parts[1..]);
    assert ([part] + parts[1..])[1..] == parts[1..];
    assert part[1..] == parts[0];
    assert [ToUpper(c)] + parts[0] + tail == [ToUpper(c)] + (parts[0] + tail);
    assert [c] + parts[0] + tail == [c] + (parts[0] + tail);
  }

  lemma {:induction false} PascalInOnePass(s: string)
    ensures CapitalizeAll(SplitParts(s)) == Pascal(s, true)
    ensures CapitalizeRest(SplitParts(s)) == Pascal(s, false)
  {
    if s != "" {
      PascalInOnePass(s[1..]);
      var rest := SplitParts(s[1..]);
      if IsSeparator(s[0]) {
        assert ([""] + rest)[1..] == rest;
      } else {
        ExtendFirstPart(s[0], rest);
      }
    }
  }

  ghost predicate NoSeparators(s: string) {
    forall i | 0 <= i < |s| :: !IsSeparator(s[i])
  }

  lemma {:induction false} PascalHasNoSeparators(s: string, start: bool)
    ensures NoSeparators(Pascal(s, start))
  {
    if s != "" {
      PascalHasNoSeparators(s[1..], IsSeparator(s[0]));
    }
  }

  lemma {:induction false} PascalUndoesSnake(p: string)
    requires NoSeparators(p)
    ensures Pascal(Snake(p, false), false) == p
  {
    if p != "" {
      PascalUndoesSnake(p[1..]);
      PascalOfSnakeChar(p[0], false, Snake(p[1..], false));
    }
  }

  /** What one converted character turns back into. */
  lemma {:induction false} PascalOfSnakeChar(c: char, first: bool, rest: string)
    requires !IsSeparator(c) && (first ==> !IsLower(c))
    ensures Pascal(SnakeChar(c, first) + rest, first) == [c] + Pascal(rest, false)
  {
    var tail := [ToLower(c)] + rest;
    assert tail[1..] == rest;
    if IsUpper(c) {
      if first {
        assert SnakeChar(c, first) + rest == tail;
      } else {
        assert (SnakeChar(c, first) + rest)[1..] == tail;
        assert Pascal(SnakeChar(c, first) + rest, first) == Pascal(tail, true);
      }
    }
  }

  /**
   Pascal case undoes snake case exactly on the names without separators that do not start with a lowercase letter.
   */
  lemma {:induction false} PascalOfSnakeIff(p: string)
    requires Ascii(p)
    ensures ToPascalCase(ToSnakeCase(p)) == p <==> NoSeparators(p) && (p == "" || !IsLower(p[0]))
  {
    PascalInOnePass(ToSnakeCase(p));
    PascalHasNoSeparators(ToSnakeCase(p), true);
    if NoSeparators(p) && p != "" {
      PascalUndoesSnake(p[1..]);
      if !IsLower(p[0]) {
        PascalOfSnakeChar(p[0], true, Snake(p[1..], false));
      } else {
        assert Snake(p, true)[0] == p[0];
        assert Pascal(Snake(p, true), true)[0] == ToUpper(p[0]);
      }
    }
  }

  ghost predicate NoUpper(s: string) {
    forall i | 0 <= i < |s| :: !IsUpper(s[i])
  }

  lemma {:induction false} SnakeIsLower(s: string, first: bool)
    ensures NoUpper(Snake(s, first))
    ensures forall i | 0 <= i < |Snake(s, first)| :: Snake(s, first)[i] != '-' && Snake(s, first)[i] != ' '
  {
    if s != "" {
      SnakeIsLower(s[1..], false);
    }
  }

  lemma {:induction false} SnakeKeepsSnake(s: string, first: bool)
    requires NoUpper(s) && forall i | 0 <= i < |s| :: s[i] != '-' && s[i] != ' '
    ensures Snake(s, first) == s
  {
    if s != "" {
      SnakeKeepsSnake(s[1..], false);
    }
  }

  lemma {:induction false} SnakeIsIdempotent(s: string)
    ensures ToSnakeCase(ToSnakeCase(s)) == ToSnakeCase(s)
  {
    SnakeIsLower(s, true);
    SnakeKeepsSnake(ToSnakeCase(s), true);
  }

  // ---------------------------------------------------------------- snake case after Pascal case

  /** No capitals or other separators, and every underscore is followed by a lowercase letter. */
  ghost predicate IsTail(t: string)
    decreases |t|
  {
    t == ""
    || (t[0] == '_' && |t| > 1 && IsLower(t[1]) && IsTail(t[2..]))
    || (!IsSeparator(t[0]) && !IsUpper(t[0]) && IsTail(t[1..]))
  }

  /** Lowercase words joined by single underscores, each word after the first starting with a letter. */
  ghost predicate IsSnakeName(s: string) {
    s == "" || (!IsSeparator(s[0]) && !IsUpper(s[0]) && IsTail(s[1..]))
  }

  lemma {:induction false} RoundIsShort(t: string, start: bool)
    requires NoUpper(t)
    ensures |Snake(Pascal(t, start), false)| <= |t| + if start then 1 else 0
  {
    if t != "" {
      RoundIsShort(t[1..], IsSeparator(t[0]));
      if !IsSeparator(t[0]) {
        var c := if start then ToUpper(t[0]) else t[0];
        assert Pascal(t, start)[1..] == Pascal(t[1..], false);
      }
    }
  }

  lemma {:induction false} TailRoundTrips(t: string)
    requires NoUpper(t)
    ensures Snake(Pascal(t, false), false) == t <==> IsTail(t)
    decreases |t|
  {
    if t != "" {
      if t[0] == '_' && |t| > 1 && IsLower(t[1]) {
        TailRoundTrips(t[2..]);
        var rest := Pascal(t[2..], false);
        assert t[1..][1..] == t[2..];
        assert Pascal(t, false) == [ToUpper(t[1])] + rest;
        assert ([ToUpper(t[1])] + rest)[1..] == rest;
        assert Snake(Pascal(t, false), false) == "_" + [t[1]] + Snake(rest, false);
        assert t == "_" + [t[1]] + t[2..];
      } else if !IsSeparator(t[0]) {
        TailRoundTrips(t[1..]);
        var rest := Pascal(t[1..], false);
        assert ([t[0]] + rest)[1..] == rest;
        assert Snake(Pascal(t, false), false) == [t[0]] + Snake(rest, false);
      } else {
        SeparatorIsLost(t);
      }
    }
  }

  /** A separator not followed by a lowercase letter does not come back. */
  lemma {:induction false} SeparatorIsLost(t: string)
    requires NoUpper(t) && t != "" && IsSeparator(t[0]) && !(t[0] == '_' && |t| > 1 && IsLower(t[1]))
    ensures Snake(Pascal(t, false), false) != t
  {
    var u := t[1..];
    if u != "" {
      if IsSeparator(u[0]) {
        RoundIsShort(u[1..], true);
      } else {
        assert Pascal(u, true)[0] == ToUpper(u[0]);
        SnakeIsLower(Pascal(t, false), false);
        if !IsLower(u[0]) {
          assert Snake(Pascal(t, false), false)[0] == u[0];
        }
      }
    }
  }

  /** Snake case undoes Pascal case exactly on snake names. */
  lemma {:induction false} SnakeOfPascalIff(s: string)
    requires Ascii(s)
    ensures ToSnakeCase(ToPascalCase(s)) == s <==> IsSnakeName(s)
  {
    PascalInOnePass(s);
    SnakeIsLower(ToPascalCase(s), true);
    if s != "" && !NoUpper(s) {
      TailHasNoUpper(s[1..]);
    } else if s != "" && IsSeparator(s[0]) {
      LeadingSeparatorIsLost(s);
    } else if s != "" {
      NameRoundTrips(s);
    }
  }

  lemma {:induction false} NameRoundTrips(s: string)
    requires s != "" && NoUpper(s) && !IsSeparator(s[0])
    ensures Snake(Pascal(s, true), true) == s <==> IsTail(s[1..])
  {
    TailRoundTrips(s[1..]);
    var rest := Pascal(s[1..], false);
    assert Pascal(s, true) == [ToUpper(s[0])] + rest;
    assert Pascal(s, true)[1..] == rest;
    assert Snake(Pascal(s, true), true) == [s[0]] + Snake(rest, false);
    assert s == [s[0]] + s[1..];
    assert ([s[0]] + Snake(rest, false))[1..] == Snake(rest, false);
  }

  lemma {:induction false} TailHasNoUpper(t: string)
    ensures IsTail(t) ==> NoUpper(t)
    decreases |t|
  {
    if t != "" {
      TailHasNoUpper(t[1..]);
      if |t| > 1 {
        TailHasNoUpper(t[2..]);
        assert t == [t[0], t[1]] + t[2..];
      }
    }
  }

  lemma {:induction false} LeadingSeparatorIsLost(s: string)
    requires s != "" && IsSeparator(s[0])
    ensures ToSnakeCase(Pascal(s, true)) != s
  {
    var p := Pascal(s, true);
    PascalHasNoSeparators(s, true);
    if p != "" {
      assert ToSnakeCase(p)[0] == ToLower(p[0]);
    }
  }
}
