/** Does a migration script contain anything besides whitespace and comments? */
module SqlScanner {
  import opened Prelude
  import opened Text

  /** What follows the line break that ends a line comment. */
  function AfterLine(s: string): (r: string)
    ensures |r| <= |s|
  {
    if s == "" then "" else if s[0] == '\n' then s[1..] else AfterLine(s[1..])
  }

  /** What follows the star and slash that end a block comment; nothing follows an unterminated one. */
  function AfterBlock(s: string): (r: string)
    ensures |r| <= |s|
  {
    if s == "" then "" else if "*/" <= s then s[2..] else AfterBlock(s[1..])
  }

  /** The script without its `--` and non-nesting block comments. */
  function WithoutComments(s: string): string
    decreases |s|
  {
    if s == "" then ""
    else if "--" <= s then WithoutComments(AfterLine(s[2..]))
    else if "/*" <= s then WithoutComments(AfterBlock(s[2..]))
    else [s[0]] + WithoutComments(s[1..])
  }

  predicate HasSql(s: string) {
    exists i :: 0 <= i < |WithoutComments(s)| && !IsWhitespace(WithoutComments(s)[i])
  }

  lemma {:induction false} VisibleCharacter(s: string)
    requires s != "" && !("--" <= s) && !("/*" <= s)
    ensures HasSql(s) <==> !IsWhitespace(s[0]) || HasSql(s[1..])
  {
    var rest := WithoutComments(s[1..]);
    var all := WithoutComments(s);
    assert all == [s[0]] + rest;
    if !IsWhitespace(s[0]) {
      assert !IsWhitespace(all[0]);
    }
    if i :| 0 <= i < |rest| && !IsWhitespace(rest[i]) {
      assert !IsWhitespace(all[i + 1]);
    }
  }

  /** What the scanner still has to decide, given its two flags and the characters it has not read. */
  ghost predicate Remaining(inLine: bool, inBlock: bool, rest: string) {
    HasSql(if inLine then AfterLine(rest) else if inBlock then AfterBlock(rest) else rest)
  }

  method ContainsSqlContent(sql: string) returns (found: bool)
    ensures found <==> HasSql(sql)
  {
    var i, inLine, inBlock := 0, false, false;
    assert sql[0..] == sql;
    while i < |sql|
      invariant i <= |sql| && !(inLine && inBlock)
      invariant HasSql(sql) <==> Remaining(inLine, inBlock, sql[i..])
    {
      ghost var rest := sql[i..];
      var ch := sql[i];
      assert rest[0] == ch && rest[1..] == sql[i + 1..];
      var peek := if i + 1 < |sql| then Some(sql[i + 1]) else None;
      if peek.Some? {
        assert rest[1] == peek.value && rest[2..] == sql[i + 2..];
      }
      assert "--" <= rest <==> ch == '-' && peek == Some('-');
      assert "/*" <= rest <==> ch == '/' && peek == Some('*');
      assert "*/" <= rest <==> ch == '*' && peek == Some('/');
      i := i + 1;
      if inLine {
        if ch == '\n' {
          inLine := false;
        }
      } else if inBlock {
        if ch == '*' && peek == Some('/') {
          i := i + 1;
          inBlock := false;
        }
      } else if ch == '-' && peek == Some('-') {
        i := i + 1;
        inLine := true;
        assert WithoutComments(rest) == WithoutComments(AfterLine(sql[i..]));
      } else if ch == '/' && peek == Some('*') {
        i := i + 1;
        inBlock := true;
        assert WithoutComments(rest) == WithoutComments(AfterBlock(sql[i..]));
      } else {
        VisibleCharacter(rest);
        if !IsWhitespace(ch) {
          return true;
        }
      }
    }
    return false;
  }

  // ---------------------------------------------------------------- what a script without content looks like

  /** A space, a line comment with its line break, or a block comment with its end. */
  datatype Piece = Space(c: char) | LineComment(text: string) | BlockComment(text: string)

  /** How a script can end: after a whole piece, or within a comment. */
  datatype Ending = Whole | OpenLine(text: string) | OpenBlock(text: string)

  function Write(p: Piece): string {
    match p
    case Space(c) => [c]
    case LineComment(text) => "--" + (text + "\n")
    case BlockComment(text) => "/*" + (text + "*/")
  }

  function WriteEnding(e: Ending): string {
    match e
    case Whole => ""
    case OpenLine(text) => "--" + text
    case OpenBlock(text) => "/*" + text
  }

  function WriteAll(pieces: seq<Piece>, ending: Ending): string {
    if pieces == [] then WriteEnding(ending) else Write(pieces[0]) + WriteAll(pieces[1..], ending)
  }

  ghost predicate HoldsNoEnd(text: string) {
    forall i | 0 <= i < |text| - 1 :: !(text[i] == '*' && text[i + 1] == '/')
  }

  ghost predicate IsPiece(p: Piece) {
    match p
    case Space(c) => IsWhitespace(c)
    case LineComment(text) => '\n' !in text
    case BlockComment(text) => HoldsNoEnd(text)
  }

  ghost predicate IsEnding(e: Ending) {
    match e
    case Whole => true
    case OpenLine(text) => '\n' !in text
    case OpenBlock(text) => HoldsNoEnd(text)
  }

  ghost predicate AreBlank(pieces: seq<Piece>, ending: Ending) {
    (forall i | 0 <= i < |pieces| :: IsPiece(pieces[i])) && IsEnding(ending)
  }

  lemma {:induction false} LineEnds(text: string, rest: string)
    requires '\n' !in text
    ensures AfterLine(text) == "" && AfterLine(text + "\n" + rest) == rest
  {
    if text != "" {
      LineEnds(text[1..], rest);
      assert (text + "\n" + rest)[1..] == text[1..] + "\n" + rest;
    } else {
      assert ("" + "\n" + rest)[1..] == rest;
    }
  }

  lemma {:induction false} BlockEnds(text: string, rest: string)
    requires HoldsNoEnd(text)
    ensures AfterBlock(text) == "" && AfterBlock(text + "*/" + rest) == rest
  {
    var all := text + "*/" + rest;
    if text == "" {
      assert all == "*/" + rest && all[2..] == rest;
    } else {
      assert HoldsNoEnd(text[1..]) by {
        assert forall i | 0 <= i < |text| - 1 :: text[1..][i] == text[i + 1];
      }
      BlockEnds(text[1..], rest);
      assert all[1..] == text[1..] + "*/" + rest;
      assert all[0] == text[0] && all[1] == if |text| > 1 then text[1] else '*';
    }
  }

  lemma {:induction false} SkipsLine(text: string)
    ensures WithoutComments("--" + text) == WithoutComments(AfterLine(text))
  {
    var s := "--" + text;
    assert s[0] == '-' && s[1] == '-' && s[2..] == text;
  }

  lemma {:induction false} SkipsBlock(text: string)
    ensures WithoutComments("/*" + text) == WithoutComments(AfterBlock(text))
  {
    var s := "/*" + text;
    assert s[0] == '/' && s[1] == '*' && s[2..] == text;
  }

  lemma {:induction false} SpaceIsBlank(c: char, rest: string)
    requires IsWhitespace(c)
    ensures HasSql([c] + rest) <==> HasSql(rest)
  {
    var s := [c] + rest;
    assert c as int != '-' as int && c as int != '/' as int;
    assert s[0] == c && s[1..] == rest && "--"[0] == '-' && "/*"[0] == '/';
    VisibleCharacter(s);
  }

  lemma {:induction false} LineIsBlank(text: string, rest: string)
    requires '\n' !in text
    ensures HasSql("--" + (text + "\n") + rest) <==> HasSql(rest)
  {
    LineEnds(text, rest);
    SkipsLine(text + "\n" + rest);
    assert "--" + (text + "\n") + rest == "--" + (text + "\n" + rest);
  }

  lemma {:induction false} BlockIsBlank(text: string, rest: string)
    requires HoldsNoEnd(text)
    ensures HasSql("/*" + (text + "*/") + rest) <==> HasSql(rest)
  {
    BlockEnds(text, rest);
    SkipsBlock(text + "*/" + rest);
    assert "/*" + (text + "*/") + rest == "/*" + (text + "*/" + rest);
  }

  /** A piece in front of a script does not matter. */
  lemma {:induction false} PieceIsBlank(p: Piece, rest: string)
    requires IsPiece(p)
    ensures HasSql(Write(p) + rest) <==> HasSql(rest)
  {
    match p
    case Space(c) =>
      SpaceIsBlank(c, rest);
    case LineComment(text) =>
      LineIsBlank(text, rest);
    case BlockComment(text) =>
      BlockIsBlank(text, rest);
  }

  lemma {:induction false} EndingIsBlank(e: Ending)
    requires IsEnding(e)
    ensures !HasSql(WriteEnding(e))
  {
    assert WithoutComments("") == "";
    match e
    case Whole =>
    case OpenLine(text) =>
      LineEnds(text, "");
      SkipsLine(text);
    case OpenBlock(text) =>
      BlockEnds(text, "");
      SkipsBlock(text);
  }

  lemma {:induction false} PiecesAreBlank(pieces: seq<Piece>, ending: Ending)
    requires AreBlank(pieces, ending)
    ensures !HasSql(WriteAll(pieces, ending))
    decreases |pieces|
  {
    if pieces == [] {
      EndingIsBlank(ending);
    } else {
      PiecesAreBlank(pieces[1..], ending);
      PieceIsBlank(pieces[0], WriteAll(pieces[1..], ending));
    }
  }

  /** The text of a line comment and whether its line ends. */
  lemma {:induction false} SplitLine(s: string) returns (text: string, ended: bool)
    ensures '\n' !in text && s == if ended then text + "\n" + AfterLine(s) else text
  {
    if s == "" {
      text, ended := "", false;
    } else if s[0] == '\n' {
      text, ended := "", true;
    } else {
      text, ended := SplitLine(s[1..]);
      assert s == [s[0]] + s[1..];
      assert ended ==> s == ([s[0]] + text) + "\n" + AfterLine(s);
      text := [s[0]] + text;
    }
  }

  lemma {:induction false} SplitBlock(s: string) returns (text: string, ended: bool)
    ensures HoldsNoEnd(text) && s == if ended then text + "*/" + AfterBlock(s) else text
  {
    if s == "" {
      text, ended := "", false;
    } else if "*/" <= s {
      text, ended := "", true;
    } else {
      text, ended := SplitBlock(s[1..]);
      assert s == [s[0]] + s[1..];
      assert ended ==> s == ([s[0]] + text) + "*/" + AfterBlock(s);
      assert HoldsNoEnd([s[0]] + text) by {
        assert |text| > 0 ==> text[0] == s[1];
        assert forall i | 0 < i < |text| :: ([s[0]] + text)[i] == text[i - 1];
      }
      text := [s[0]] + text;
    }
  }

  lemma {:induction false} FirstLine(s: string) returns (first: Option<Piece>, rest: string, ending: Ending)
    requires "--" <= s
    ensures Starts(s, first, rest, ending)
  {
    assert s == "--" + s[2..];
    var text, ended := SplitLine(s[2..]);
    if ended {
      first, rest, ending := Some(LineComment(text)), AfterLine(s[2..]), Whole;
      assert "--" + (text + "\n" + rest) == "--" + (text + "\n") + rest;
    } else {
      first, rest, ending := None, "", OpenLine(text);
    }
  }

  lemma {:induction false} FirstBlock(s: string) returns (first: Option<Piece>, rest: string, ending: Ending)
    requires "/*" <= s
    ensures Starts(s, first, rest, ending)
  {
    assert s == "/*" + s[2..];
    var text, ended := SplitBlock(s[2..]);
    if ended {
      first, rest, ending := Some(BlockComment(text)), AfterBlock(s[2..]), Whole;
      assert "/*" + (text + "*/" + rest) == "/*" + (text + "*/") + rest;
    } else {
      first, rest, ending := None, "", OpenBlock(text);
    }
  }

  /** The script starts with a piece, or is an ending. */
  ghost predicate Starts(s: string, first: Option<Piece>, rest: string, ending: Ending) {
    match first
    case Some(p) => IsPiece(p) && s == Write(p) + rest && |rest| < |s|
    case None => IsEnding(ending) && s == WriteEnding(ending)
  }

  lemma {:induction false} FirstPiece(s: string) returns (first: Option<Piece>, rest: string, ending: Ending)
    requires !HasSql(s)
    ensures Starts(s, first, rest, ending)
  {
    if s == "" {
      first, rest, ending := None, "", Whole;
    } else if "--" <= s {
      first, rest, ending := FirstLine(s);
    } else if "/*" <= s {
      first, rest, ending := FirstBlock(s);
    } else {
      VisibleCharacter(s);
      first, rest, ending := Some(Space(s[0])), s[1..], Whole;
      assert s == [s[0]] + s[1..];
    }
  }

  lemma {:induction false} BlankIsPieces(s: string) returns (pieces: seq<Piece>, ending: Ending)
    requires !HasSql(s)
    ensures AreBlank(pieces, ending) && s == WriteAll(pieces, ending)
    decreases |s|
  {
    var first, rest, last := FirstPiece(s);
    if first.None? {
      return [], last;
    }
    PieceIsBlank(first.value, rest);
    pieces, ending := BlankIsPieces(rest);
    assert ([first.value] + pieces)[1..] == pieces;
    pieces := [first.value] + pieces;
  }

  /**
   A script is found empty if and only if it is written as spaces, line comments and block comments, of which the last
   may be unfinished.
   */
  lemma {:induction false} EmptyIff(s: string)
    ensures !HasSql(s) <==> exists pieces, ending :: AreBlank(pieces, ending) && s == WriteAll(pieces, ending)
  {
    if !HasSql(s) {
      var pieces, ending := BlankIsPieces(s);
    }
    forall pieces, ending | AreBlank(pieces, ending) && s == WriteAll(pieces, ending)
      ensures !HasSql(s)
    {
      PiecesAreBlank(pieces, ending);
    }
  }
}
