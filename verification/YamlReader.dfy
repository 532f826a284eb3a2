/**
 A line reader for the block style of YAML 1.2.2 (sections 7.3.1 and 8.2): entries of a collection share a column and
 deeper lines belong to the entry above them. What the printer writes, it reads back.
 */
module YamlReader {
  import opened Prelude
  import opened Text
  import opened YamlPrinter

  // ---------------------------------------------------------------- scalars

  /** The content of a double-quoted scalar; fails on a lone quote or an unknown escape. */
  function Unescape(s: string): Option<string> {
    if s == "" then Some("")
    else if s[0] == '\\' then
      if |s| > 1 && (s[1] == '\\' || s[1] == '"') then Prepend(s[1], Unescape(s[2..])) else None
    else if s[0] == '"' then None
    else Prepend(s[0], Unescape(s[1..]))
  }

  function Prepend(c: char, rest: Option<string>): Option<string> {
    if rest.Some? then Some([c] + rest.value) else None
  }

  function ReadScalar(t: string): Option<Value> {
    if t == "null" then Some(Null)
    else if t == "true" then Some(Bool(true))
    else if t == "false" then Some(Bool(false))
    else if IsNumberLiteral(t) then Some(Number(t))
    else if |t| >= 2 && t[0] == '"' && t[|t| - 1] == '"' then
      var text := Unescape(t[1..|t| - 1]);
      if text.Some? then Some(Value.Text(text.value)) else None
    else None
  }

  lemma {:induction false} ReplaceAppend(a: string, b: string, c: char, to: string)
    ensures Replace(a + b, c, to) == Replace(a, c, to) + Replace(b, c, to)
  {
    if a == "" {
      assert a + b == b;
    } else {
      assert (a + b)[1..] == a[1..] + b;
      ReplaceAppend(a[1..], b, c, to);
    }
  }

  lemma {:induction false} EscapeOne(c: char)
    ensures EscapeYamlString([c]) == if c == '\\' then "\\\\" else if c == '"' then "\\\"" else [c]
  {
    if c == '\\' {
      assert Replace([c], '\\', "\\\\") == "\\\\";
      assert Replace("\\\\", '"', "\\\"") == "\\\\";
    } else {
      assert Replace([c], '\\', "\\\\") == [c];
      assert Replace([c], '"', "\\\"") == if c == '"' then "\\\"" else [c];
    }
  }

  /** The two replacements in sequence escape character by character, so unescaping undoes them. */
  lemma {:induction false} UnescapeUndoesEscape(s: string)
    ensures Unescape(EscapeYamlString(s)) == Some(s)
  {
    if s != "" {
      UnescapeUndoesEscape(s[1..]);
      assert s == [s[0]] + s[1..];
      ReplaceAppend([s[0]], s[1..], '\\', "\\\\");
      ReplaceAppend(Replace([s[0]], '\\', "\\\\"), Replace(s[1..], '\\', "\\\\"), '"', "\\\"");
      EscapeOne(s[0]);
      var e := EscapeYamlString(s[1..]);
      assert EscapeYamlString(s) == EscapeYamlString([s[0]]) + e;
      if s[0] == '\\' {
        assert ("\\\\" + e)[2..] == e;
      } else if s[0] == '"' {
        assert ("\\\"" + e)[2..] == e;
      } else {
        assert ([s[0]] + e)[1..] == e;
      }
    }
  }

  lemma {:induction false} ScalarReadsBack(v: Value)
    requires !IsContainer(v)
    ensures ReadScalar(Scalar(v)) == Some(v)
  {
    if v.Text? {
      var e := EscapeYamlString(v.text);
      var t := Scalar(v);
      assert t == "\"" + e + "\"" && t[1..|t| - 1] == e && t[0] == '"';
      UnescapeUndoesEscape(v.text);
    }
  }

  /** A quote after a space is never part of a quoted scalar's content: the space cannot have escaped it. */
  lemma {:induction false} SpaceQuoteIsNotContent(p: string, q: string)
    ensures Unescape(p + " \"" + q).None?
    decreases |p|
  {
    var s := p + " \"" + q;
    if p == "" {
      assert s[1..] == "\"" + q;
    } else if p[0] == '\\' {
      if |p| > 1 {
        assert s[2..] == p[2..] + " \"" + q;
        SpaceQuoteIsNotContent(p[2..], q);
      }
    } else {
      assert s[1..] == p[1..] + " \"" + q;
      SpaceQuoteIsNotContent(p[1..], q);
    }
  }

  // ---------------------------------------------------------------- lines

  function LeadingSpaces(s: string): (n: nat)
    ensures n <= |s| && (n < |s| ==> s[n] != ' ')
  {
    if s == "" || s[0] != ' ' then 0 else 1 + LeadingSpaces(s[1..])
  }

  function ParseLine(s: string): Line {
    Line(LeadingSpaces(s), s[LeadingSpaces(s)..])
  }

  function ParseLines(ls: seq<string>): seq<Line> {
    if ls == [] then [] else [ParseLine(ls[0])] + ParseLines(ls[1..])
  }

  lemma {:induction false} ParseRendered(n: nat, t: string)
    requires t != "" && t[0] != ' '
    ensures ParseLine(Spaces(n) + t) == Line(n, t)
  {
    var s := Spaces(n) + t;
    if n == 0 {
      assert s == t;
    } else {
      ParseRendered(n - 1, t);
      assert s[1..] == Spaces(n - 1) + t;
      assert s[n..] == t;
    }
  }

  /** Every line's text starts where its indentation ends. */
  ghost predicate Flush(ls: seq<Line>) {
    forall i | 0 <= i < |ls| :: ls[i].text != "" && ls[i].text[0] != ' '
  }

  lemma {:induction false} ParseUndoesRender(ls: seq<Line>)
    requires Flush(ls)
    ensures ParseLines(RenderFrom(ls, 0)) == ls
    decreases |ls|
  {
    if ls != [] {
      assert ls[0].text != "" && ls[0].text[0] != ' ';
      assert forall i | 0 <= i < |ls[1..]| :: ls[1..][i] == ls[i + 1];
      ParseRendered(ls[0].indent, ls[0].text);
      ParseUndoesRender(ls[1..]);
      var rendered := RenderFrom(ls, 0);
      assert rendered[0] == RenderLine(ls[0], 0) && rendered[1..] == RenderFrom(ls[1..], 0);
    }
  }

  // ---------------------------------------------------------------- blocks

  /** How many leading lines stand to the right of column `m`. */
  function Extent(ls: seq<Line>, m: nat): (n: nat)
    ensures n <= |ls|
  {
    if ls == [] || ls[0].indent <= m then 0 else 1 + Extent(ls[1..], m)
  }

  predicate IsDash(t: string) {
    t == "-" || "- " <= t
  }

  function ReadBlock(ls: seq<Line>): Option<Value>
    decreases |ls|, 1
  {
    if ls == [] then None
    else if |ls| == 1 && ls[0].text == "[]" then Some(Array([]))
    else if |ls| == 1 && ls[0].text == "{}" then Some(Object([]))
    else if IsDash(ls[0].text) then
      var items := ReadItems(ls, ls[0].indent);
      if items.Some? then Some(Array(items.value)) else None
    else if |ls| == 1 && ReadScalar(ls[0].text).Some? then ReadScalar(ls[0].text)
    else
      var fields := ReadFields(ls, ls[0].indent);
      if fields.Some? then Some(Object(fields.value)) else None
  }

  function ReadItems(ls: seq<Line>, m: nat): Option<seq<Value>>
    decreases |ls|, 0
  {
    if ls == [] then Some([])
    else if ls[0].indent != m || !IsDash(ls[0].text) then None
    else
      var k := Extent(ls[1..], m);
      var nested := ls[1..][..k];
      var item :=
        if ls[0].text == "-" then ReadBlock(nested)
        else if nested == [] then ReadScalar(ls[0].text[2..])
        else None;
      var rest := ReadItems(ls[1..][k..], m);
      if item.Some? && rest.Some? then Some([item.value] + rest.value) else None
  }

  function ReadFields(ls: seq<Line>, m: nat): Option<seq<Field>>
    decreases |ls|, 0
  {
    if ls == [] then Some([])
    else
      var t := ls[0].text;
      var colon := IndexOf(t, ':');
      if ls[0].indent != m || colon == |t| then None
      else
        var k := Extent(ls[1..], m);
        var nested := ls[1..][..k];
        var rest := ReadFields(ls[1..][k..], m);
        var value := FieldValue(t, colon, nested);
        if value.Some? && rest.Some? then Some([Field(t[..colon], value.value)] + rest.value) else None
  }

  /** The value read after a key line's colon. */
  function FieldValue(t: string, colon: nat, nested: seq<Line>): Option<Value>
    requires colon < |t|
    decreases |nested|, 2
  {
    if colon == |t| - 1 then ReadBlock(nested)
    else if t[colon + 1] == ' ' && nested == [] then ReadScalar(t[colon + 2..])
    else None
  }

  function ReadDocument(s: string): Option<Value> {
    ReadBlock(ParseLines(Lines(s)))
  }

  // ---------------------------------------------------------------- what the reader can return

  ghost predicate ReadableKey(key: string) {
    ':' !in key && '\n' !in key && (key != "" ==> key[0] != ' ')
  }

  ghost predicate ReadableFields(fields: seq<Field>) {
    forall i | 0 <= i < |fields| :: ReadableKey(fields[i].key) && Readable(fields[i].value)
  }

  /**
   Strings and keys hold no newline; keys hold no colon and do not start with a space; the first key of an object does
   not start like an item.
   */
  ghost predicate Readable(v: Value) {
    match v
    case Text(text) => '\n' !in text
    case Array(items) => forall i | 0 <= i < |items| :: Readable(items[i])
    case Object(fields) =>
      && (fields != [] ==> !("- " <= fields[0].key))
      && forall i | 0 <= i < |fields| :: ReadableKey(fields[i].key) && Readable(fields[i].value)
    case _ => true
  }

  /** The lines as the reader gets them. */
  ghost predicate Parsed(ls: seq<Line>) {
    forall i | 0 <= i < |ls| :: '\n' !in ls[i].text && (ls[i].text != "" ==> ls[i].text[0] != ' ')
  }

  lemma {:induction false} UnescapeAddsNoNewline(s: string)
    requires '\n' !in s && Unescape(s).Some?
    ensures '\n' !in Unescape(s).value
  {
    if s != "" {
      if s[0] == '\\' {
        UnescapeAddsNoNewline(s[2..]);
      } else {
        UnescapeAddsNoNewline(s[1..]);
      }
    }
  }

  lemma {:induction false} ScalarIsReadable(t: string)
    requires '\n' !in t && ReadScalar(t).Some?
    ensures Readable(ReadScalar(t).value)
  {
    if |t| >= 2 && Unescape(t[1..|t| - 1]).Some? {
      UnescapeAddsNoNewline(t[1..|t| - 1]);
    }
  }

  /** Whatever the lines, the reader returns only readable values. */
  lemma {:induction false} BlockIsReadable(ls: seq<Line>)
    requires Parsed(ls) && ReadBlock(ls).Some?
    ensures Readable(ReadBlock(ls).value)
    decreases |ls|, 1
  {
    if |ls| == 1 && (ls[0].text == "[]" || ls[0].text == "{}") {
    } else if IsDash(ls[0].text) {
      ItemsAreReadable(ls, ls[0].indent);
    } else if |ls| == 1 && ReadScalar(ls[0].text).Some? {
      ScalarIsReadable(ls[0].text);
    } else {
      FieldsAreReadable(ls, ls[0].indent);
    }
  }

  lemma {:induction false} ItemsAreReadable(ls: seq<Line>, m: nat)
    requires Parsed(ls) && ReadItems(ls, m).Some?
    ensures forall i | 0 <= i < |ReadItems(ls, m).value| :: Readable(ReadItems(ls, m).value[i])
    decreases |ls|, 0
  {
    if ls != [] {
      var k := Extent(ls[1..], m);
      ItemsAreReadable(ls[1..][k..], m);
      if ls[0].text == "-" {
        BlockIsReadable(ls[1..][..k]);
      } else {
        ScalarIsReadable(ls[0].text[2..]);
      }
    }
  }

  lemma {:induction false} FieldsUnfold(ls: seq<Line>, m: nat)
    requires ls != [] && ReadFields(ls, m).Some?
    ensures var t, k := ls[0].text, Extent(ls[1..], m);
      var colon := IndexOf(t, ':');
      && colon < |t| && FieldValue(t, colon, ls[1..][..k]).Some? && ReadFields(ls[1..][k..], m).Some?
      && ReadFields(ls, m).value
         == [Field(t[..colon], FieldValue(t, colon, ls[1..][..k]).value)] + ReadFields(ls[1..][k..], m).value
  {
  }

  lemma {:induction false} FieldValueIsReadable(t: string, colon: nat, nested: seq<Line>)
    requires colon < |t| && '\n' !in t && Parsed(nested) && FieldValue(t, colon, nested).Some?
    ensures Readable(FieldValue(t, colon, nested).value)
    decreases |nested|, 2
  {
    if colon == |t| - 1 {
      BlockIsReadable(nested);
    } else {
      ScalarIsReadable(t[colon + 2..]);
    }
  }

  lemma {:induction false} FieldsAreReadable(ls: seq<Line>, m: nat)
    requires Parsed(ls) && ReadFields(ls, m).Some?
    ensures ReadableFields(ReadFields(ls, m).value)
    ensures ls != [] ==> ReadFields(ls, m).value != [] && ReadFields(ls, m).value[0].key <= ls[0].text
    decreases |ls|, 0
  {
    if ls != [] {
      var t, k := ls[0].text, Extent(ls[1..], m);
      var colon, nested := IndexOf(t, ':'), ls[1..][..k];
      FieldsUnfold(ls, m);
      KeyIsReadable(t);
      assert Parsed(nested) && Parsed(ls[1..][k..]);
      FieldsAreReadable(ls[1..][k..], m);
      FieldValueIsReadable(t, colon, nested);
      ReadableFieldsCons(Field(t[..colon], FieldValue(t, colon, nested).value), ReadFields(ls[1..][k..], m).value);
    }
  }

  lemma {:induction false} KeyIsReadable(t: string)
    requires '\n' !in t && (t != "" ==> t[0] != ' ')
    ensures ReadableKey(t[..IndexOf(t, ':')]) && t[..IndexOf(t, ':')] <= t
  {
  }

  lemma {:induction false} ReadableFieldsCons(field: Field, fields: seq<Field>)
    requires ReadableKey(field.key) && Readable(field.value) && ReadableFields(fields)
    ensures ReadableFields([field] + fields)
  {
  }

  lemma {:induction false} LinesHaveNoNewline(s: string)
    ensures forall line | line in Lines(s) :: '\n' !in line
    decreases |s|
  {
    if s != "" {
      var n := IndexOf(s, '\n');
      if n < |s| {
        LinesHaveNoNewline(s[n + 1..]);
      } else {
        assert s[..n] == s;
      }
    }
  }

  lemma {:induction false} ParsedLines(ls: seq<string>)
    requires forall line | line in ls :: '\n' !in line
    ensures Parsed(ParseLines(ls))
    decreases |ls|
  {
    if ls != [] {
      ParsedLines(ls[1..]);
      assert ls[0] in ls;
    }
  }

  lemma {:induction false} DocumentIsReadable(s: string)
    requires ReadDocument(s).Some?
    ensures Readable(ReadDocument(s).value)
  {
    LinesHaveNoNewline(s);
    ParsedLines(Lines(s));
    BlockIsReadable(ParseLines(Lines(s)));
  }

  // ---------------------------------------------------------------- reading back

  ghost predicate RightOf(ls: seq<Line>, m: nat) {
    forall i | 0 <= i < |ls| :: ls[i].indent > m
  }

  lemma {:induction false} ExtentOfNested(nested: seq<Line>, rest: seq<Line>, m: nat)
    requires RightOf(nested, m)
    requires rest != [] ==> rest[0].indent <= m
    ensures Extent(nested + rest, m) == |nested|
    decreases |nested|
  {
    if nested == [] {
      assert nested + rest == rest;
    } else {
      assert (nested + rest)[1..] == nested[1..] + rest;
      ExtentOfNested(nested[1..], rest, m);
    }
  }

  lemma {:induction false} LinesStandFrom(v: Value, d: nat)
    ensures StandFrom(LinesAt(v, d), BaseColumn(d))
    decreases v, 1
  {
    if v.Array? && v != Array([]) {
      ItemsStandFrom(v.items, d);
    } else if v.Object? && v != Object([]) {
      FieldsStandFrom(v.fields, d);
    }
  }

  lemma {:induction false} ItemsStandFrom(items: seq<Value>, d: nat)
    ensures StandFrom(ItemLines(items, d), BaseColumn(d))
    decreases items, 0
  {
    if items != [] {
      Columns(d);
      if IsContainer(items[0]) {
        LinesStandFrom(items[0], d + 1);
      }
      ItemsStandFrom(items[1..], d);
    }
  }

  lemma {:induction false} FieldsStandFrom(fields: seq<Field>, d: nat)
    ensures StandFrom(FieldLines(fields, d), BaseColumn(d))
    decreases fields, 0
  {
    if fields != [] {
      Columns(d);
      if IsContainer(fields[0].value) {
        LinesStandFrom(fields[0].value, d + 1);
      }
      FieldsStandFrom(fields[1..], d);
    }
  }

  ghost predicate StandFrom(ls: seq<Line>, m: nat) {
    forall i | 0 <= i < |ls| :: ls[i].indent >= m
  }

  /** The lines of a nested value stand to the right of the entries around it. */
  lemma {:induction false} NestedIsDeeper(v: Value, d: nat)
    ensures RightOf(LinesAt(v, d + 1), EntryColumn(d))
  {
    LinesStandFrom(v, d + 1);
    Columns(d);
  }

  lemma {:induction false} ItemLinesStart(items: seq<Value>, d: nat)
    requires items != []
    ensures ItemLines(items, d)[0].indent == EntryColumn(d) && IsDash(ItemLines(items, d)[0].text)
  {
  }

  lemma {:induction false} FieldLinesStart(fields: seq<Field>, d: nat)
    requires fields != []
    ensures IsKeyLine(fields[0], FieldLines(fields, d)[0], d)
  {
  }

  ghost predicate IsKeyLine(field: Field, l: Line, d: nat) {
    l.indent == EntryColumn(d)
    && l.text == if IsContainer(field.value) then field.key + ":" else field.key + ": " + Scalar(field.value)
  }

  lemma {:induction false} OnlyTextEndsInQuote(v: Value)
    requires !IsContainer(v)
    ensures Scalar(v) != "" && (Scalar(v)[|Scalar(v)| - 1] == '"' ==> v.Text?)
  {
    if v.Number? {
      assert v.literal[|v.literal| - 1] in v.literal;
    }
  }

  /** The first line of a mapping is neither a dash nor a scalar, nor an empty collection. */
  lemma {:induction false} KeyLineIsNotScalar(field: Field, t: string)
    requires !("- " <= field.key)
    requires t == if IsContainer(field.value) then field.key + ":" else field.key + ": " + Scalar(field.value)
    ensures !IsDash(t) && t != "[]" && t != "{}" && ReadScalar(t).None?
  {
    var key := field.key;
    ColonIsNoScalar(t, |key|);
    DashNeedsSpace(key, t);
    if IsContainer(field.value) {
      assert t[|t| - 1] == ':';
    } else {
      OnlyTextEndsInQuote(field.value);
      assert t[|t| - 1] == Scalar(field.value)[|Scalar(field.value)| - 1];
      if field.value.Text? && key != "" {
        QuotedKeyLine(key, EscapeYamlString(field.value.text));
      }
    }
  }

  /** Of the scalars, only a quoted one can hold a colon. */
  lemma {:induction false} ColonIsNoScalar(t: string, i: nat)
    requires i < |t| && t[i] == ':'
    ensures t != "[]" && t != "{}" && t != "null" && t != "true" && t != "false" && !IsNumberLiteral(t)
  {
    assert t[i] in t;
  }

  lemma {:induction false} DashNeedsSpace(key: string, t: string)
    requires !("- " <= key) && key <= t && |key| < |t| && t[|key|] == ':'
    ensures !IsDash(t)
  {
    assert "- " <= key <==> |key| >= 2 && key[0] == '-' && key[1] == ' ';
    assert "- " <= t <==> |t| >= 2 && t[0] == '-' && t[1] == ' ';
  }

  /** A key that starts with a quote does not make its line a quoted scalar. */
  lemma {:induction false} QuotedKeyLine(key: string, e: string)
    requires key != ""
    ensures var t := key + ": " + ("\"" + e + "\""); Unescape(t[1..|t| - 1]).None?
  {
    var t := key + ": " + ("\"" + e + "\"");
    assert t[1..|t| - 1] == (key[1..] + ":") + " \"" + e;
    SpaceQuoteIsNotContent(key[1..] + ":", e);
  }

  lemma {:induction false} ContainerReadsBack(v: Value, d: nat)
    requires Readable(v) && IsContainer(v)
    ensures ReadBlock(LinesAt(v, d)) == Some(v)
    decreases v, 1
  {
    if v.Array? && v != Array([]) {
      ItemLinesStart(v.items, d);
      ItemsReadBack(v.items, d);
      ArrayBlock(ItemLines(v.items, d), v.items);
    } else if v.Object? && v != Object([]) {
      FieldLinesStart(v.fields, d);
      KeyLineIsNotScalar(v.fields[0], FieldLines(v.fields, d)[0].text);
      FieldsReadBack(v.fields, d);
      ObjectBlock(FieldLines(v.fields, d), v.fields);
    }
  }

  lemma {:induction false} ArrayBlock(ls: seq<Line>, items: seq<Value>)
    requires ls != [] && IsDash(ls[0].text) && ReadItems(ls, ls[0].indent) == Some(items)
    ensures ReadBlock(ls) == Some(Array(items))
  {
  }

  lemma {:induction false} ObjectBlock(ls: seq<Line>, fields: seq<Field>)
    requires ls != [] && !IsDash(ls[0].text) && ls[0].text != "[]" && ls[0].text != "{}"
    requires ReadScalar(ls[0].text).None? && ReadFields(ls, ls[0].indent) == Some(fields)
    ensures ReadBlock(ls) == Some(Object(fields))
  {
  }

  /** What separates an entry's head line and nested lines from the entries after it. */
  ghost predicate Delimited(head: Line, nested: seq<Line>, rest: seq<Line>) {
    && RightOf(nested, head.indent)
    && (rest != [] ==> rest[0].indent <= head.indent)
  }

  lemma {:induction false} Splits(head: Line, nested: seq<Line>, rest: seq<Line>)
    requires Delimited(head, nested, rest)
    ensures var ls := [head] + nested + rest;
      && ls[0] == head && Extent(ls[1..], head.indent) == |nested|
      && ls[1..][..|nested|] == nested && ls[1..][|nested|..] == rest
  {
    assert ([head] + nested + rest)[1..] == nested + rest;
    ExtentOfNested(nested, rest, head.indent);
  }

  lemma {:induction false} ReadOneItem(head: Line, nested: seq<Line>, rest: seq<Line>, item: Value, items: seq<Value>)
    requires Delimited(head, nested, rest) && IsDash(head.text)
    requires ReadItems(rest, head.indent) == Some(items)
    requires head.text == "-" ==> ReadBlock(nested) == Some(item)
    requires head.text != "-" ==> nested == [] && ReadScalar(head.text[2..]) == Some(item)
    ensures ReadItems([head] + nested + rest, head.indent) == Some([item] + items)
  {
    Splits(head, nested, rest);
  }

  lemma {:induction false} ReadNestedField(head: Line, nested: seq<Line>, rest: seq<Line>, field: Field,
      fields: seq<Field>)
    requires Delimited(head, nested, rest) && ':' !in field.key && head.text == field.key + ":"
    requires ReadFields(rest, head.indent) == Some(fields) && ReadBlock(nested) == Some(field.value)
    ensures ReadFields([head] + nested + rest, head.indent) == Some([field] + fields)
  {
    Splits(head, nested, rest);
    assert head.text == field.key + [':'] + "";
    IndexOfFirst(field.key, ':', "");
    assert head.text[..|field.key|] == field.key;
  }

  lemma {:induction false} ReadScalarField(head: Line, rest: seq<Line>, field: Field, fields: seq<Field>, s: string)
    requires Delimited(head, [], rest) && ':' !in field.key && head.text == field.key + ": " + s
    requires ReadFields(rest, head.indent) == Some(fields) && s != "" && ReadScalar(s) == Some(field.value)
    ensures ReadFields([head] + rest, head.indent) == Some([field] + fields)
  {
    Splits(head, [], rest);
    assert [head] + [] + rest == [head] + rest;
    KeyAndScalar(field.key, s);
  }

  lemma {:induction false} KeyAndScalar(key: string, s: string)
    requires ':' !in key
    ensures var t := key + ": " + s; IndexOf(t, ':') == |key| && t[..|key|] == key && t[|key| + 2..] == s
  {
    var t := key + ": " + s;
    assert t == key + [':'] + (" " + s);
    IndexOfFirst(key, ':', " " + s);
  }

  lemma {:induction false} ItemsReadBack(items: seq<Value>, d: nat)
    requires forall i | 0 <= i < |items| :: Readable(items[i])
    ensures ReadItems(ItemLines(items, d), EntryColumn(d)) == Some(items)
    decreases items, 0
  {
    if items != [] {
      var item, rest := items[0], ItemLines(items[1..], d);
      assert items == [item] + items[1..];
      ItemsReadBack(items[1..], d);
      if items[1..] != [] {
        ItemLinesStart(items[1..], d);
      }
      if IsContainer(item) {
        NestedIsDeeper(item, d);
        ContainerReadsBack(item, d + 1);
        ReadOneItem(Line(EntryColumn(d), "-"), LinesAt(item, d + 1), rest, item, items[1..]);
      } else {
        ScalarReadsBack(item);
        var t := "- " + Scalar(item);
        assert t[2..] == Scalar(item);
        ScalarIsGood(item);
        ReadOneItem(Line(EntryColumn(d), t), [], rest, item, items[1..]);
        assert [Line(EntryColumn(d), t)] + [] == [Line(EntryColumn(d), t)];
      }
    }
  }

  lemma {:induction false} FieldsReadBack(fields: seq<Field>, d: nat)
    requires ReadableFields(fields)
    ensures ReadFields(FieldLines(fields, d), EntryColumn(d)) == Some(fields)
    decreases fields, 0
  {
    if fields != [] {
      var Field(key, value) := fields[0];
      var rest := FieldLines(fields[1..], d);
      assert fields == [fields[0]] + fields[1..];
      FieldsReadBack(fields[1..], d);
      if fields[1..] != [] {
        FieldLinesStart(fields[1..], d);
      }
      if IsContainer(value) {
        NestedIsDeeper(value, d);
        ContainerReadsBack(value, d + 1);
        ReadNestedField(Line(EntryColumn(d), key + ":"), LinesAt(value, d + 1), rest, fields[0], fields[1..]);
      } else {
        ScalarReadsBack(value);
        ScalarIsGood(value);
        var head := Line(EntryColumn(d), key + ": " + Scalar(value));
        ReadScalarField(head, rest, fields[0], fields[1..], Scalar(value));
      }
    }
  }

  lemma {:induction false} ReadableIsUnbroken(v: Value)
    requires Readable(v)
    ensures Unbroken(v)
  {
    match v
    case Array(items) =>
      forall i | 0 <= i < |items| ensures Unbroken(items[i]) {
        ReadableIsUnbroken(items[i]);
      }
    case Object(fields) =>
      forall i | 0 <= i < |fields| ensures Unbroken(fields[i].value) {
        ReadableIsUnbroken(fields[i].value);
      }
    case _ =>
  }

  lemma {:induction false} LinesAreFlush(v: Value, d: nat)
    requires Readable(v)
    ensures Flush(LinesAt(v, d))
    decreases v, 1
  {
    if v.Array? && v != Array([]) {
      ItemLinesAreFlush(v.items, d);
    } else if v.Object? && v != Object([]) {
      FieldLinesAreFlush(v.fields, d);
    } else if !IsContainer(v) {
      ReadableIsUnbroken(v);
      ScalarIsGood(v);
    }
  }

  lemma {:induction false} ItemLinesAreFlush(items: seq<Value>, d: nat)
    requires forall i | 0 <= i < |items| :: Readable(items[i])
    ensures Flush(ItemLines(items, d))
    decreases items, 0
  {
    if items != [] {
      if IsContainer(items[0]) {
        LinesAreFlush(items[0], d + 1);
      }
      ItemLinesAreFlush(items[1..], d);
    }
  }

  lemma {:induction false} FieldLinesAreFlush(fields: seq<Field>, d: nat)
    requires ReadableFields(fields)
    ensures Flush(FieldLines(fields, d))
    decreases fields, 0
  {
    if fields != [] {
      if IsContainer(fields[0].value) {
        LinesAreFlush(fields[0].value, d + 1);
      }
      FieldLinesAreFlush(fields[1..], d);
    }
  }

  /** A readable document is uniquely decodable: the reader recovers the value. */
  lemma {:induction false} DocumentReadsBack(v: Value)
    requires Readable(v)
    ensures ReadDocument(JsonValueToYaml(v, 0)) == Some(v)
  {
    ParsedDocument(v);
    if IsContainer(v) {
      ContainerReadsBack(v, 0);
    } else {
      ScalarReadsBack(v);
      ScalarIsNoCollection(v);
    }
  }

  lemma {:induction false} ScalarIsNoCollection(v: Value)
    requires Readable(v) && !IsContainer(v)
    ensures !IsDash(Scalar(v)) && Scalar(v) != "[]" && Scalar(v) != "{}"
  {
  }

  /** The printed document is parsed into its lines. */
  lemma {:induction false} ParsedDocument(v: Value)
    requires Readable(v)
    ensures ParseLines(Lines(JsonValueToYaml(v, 0))) == LinesAt(v, 0)
  {
    ReadableIsUnbroken(v);
    PrintedDocument(v);
    var rendered := RenderFrom(LinesAt(v, 0), 0);
    RenderedIsClean(LinesAt(v, 0), 0);
    assert rendered[|rendered| - 1] in rendered;
    LinesOfJoin(rendered);
    LinesAreFlush(v, 0);
    ParseUndoesRender(LinesAt(v, 0));
  }

  /** The reader recovers exactly the readable values from their documents. */
  lemma {:induction false} DocumentReadsBackIff(v: Value)
    ensures ReadDocument(JsonValueToYaml(v, 0)) == Some(v) <==> Readable(v)
  {
    if Readable(v) {
      DocumentReadsBack(v);
    } else if ReadDocument(JsonValueToYaml(v, 0)).Some? {
      DocumentIsReadable(JsonValueToYaml(v, 0));
    }
  }

  /** Two readable values that print alike are the same value. */
  lemma {:induction false} PrintingIsInjective(v: Value, w: Value)
    requires Readable(v) && Readable(w) && JsonValueToYaml(v, 0) == JsonValueToYaml(w, 0)
    ensures v == w
  {
    DocumentReadsBack(v);
    DocumentReadsBack(w);
  }

  /** Other values can print alike: a key that holds a colon and a newline stands for two fields. */
  lemma {:induction false} KeysCollide()
    ensures JsonValueToYaml(Object([Field("a: 1\nb", Number("2"))]), 0)
         == JsonValueToYaml(Object([Field("a", Number("1")), Field("b", Number("2"))]), 0)
  {
  }
}
