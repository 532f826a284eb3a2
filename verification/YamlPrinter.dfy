/** The YAML printer of the OpenAPI generator, and the lines it prints. */
module YamlPrinter {
  import opened Text

  /** Digits, signs, point and exponent, starting with a digit or with a minus sign and a digit. */
  predicate IsNumberLiteral(s: string) {
    && s != "" && (forall c | c in s :: '0' <= c <= '9' || c in "+-.eE")
    && ('0' <= s[0] <= '9' || (s[0] == '-' && |s| > 1 && '0' <= s[1] <= '9'))
  }

  type NumberLiteral = s: string | IsNumberLiteral(s) witness "0"

  /** JSON values; an object is the sequence of its entries in map order, a number its printed literal. */
  datatype Value =
    | Null
    | Bool(boolean: bool)
    | Number(literal: NumberLiteral)
    | Text(text: string)
    | Array(items: seq<Value>)
    | Object(fields: seq<Field>)

  datatype Field = Field(key: string, value: Value)

  predicate IsContainer(v: Value) {
    v.Array? || v.Object?
  }

  /** `str::replace` of a single character. */
  function Replace(s: string, c: char, to: string): string {
    if s == "" then "" else (if s[0] == c then to else [s[0]]) + Replace(s[1..], c, to)
  }

  function EscapeYamlString(s: string): string {
    Replace(Replace(s, '\\', "\\\\"), '"', "\\\"")
  }

  function IndentAll(lines: seq<string>, indent: nat): (r: seq<string>)
    ensures |r| == |lines|
  {
    if lines == [] then [] else [Spaces(indent) + lines[0]] + IndentAll(lines[1..], indent)
  }

  function IndentMultiline(s: string, indent: nat): string {
    Join(IndentAll(Lines(s), indent), "\n")
  }

  function JsonValueToYaml(v: Value, indent: nat): string
    decreases v, 1
  {
    match v
    case Null => "null"
    case Bool(boolean) => if boolean then "true" else "false"
    case Number(literal) => literal
    case Text(text) => "\"" + EscapeYamlString(text) + "\""
    case Array(items) => if items == [] then "[]" else Join(ItemsToYaml(items, indent), "\n")
    case Object(fields) => if fields == [] then "{}" else Join(FieldsToYaml(fields, indent), "\n")
  }

  function ItemsToYaml(items: seq<Value>, indent: nat): (r: seq<string>)
    ensures |r| == |items|
    decreases items, 0
  {
    if items == [] then [] else [ItemToYaml(items[0], indent)] + ItemsToYaml(items[1..], indent)
  }

  function ItemToYaml(item: Value, indent: nat): string
    decreases item, 2
  {
    if IsContainer(item) then
      Spaces(indent) + "-" + "\n" + IndentMultiline(JsonValueToYaml(item, indent + 2), indent + 2)
    else
      Spaces(indent) + ("- " + JsonValueToYaml(item, indent + 2))
  }

  function FieldsToYaml(fields: seq<Field>, indent: nat): (r: seq<string>)
    ensures |r| == |fields|
    decreases fields, 0
  {
    if fields == [] then [] else [FieldToYaml(fields[0], indent)] + FieldsToYaml(fields[1..], indent)
  }

  function FieldToYaml(field: Field, indent: nat): string
    decreases field, 2
  {
    if IsContainer(field.value) then
      Spaces(indent) + (field.key + ":") + "\n" + IndentMultiline(JsonValueToYaml(field.value, indent + 2), indent + 2)
    else
      Spaces(indent) + (field.key + ": " + JsonValueToYaml(field.value, indent + 2))
  }

  // ---------------------------------------------------------------- the domain

  /** No string and no key holds a newline; the printer escapes neither. */
  ghost predicate Unbroken(v: Value) {
    match v
    case Text(text) => '\n' !in text
    case Array(items) => forall i | 0 <= i < |items| :: Unbroken(items[i])
    case Object(fields) => forall i | 0 <= i < |fields| :: '\n' !in fields[i].key && Unbroken(fields[i].value)
    case _ => true
  }

  // ---------------------------------------------------------------- the printed lines, by depth

  datatype Line = Line(indent: nat, text: string)

  /** The column of the entries of a container at depth `d`. */
  function EntryColumn(d: nat): nat { d * (d + 3) }

  /** The column of an empty container at depth `d`; everything at that depth is printed at or beyond it. */
  function BaseColumn(d: nat): nat { d * (d + 1) }

  lemma {:induction false} Columns(d: nat)
    ensures EntryColumn(d) == BaseColumn(d) + 2 * d
    ensures BaseColumn(d + 1) == EntryColumn(d) + 2
    ensures BaseColumn(d + 1) == BaseColumn(d) + 2 * (d + 1)
  {
  }

  function Scalar(v: Value): string
    requires !IsContainer(v)
  {
    JsonValueToYaml(v, 0)
  }

  /** The lines of a value at depth `d`: the entries of a container stand at column d(d+3), an empty one at d(d+1). */
  function LinesAt(v: Value, d: nat): (r: seq<Line>)
    ensures r != []
    decreases v, 1
  {
    if v == Array([]) then [Line(BaseColumn(d), "[]")]
    else if v == Object([]) then [Line(BaseColumn(d), "{}")]
    else if v.Array? then ItemLines(v.items, d)
    else if v.Object? then FieldLines(v.fields, d)
    else [Line(BaseColumn(d), Scalar(v))]
  }

  function ItemLines(items: seq<Value>, d: nat): (r: seq<Line>)
    ensures items != [] ==> r != []
    decreases items, 0
  {
    if items == [] then [] else ItemBlock(items[0], d) + ItemLines(items[1..], d)
  }

  function ItemBlock(item: Value, d: nat): (r: seq<Line>)
    ensures r != []
    decreases item, 2
  {
    if IsContainer(item) then [Line(EntryColumn(d), "-")] + LinesAt(item, d + 1)
    else [Line(EntryColumn(d), "- " + Scalar(item))]
  }

  function FieldLines(fields: seq<Field>, d: nat): (r: seq<Line>)
    ensures fields != [] ==> r != []
    decreases fields, 0
  {
    if fields == [] then [] else FieldBlock(fields[0], d) + FieldLines(fields[1..], d)
  }

  function FieldBlock(field: Field, d: nat): (r: seq<Line>)
    ensures r != []
    decreases field, 2
  {
    if IsContainer(field.value) then [Line(EntryColumn(d), field.key + ":")] + LinesAt(field.value, d + 1)
    else [Line(EntryColumn(d), field.key + ": " + Scalar(field.value))]
  }

  // ---------------------------------------------------------------- every line is well-formed

  /** A line the printer may print at depth `d` or deeper. */
  ghost predicate GoodLine(l: Line, base: nat) {
    l.indent >= base && l.text != "" && IsLine(l.text)
  }

  ghost predicate GoodLines(ls: seq<Line>, base: nat) {
    forall i | 0 <= i < |ls| :: GoodLine(ls[i], base)
  }

  lemma {:induction false} ReplaceAddsNoNewline(s: string, c: char, to: string)
    requires '\n' !in s && '\n' !in to
    ensures '\n' !in Replace(s, c, to)
  {
    if s != "" {
      ReplaceAddsNoNewline(s[1..], c, to);
    }
  }

  lemma {:induction false} ScalarIsGood(v: Value)
    requires Unbroken(v) && !IsContainer(v)
    ensures Scalar(v) != "" && Scalar(v)[0] != ' ' && IsLine(Scalar(v))
  {
    if v.Text? {
      ReplaceAddsNoNewline(v.text, '\\', "\\\\");
      ReplaceAddsNoNewline(Replace(v.text, '\\', "\\\\"), '"', "\\\"");
    } else if v.Number? {
      assert v.literal[|v.literal| - 1] in v.literal;
    }
  }

  lemma {:induction false} LinesAreGood(v: Value, d: nat)
    requires Unbroken(v)
    ensures GoodLines(LinesAt(v, d), BaseColumn(d))
    decreases v, 1
  {
    if v.Array? && v != Array([]) {
      ItemLinesAreGood(v.items, d);
    } else if v.Object? && v != Object([]) {
      FieldLinesAreGood(v.fields, d);
    } else if !IsContainer(v) {
      ScalarIsGood(v);
    }
  }

  lemma {:induction false} ItemLinesAreGood(items: seq<Value>, d: nat)
    requires forall i | 0 <= i < |items| :: Unbroken(items[i])
    ensures GoodLines(ItemLines(items, d), BaseColumn(d))
    decreases items, 0
  {
    if items != [] {
      Columns(d);
      if IsContainer(items[0]) {
        LinesAreGood(items[0], d + 1);
      } else {
        ScalarIsGood(items[0]);
      }
      ItemLinesAreGood(items[1..], d);
    }
  }

  lemma {:induction false} FieldLinesAreGood(fields: seq<Field>, d: nat)
    requires forall i | 0 <= i < |fields| :: '\n' !in fields[i].key && Unbroken(fields[i].value)
    ensures GoodLines(FieldLines(fields, d), BaseColumn(d))
    decreases fields, 0
  {
    if fields != [] {
      Columns(d);
      if IsContainer(fields[0].value) {
        LinesAreGood(fields[0].value, d + 1);
      } else {
        ScalarIsGood(fields[0].value);
      }
      FieldLinesAreGood(fields[1..], d);
    }
  }

  // ---------------------------------------------------------------- the printer prints these lines

  /** The text of lines whose first `base` columns are still to be added by the enclosing containers. */
  function RenderFrom(ls: seq<Line>, base: nat): (r: seq<string>)
    requires forall i | 0 <= i < |ls| :: ls[i].indent >= base
    ensures |r| == |ls| && forall i | 0 <= i < |ls| :: r[i] == RenderLine(ls[i], base)
  {
    if ls == [] then [] else [RenderLine(ls[0], base)] + RenderFrom(ls[1..], base)
  }

  function RenderLine(l: Line, base: nat): string
    requires l.indent >= base
  {
    Spaces(l.indent - base) + l.text
  }

  lemma {:induction false} SpacesAdd(a: nat, b: nat)
    ensures Spaces(a) + Spaces(b) == Spaces(a + b)
  {
  }

  lemma {:induction false} RenderedIsClean(ls: seq<Line>, base: nat)
    requires GoodLines(ls, base)
    ensures forall line | line in RenderFrom(ls, base) :: IsLine(line) && line != ""
  {
    forall line | line in RenderFrom(ls, base)
      ensures IsLine(line) && line != ""
    {
      var i :| 0 <= i < |ls| && RenderFrom(ls, base)[i] == line;
      assert GoodLine(ls[i], base);
    }
  }

  lemma {:induction false} IndentRendered(ls: seq<Line>, base: nat, k: nat)
    requires GoodLines(ls, base) && k <= base
    ensures IndentAll(RenderFrom(ls, base), k) == RenderFrom(ls, base - k)
    decreases |ls|
  {
    if ls != [] {
      var l := ls[0];
      assert GoodLine(l, base);
      assert GoodLines(ls[1..], base) by {
        forall i | 0 <= i < |ls[1..]| ensures GoodLine(ls[1..][i], base) {
          assert GoodLine(ls[i + 1], base);
        }
      }
      IndentRendered(ls[1..], base, k);
      SpacesAdd(k, l.indent - base);
      ConcatAssoc(Spaces(k), Spaces(l.indent - base), l.text);
      assert RenderFrom(ls, base)[1..] == RenderFrom(ls[1..], base);
      assert RenderFrom(ls, base)[0] == Spaces(l.indent - base) + l.text;
    }
  }

  lemma {:induction false} IndentShifts(ls: seq<Line>, base: nat, k: nat)
    requires GoodLines(ls, base) && k <= base && ls != []
    ensures IndentMultiline(Join(RenderFrom(ls, base), "\n"), k) == Join(RenderFrom(ls, base - k), "\n")
  {
    var rendered := RenderFrom(ls, base);
    RenderedIsClean(ls, base);
    assert rendered[|rendered| - 1] in rendered;
    LinesOfJoin(rendered);
    IndentRendered(ls, base, k);
  }

  lemma {:induction false} RenderAppend(a: seq<Line>, b: seq<Line>, base: nat)
    requires GoodLines(a, base) && GoodLines(b, base)
    ensures GoodLines(a + b, base) && RenderFrom(a + b, base) == RenderFrom(a, base) + RenderFrom(b, base)
  {
  }

  lemma {:induction false} LowerBase(ls: seq<Line>, base: nat, lower: nat)
    requires GoodLines(ls, base) && lower <= base
    ensures GoodLines(ls, lower)
  {
    forall i | 0 <= i < |ls| ensures GoodLine(ls[i], lower) {
      assert GoodLine(ls[i], base);
    }
  }

  lemma {:induction false} HeadIsGood(column: nat, head: string, ls: seq<Line>, base: nat)
    requires column >= base && IsLine(head) && head != "" && GoodLines(ls, base)
    ensures var block := [Line(column, head)] + ls;
      GoodLines(block, base) && RenderFrom(block, base) == [Spaces(column - base) + head] + RenderFrom(ls, base)
  {
    var block := [Line(column, head)] + ls;
    assert block[1..] == ls && block[0] == Line(column, head);
    forall i | 0 <= i < |block| ensures GoodLine(block[i], base) {
      assert i == 0 || block[i] == ls[i - 1];
    }
  }

  /** The text is these lines, each well-formed and with its first `base` columns still to be added. */
  ghost predicate Prints(ls: seq<Line>, base: nat, text: string) {
    ls != [] && GoodLines(ls, base) && text == Join(RenderFrom(ls, base), "\n")
  }

  lemma {:induction false} Shifted(ls: seq<Line>, base: nat, k: nat, text: string)
    requires Prints(ls, base + k, text)
    ensures Prints(ls, base, IndentMultiline(text, k))
  {
    assert GoodLines(ls, base) by {
      LowerBase(ls, base + k, base);
    }
    assert IndentMultiline(text, k) == Join(RenderFrom(ls, base), "\n") by {
      IndentShifts(ls, base + k, k);
      assert base + k - k == base;
    }
  }

  lemma {:induction false} Headed(column: nat, head: string, ls: seq<Line>, base: nat, text: string)
    requires column >= base && IsLine(head) && head != "" && Prints(ls, base, text)
    ensures Prints([Line(column, head)] + ls, base, Spaces(column - base) + head + "\n" + text)
  {
    HeadIsGood(column, head, ls, base);
    var first := Spaces(column - base) + head;
    assert ([first] + RenderFrom(ls, base))[1..] == RenderFrom(ls, base);
  }

  lemma {:induction false} OneLine(d: nat, text: string)
    requires IsLine(text) && text != ""
    ensures Prints([Line(EntryColumn(d), text)], BaseColumn(d), Spaces(2 * d) + text)
  {
    Columns(d);
    HeadIsGood(EntryColumn(d), text, [], BaseColumn(d));
    assert [Line(EntryColumn(d), text)] + [] == [Line(EntryColumn(d), text)];
    assert [Spaces(2 * d) + text] + [] == [Spaces(2 * d) + text];
  }

  /** A scalar behind its dash or key. */
  lemma {:induction false} ScalarBlock(v: Value, d: nat, head: string)
    requires Unbroken(v) && !IsContainer(v) && IsLine(head) && head != ""
    ensures Prints([Line(EntryColumn(d), head + Scalar(v))], BaseColumn(d),
      Spaces(2 * d) + (head + JsonValueToYaml(v, 2 * d + 2)))
  {
    ScalarIsGood(v);
    assert JsonValueToYaml(v, 2 * d + 2) == Scalar(v);
    OneLine(d, head + Scalar(v));
  }

  /** A head line and the lines of a nested container, as the printer assembles them. */
  lemma {:induction false} ContainerBlock(v: Value, d: nat, head: string)
    requires Prints(LinesAt(v, d + 1), BaseColumn(d + 1), JsonValueToYaml(v, 2 * (d + 1)))
    requires IsLine(head) && head != ""
    ensures Prints([Line(EntryColumn(d), head)] + LinesAt(v, d + 1), BaseColumn(d),
                   Spaces(2 * d) + head + "\n" + IndentMultiline(JsonValueToYaml(v, 2 * (d + 1)), 2 * (d + 1)))
  {
    Columns(d);
    var base, column, text := BaseColumn(d), EntryColumn(d), JsonValueToYaml(v, 2 * (d + 1));
    Shifted(LinesAt(v, d + 1), base, 2 * (d + 1), text);
    Headed(column, head, LinesAt(v, d + 1), base, IndentMultiline(text, 2 * (d + 1)));
  }

  lemma {:induction false} PrinterPrintsLines(v: Value, d: nat)
    requires Unbroken(v)
    ensures Prints(LinesAt(v, d), BaseColumn(d), JsonValueToYaml(v, 2 * d))
    decreases v, 1
  {
    LinesAreGood(v, d);
    if v.Array? && v != Array([]) {
      PrinterPrintsItems(v.items, d);
    } else if v.Object? && v != Object([]) {
      PrinterPrintsFields(v.fields, d);
    } else {
      assert Spaces(0) == "";
      assert Spaces(0) + LinesAt(v, d)[0].text == LinesAt(v, d)[0].text;
    }
  }

  lemma {:induction false} PrinterPrintsItems(items: seq<Value>, d: nat)
    requires items != [] && forall i | 0 <= i < |items| :: Unbroken(items[i])
    ensures Prints(ItemLines(items, d), BaseColumn(d), Join(ItemsToYaml(items, 2 * d), "\n"))
    decreases items, 0
  {
    PrinterPrintsItem(items[0], d);
    if |items| == 1 {
      assert ItemLines(items, d) == ItemBlock(items[0], d);
    } else {
      PrinterPrintsItems(items[1..], d);
      AssembleBlocks(ItemToYaml(items[0], 2 * d), ItemBlock(items[0], d), ItemsToYaml(items[1..], 2 * d),
        ItemLines(items[1..], d), BaseColumn(d));
    }
  }

  lemma {:induction false} PrinterPrintsItem(item: Value, d: nat)
    requires Unbroken(item)
    ensures Prints(ItemBlock(item, d), BaseColumn(d), ItemToYaml(item, 2 * d))
    decreases item, 2
  {
    if IsContainer(item) {
      PrinterPrintsLines(item, d + 1);
      ContainerBlock(item, d, "-");
    } else {
      ScalarBlock(item, d, "- ");
    }
  }

  lemma {:induction false} PrinterPrintsFields(fields: seq<Field>, d: nat)
    requires fields != [] && forall i | 0 <= i < |fields| :: '\n' !in fields[i].key && Unbroken(fields[i].value)
    ensures Prints(FieldLines(fields, d), BaseColumn(d), Join(FieldsToYaml(fields, 2 * d), "\n"))
    decreases fields, 0
  {
    PrinterPrintsField(fields[0], d);
    if |fields| == 1 {
      assert FieldLines(fields, d) == FieldBlock(fields[0], d);
    } else {
      PrinterPrintsFields(fields[1..], d);
      AssembleBlocks(FieldToYaml(fields[0], 2 * d), FieldBlock(fields[0], d), FieldsToYaml(fields[1..], 2 * d),
        FieldLines(fields[1..], d), BaseColumn(d));
    }
  }

  lemma {:induction false} PrinterPrintsField(field: Field, d: nat)
    requires '\n' !in field.key && Unbroken(field.value)
    ensures Prints(FieldBlock(field, d), BaseColumn(d), FieldToYaml(field, 2 * d))
    decreases field, 2
  {
    var Field(key, value) := field;
    if IsContainer(value) {
      PrinterPrintsLines(value, d + 1);
      ContainerBlock(value, d, key + ":");
    } else {
      ScalarBlock(value, d, key + ": ");
    }
  }

  lemma {:induction false} AssembleBlocks(first: string, block: seq<Line>, texts: seq<string>, rest: seq<Line>,
      base: nat)
    requires texts != [] && Prints(block, base, first) && Prints(rest, base, Join(texts, "\n"))
    ensures Prints(block + rest, base, Join([first] + texts, "\n"))
  {
    RenderAppend(block, rest, base);
    JoinAppend([first], texts, "\n");
    JoinAppend(RenderFrom(block, base), RenderFrom(rest, base), "\n");
  }

  /** The whole document: its lines stand at the columns that depth alone determines. */
  lemma {:induction false} PrintedDocument(v: Value)
    requires Unbroken(v)
    ensures Prints(LinesAt(v, 0), 0, JsonValueToYaml(v, 0))
  {
    PrinterPrintsLines(v, 0);
  }
}
