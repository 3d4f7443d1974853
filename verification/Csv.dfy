/** Splitting a line of comma-separated values in place: src/base/util.cc, lines 217 to 258. */
module Csv {
  // What is read, as a function of the text that is left.

  predicate IsBlank(c: char) {
    c == ' ' || c == '\t'
  }

  function SkipBlanks(s: string): (rest: string)
    ensures |rest| <= |s|
  {
    if s != "" && IsBlank(s[0]) then SkipBlanks(s[1..]) else s
  }

  /** Where the first comma is, or the end. */
  function Comma(s: string): (n: nat)
    ensures n <= |s|
    ensures n < |s| ==> s[n] == ','
  {
    if s == "" || s[0] == ',' then 0 else 1 + Comma(s[1..])
  }

  /** The text up to a closing quote, and what follows the quote. */
  datatype Quoted = Quoted(text: string, rest: string)

  function QuotedText(s: string): (q: Quoted)
    ensures |q.text| + |q.rest| <= |s|
  {
    if s == "" then
      Quoted("", "")
    else if s[0] != '"' then
      var q := QuotedText(s[1..]);
      Quoted([s[0]] + q.text, q.rest)
    else if |s| >= 2 && s[1] == '"' then
      var q := QuotedText(s[2..]);
      Quoted(['"'] + q.text, q.rest)
    else
      Quoted("", s[1..])
  }

  /** A field, the text from the next comma on, and whether the field is taken to be followed by an empty last one. */
  datatype Field = Field(text: string, rest: string, emptyNext: bool)

  function FirstField(s: string): (field: Field)
    ensures |field.rest| <= |s|
  {
    var t := SkipBlanks(s);
    if t != "" && t[0] == '"' then
      var q := QuotedText(t[1..]);
      var end := |q.text|;
      Field(q.text, q.rest[Comma(q.rest)..], |t| == end + 2 && t[end + 1] == ',')
    else
      var end := Comma(t);
      Field(t[..end], t[end..], |t| == end + 1)
  }

  function Fields(s: string): seq<string>
    decreases |s|
  {
    if s == "" then
      []
    else
      var field := FirstField(s);
      [field.text]
      + (if field.emptyNext then [""] else [])
      + (if field.rest == "" then [] else Fields(field.rest[1..]))
  }

  // The text is a buffer that ends with a zero; quoted fields are moved to the front of where they were.

  /** From `k` on the buffer holds what it held before, and a zero. */
  ghost predicate IsUnread(tmp: array<char>, input: string, k: nat)
    reads tmp
  {
    && tmp.Length == |input| + 1
    && k <= |input|
    && (forall i | k <= i < |input| :: tmp[i] == input[i])
    && tmp[|input|] == '\0'
  }

  lemma NextOf(input: string, k: nat)
    requires k < |input|
    ensures input[k..] != "" && input[k..][0] == input[k] && input[k..][1..] == input[k + 1..]
  {}

  method Find(tmp: array<char>, begin: nat, eos: nat, ghost input: string) returns (k: nat)
    requires IsUnread(tmp, input, begin) && eos == |input|
    ensures begin <= k <= eos && k == begin + Comma(input[begin..])
  {
    k := begin;
    while k < eos && tmp[k] != ','
      invariant begin <= k <= eos
      invariant begin + Comma(input[begin..]) == k + Comma(input[k..])
    {
      NextOf(input, k);
      k := k + 1;
    }
    if k < eos {
      NextOf(input, k);
    }
  }

  method SkipLeadingBlanks(tmp: array<char>, begin: nat, ghost input: string) returns (k: nat)
    requires IsUnread(tmp, input, begin)
    ensures begin <= k <= |input| && input[k..] == SkipBlanks(input[begin..])
  {
    k := begin;
    while tmp[k] == ' ' || tmp[k] == '\t'
      invariant begin <= k <= |input|
      invariant SkipBlanks(input[k..]) == SkipBlanks(input[begin..])
      decreases |input| - k
    {
      NextOf(input, k);
      k := k + 1;
    }
  }

  lemma QuotedFrom(input: string, k: nat)
    requires k < |input|
    ensures input[k] != '"' ==>
              QuotedText(input[k..]) == Quoted([input[k]] + QuotedText(input[k + 1..]).text, QuotedText(input[k + 1..]).rest)
    ensures input[k] == '"' && k + 1 < |input| && input[k + 1] == '"' ==>
              QuotedText(input[k..]) == Quoted(['"'] + QuotedText(input[k + 2..]).text, QuotedText(input[k + 2..]).rest)
    ensures input[k] == '"' && !(k + 1 < |input| && input[k + 1] == '"') ==>
              QuotedText(input[k..]) == Quoted("", input[k + 1..])
  {
    NextOf(input, k);
    if k + 1 < |input| {
      assert input[k..][2..] == input[k + 2..];
    }
  }

  lemma Concatenation(a: string, b: string, c: string)
    ensures a + b + c == a + (b + c)
  {}

  lemma NothingQuoted()
    ensures QuotedText("") == Quoted("", "")
  {}

  /** Moves the quoted text to where it starts. What is written never passes what is read. */
  method UnquoteInPlace(tmp: array<char>, start: nat, eos: nat, ghost input: string) returns (end: nat, str: nat)
    requires IsUnread(tmp, input, start) && eos == |input|
    modifies tmp
    ensures start <= end <= str <= eos
    ensures tmp[start..end] == QuotedText(input[start..]).text
    ensures input[str..] == QuotedText(input[start..]).rest
    ensures IsUnread(tmp, input, end)
  {
    hide QuotedText;
    str := start;
    end := start;
    ghost var text := "";
    assert "" + QuotedText(input[start..]).text == QuotedText(input[start..]).text;
    while str < eos
      invariant start <= end <= str <= eos
      invariant IsUnread(tmp, input, end)
      invariant tmp[start..end] == text && text + QuotedText(input[str..]).text == QuotedText(input[start..]).text
      invariant QuotedText(input[str..]).rest == QuotedText(input[start..]).rest
      decreases eos - str
    {
      QuotedFrom(input, str);
      if tmp[str] == '"' {
        str := str + 1;
        if tmp[str] != '"' {
          assert text + "" == text;
          return;
        }
      }
      Concatenation(text, [input[str]], QuotedText(input[str + 1..]).text);
      text := text + [input[str]];
      tmp[end] := tmp[str];
      end := end + 1;
      str := str + 1;
    }
    assert input[str..] == "";
    NothingQuoted();
  }

  /** A field between `start` and `end`, and the next comma at `str`. */
  method ReadField(tmp: array<char>, begin: nat, eos: nat, ghost input: string) returns (start: nat, end: nat, str: nat)
    requires IsUnread(tmp, input, begin) && eos == |input| && begin < eos
    modifies tmp
    ensures start <= end <= str <= eos && begin <= str
    ensures tmp[start..end] == FirstField(input[begin..]).text
    ensures input[str..] == FirstField(input[begin..]).rest
    ensures FirstField(input[begin..]).emptyNext <==> tmp[end] == ',' && end == eos - 1
    ensures IsUnread(tmp, input, end)
  {
    hide QuotedText, SkipBlanks, Comma;
    str := SkipLeadingBlanks(tmp, begin, input);
    ghost var t := input[str..];
    if tmp[str] == '"' {
      str := str + 1;
      start := str;
      assert t[1..] == input[start..];
      end, str := UnquoteInPlace(tmp, start, eos, input);
      ghost var rest := input[str..];
      str := Find(tmp, str, eos, input);
      assert input[str..] == rest[Comma(rest)..];
      assert end < eos ==> t[end - start + 1] == input[end];
    } else {
      start := str;
      str := Find(tmp, str, eos, input);
      end := str;
      assert tmp[start..end] == t[..Comma(t)];
      assert input[str..] == t[Comma(t)..];
    }
  }

  lemma FieldsOf(s: string)
    requires s != ""
    ensures
      var field := FirstField(s);
      Fields(s) == [field.text]
                   + (if field.emptyNext then [""] else [])
                   + (if field.rest == "" then [] else Fields(field.rest[1..]))
  {
    hide FirstField;
  }

  lemma FourParts(a: seq<string>, b: seq<string>, c: seq<string>, d: seq<string>)
    ensures a + (b + c + d) == a + b + c + d
  {}

  method SplitCSV(input: string) returns (output: seq<string>)
    ensures output == Fields(input)
  {
    hide FirstField, Fields;
    var tmp := new char[|input| + 1](i requires 0 <= i <= |input| => if i < |input| then input[i] else '\0');
    var eos := |input|;
    var str := 0;
    output := [];
    assert input[0..] == input;
    NoFields();
    while str < eos
      invariant str <= eos ==> IsUnread(tmp, input, str)
      invariant output + (if str <= eos then Fields(input[str..]) else []) == Fields(input)
      decreases eos - str
    {
      FieldsOf(input[str..]);
      ghost var field := FirstField(input[str..]);
      FourParts(output, [field.text], if field.emptyNext then [""] else [],
                if field.rest == "" then [] else Fields(field.rest[1..]));
      var start, end;
      start, end, str := ReadField(tmp, str, eos, input);
      var endIsEmpty := tmp[end] == ',' && end == eos - 1;
      output := output + [tmp[start..end]];
      if endIsEmpty {
        output := output + [""];
      } else {
        assert output + [] == output;
      }
      if str < eos {
        NextOf(input, str);
      }
      str := str + 1;
    }
    assert str == eos ==> input[str..] == "";
  }

  lemma NoFields()
    ensures Fields("") == []
  {}

  // Writing what is read, section 2 of RFC 4180: quotes around a field, and quotes inside it doubled.

  /** A field to write, in quotes or as it is, after blanks or none. */
  datatype Cell = Cell(blanks: string, text: string, quoted: bool)

  function Doubled(text: string): string {
    if text == "" then "" else (if text[0] == '"' then ['"', '"'] else [text[0]]) + Doubled(text[1..])
  }

  function CellText(cell: Cell): string {
    cell.blanks + if cell.quoted then ['"'] + Doubled(cell.text) + ['"'] else cell.text
  }

  /** A cell that may stand without quotes: no comma in it, no blank or quote in front. */
  predicate IsPlain(text: string) {
    && (forall i | 0 <= i < |text| :: text[i] != ',')
    && (text != "" ==> !IsBlank(text[0]) && text[0] != '"')
  }

  predicate AreBlanks(text: string) {
    forall c | c in text :: IsBlank(c)
  }

  predicate IsWellFormed(cells: seq<Cell>) {
    && cells != []
    && forall i | 0 <= i < |cells| :: AreBlanks(cells[i].blanks) && (cells[i].quoted || IsPlain(cells[i].text))
  }

  function Line(cells: seq<Cell>): string
    requires cells != []
  {
    if |cells| == 1 then CellText(cells[0]) else CellText(cells[0]) + [','] + Line(cells[1..])
  }

  function Texts(cells: seq<Cell>): (texts: seq<string>)
    ensures |texts| == |cells|
  {
    if cells == [] then [] else [cells[0].text] + Texts(cells[1..])
  }

  /** An empty last cell without quotes and blanks is only noticed after another cell without quotes. */
  predicate IsLastCellLost(cells: seq<Cell>)
    requires cells != []
  {
    var last := cells[|cells| - 1];
    last == Cell("", "", false) && (|cells| == 1 || cells[|cells| - 2].quoted)
  }

  /** What follows a field: nothing, or a comma and more. */
  predicate IsTail(tail: string) {
    tail == "" || tail[0] == ','
  }

  lemma {:induction false} DoubledIsLonger(text: string)
    ensures |text| <= |Doubled(text)|
  {
    if text != "" {
      DoubledIsLonger(text[1..]);
    }
  }

  lemma DoubledFirst(text: string, tail: string)
    requires text != ""
    ensures
      var rest := Doubled(text[1..]) + ['"'] + tail;
      Doubled(text) + ['"'] + tail == (if text[0] == '"' then ['"', '"'] else [text[0]]) + rest
  {}

  lemma {:induction false} QuotedOfDoubled(text: string, tail: string)
    requires IsTail(tail)
    ensures QuotedText(Doubled(text) + ['"'] + tail) == Quoted(text, tail)
    decreases |text|
  {
    hide Doubled;
    var s := Doubled(text) + ['"'] + tail;
    if text == "" {
      NothingDoubled();
      assert s == ['"'] + tail;
      assert s[1..] == tail;
    } else {
      var rest := Doubled(text[1..]) + ['"'] + tail;
      DoubledFirst(text, tail);
      QuotedOfDoubled(text[1..], tail);
      assert text == [text[0]] + text[1..];
      assert s[(if text[0] == '"' then 2 else 1)..] == rest;
    }
  }

  lemma NothingDoubled()
    ensures Doubled("") == ""
  {}

  lemma CommaOfTail(tail: string)
    requires IsTail(tail)
    ensures Comma(tail) == 0 && tail[0..] == tail
  {}

  lemma {:induction false} BlanksAreSkipped(blanks: string, s: string)
    requires AreBlanks(blanks) && (s != "" ==> !IsBlank(s[0]))
    ensures SkipBlanks(blanks + s) == s
  {
    if blanks == "" {
      assert blanks + s == s;
    } else {
      assert blanks[0] in blanks && (blanks + s)[1..] == blanks[1..] + s;
      BlanksAreSkipped(blanks[1..], s);
    }
  }

  /** Blanks in front of a field make no difference. */
  lemma FieldAfterBlanks(blanks: string, s: string)
    requires AreBlanks(blanks) && (s != "" ==> !IsBlank(s[0]))
    ensures FirstField(blanks + s) == FirstField(s)
  {
    hide QuotedText, Comma;
    BlanksAreSkipped(blanks, s);
    BlanksAreSkipped("", s);
    assert "" + s == s;
  }

  /** A quoted field comes back, and is never taken to be followed by an empty last one. */
  lemma FirstFieldOfQuoted(blanks: string, text: string, tail: string)
    requires IsTail(tail) && AreBlanks(blanks)
    ensures FirstField(CellText(Cell(blanks, text, true)) + tail) == Field(text, tail, false)
  {
    hide FirstField, Doubled, AreBlanks;
    var s := ['"'] + Doubled(text) + ['"'] + tail;
    assert CellText(Cell(blanks, text, true)) + tail == blanks + s;
    FieldAfterBlanks(blanks, s);
    FirstFieldOfQuotes(text, tail);
  }

  lemma FirstFieldOfQuotes(text: string, tail: string)
    requires IsTail(tail)
    ensures FirstField(['"'] + Doubled(text) + ['"'] + tail) == Field(text, tail, false)
  {
    hide QuotedText, Doubled, Comma;
    var s := ['"'] + Doubled(text) + ['"'] + tail;
    var inner := Doubled(text) + ['"'] + tail;
    assert s == ['"'] + inner;
    assert s[1..] == inner;
    QuotedOfDoubled(text, tail);
    DoubledIsLonger(text);
    CommaOfTail(tail);
    if |text| == |Doubled(text)| {
      assert inner[|text|] == '"';
    }
  }

  lemma {:induction false} CommaAfterPlain(text: string, tail: string)
    requires IsTail(tail) && forall i | 0 <= i < |text| :: text[i] != ','
    ensures Comma(text + tail) == |text|
  {
    if text == "" {
      assert text + tail == tail;
    } else {
      assert (text + tail)[1..] == text[1..] + tail;
      CommaAfterPlain(text[1..], tail);
    }
  }

  lemma FirstFieldOfPlain(blanks: string, text: string, tail: string)
    requires IsTail(tail) && IsPlain(text) && AreBlanks(blanks)
    ensures FirstField(blanks + text + tail) == Field(text, tail, |tail| == 1)
  {
    hide QuotedText, Comma, AreBlanks;
    assert blanks + text + tail == blanks + (text + tail);
    FieldAfterBlanks(blanks, text + tail);
    CommaAfterPlain(text, tail);
    var s := text + tail;
    assert SkipBlanks(s) == s;
    assert s[..|text|] == text && s[|text|..] == tail;
  }

  /** What stands after the first cell. */
  function TailOf(cells: seq<Cell>): string
    requires cells != []
  {
    if |cells| == 1 then "" else [','] + Line(cells[1..])
  }

  lemma LineOfFirst(cells: seq<Cell>)
    requires cells != []
    ensures Line(cells) == CellText(cells[0]) + TailOf(cells)
    ensures IsTail(TailOf(cells))
  {}

  lemma EmptyLine(cells: seq<Cell>)
    requires cells != [] && Line(cells) == ""
    ensures cells == [Cell("", "", false)]
  {}

  /**
   * A line of well-formed cells is split into their texts, except that an empty last cell without quotes is lost when
   * it is the only one or comes after a quoted one.
   */
  lemma {:induction false} LinesComeBack(cells: seq<Cell>)
    requires IsWellFormed(cells)
    ensures Fields(Line(cells)) == if IsLastCellLost(cells) then Texts(cells)[..|cells| - 1] else Texts(cells)
    decreases |cells|
  {
    hide FirstField, Fields, CellText, Texts, IsPlain, AreBlanks;
    var s, first, tail := Line(cells), cells[0], TailOf(cells);
    LineOfFirst(cells);
    TextsOfFirst(cells);
    if s == "" {
      EmptyLine(cells);
      NoFields();
      assert Texts(cells)[..0] == [];
    } else {
      FieldsOf(s);
      if first.quoted {
        FirstFieldOfQuoted(first.blanks, first.text, tail);
        assert first == Cell(first.blanks, first.text, true);
      } else {
        FirstFieldOfPlain(first.blanks, first.text, tail);
        PlainCell(first);
      }
      if |cells| > 1 {
        var rest := cells[1..];
        assert tail[1..] == Line(rest);
        assert forall i | 0 <= i < |rest| :: rest[i] == cells[i + 1];
        LinesComeBack(rest);
        RestOfCells(cells);
      } else {
        assert [first.text] + [] == [first.text];
      }
    }
  }

  lemma TextsOfFirst(cells: seq<Cell>)
    requires cells != []
    ensures Texts(cells) == [cells[0].text] + Texts(cells[1..])
    ensures |cells| == 1 ==> Texts(cells) == [cells[0].text]
  {}

  lemma PlainCell(cell: Cell)
    requires !cell.quoted
    ensures CellText(cell) == cell.blanks + cell.text
  {}

  /** How the fields of a line follow from those of the rest of the line. */
  lemma RestOfCells(cells: seq<Cell>)
    requires |cells| > 1
    requires Fields(Line(cells[1..]))
          == if IsLastCellLost(cells[1..]) then Texts(cells[1..])[..|cells| - 2] else Texts(cells[1..])
    ensures
      var rest := cells[1..];
      [cells[0].text]
      + (if !cells[0].quoted && Line(rest) == "" then [""] else [])
      + Fields(Line(rest))
      == if IsLastCellLost(cells) then Texts(cells)[..|cells| - 1] else Texts(cells)
  {
    hide Fields, CellText, Texts, Line, IsLastCellLost;
    var first, rest := cells[0].text, cells[1..];
    TextsOfFirst(cells);
    LastCellOfRest(cells);
    if Line(rest) == "" {
      EmptyLine(rest);
      TextsOfFirst(rest);
      assert Texts(rest)[..0] == [];
      assert [first] + [""] + [] == [first] + [""];
      assert [first] + [] + [] == ([first] + [""])[..1];
    } else {
      assert [first] + [] + Fields(Line(rest)) == [first] + Fields(Line(rest));
      assert ([first] + Texts(rest))[..|cells| - 1] == [first] + Texts(rest)[..|cells| - 2];
    }
  }

  lemma LastCellOfRest(cells: seq<Cell>)
    requires |cells| > 1
    ensures
      if Line(cells[1..]) == "" then IsLastCellLost(cells[1..]) && (IsLastCellLost(cells) <==> cells[0].quoted)
      else IsLastCellLost(cells) <==> IsLastCellLost(cells[1..])
  {
    hide CellText, Line;
    var rest := cells[1..];
    assert rest[|rest| - 1] == cells[|cells| - 1];
    if Line(rest) == "" {
      EmptyLine(rest);
    } else if |rest| == 1 {
      LineOfEmpty(rest);
    }
  }

  lemma LineOfEmpty(cells: seq<Cell>)
    requires |cells| == 1
    ensures cells[0] == Cell("", "", false) ==> Line(cells) == ""
  {}

  /** A line of quoted fields is split into exactly those fields. */
  lemma QuotedFieldsComeBack(cells: seq<Cell>)
    requires cells != [] && forall i | 0 <= i < |cells| :: cells[i].quoted && AreBlanks(cells[i].blanks)
    ensures Fields(Line(cells)) == Texts(cells)
  {
    LinesComeBack(cells);
  }

  /** Plain, after a blank, and in quotes with a comma and a doubled quote: a, b,"c,""" */
  lemma ThreeFields()
    ensures Fields("a, b,\"c,\"\"\"") == ["a", "b", "c,\""]
  {
    hide Fields, IsLastCellLost;
    var a, b, c := Cell("", "a", false), Cell(" ", "b", false), Cell("", "c,\"", true);
    var cells := [a, b, c];
    assert cells[1..] == [b, c] && [b, c][1..] == [c] && [c][1..] == [];
    TextsOfFirst(cells);
    TextsOfFirst([b, c]);
    TextsOfFirst([c]);
    assert "c,\""[1..] == ",\"" && ",\""[1..] == "\"" && "\""[1..] == "";
    assert Doubled("\"") == "\"\"" && Doubled(",\"") == ",\"\"" && Doubled("c,\"") == "c,\"\"";
    assert CellText(a) == "a" && CellText(b) == " b" && CellText(c) == "\"c,\"\"\"";
    assert Line([c]) == CellText(c) && Line([b, c]) == CellText(b) + [','] + Line([c]);
    assert Line(cells) == CellText(a) + [','] + Line([b, c]);
    assert Line(cells) == "a, b,\"c,\"\"\"";
    assert !IsLastCellLost(cells) by {
      LostMeansEmpty(cells);
    }
    LinesComeBack(cells);
  }

  lemma LostMeansEmpty(cells: seq<Cell>)
    requires cells != []
    ensures IsLastCellLost(cells) ==> cells[|cells| - 1].text == ""
  {}

  // Fields that are not well-formed.

  /** A quote that is not closed takes all that is left. */
  lemma {:induction false} OpenQuoteTakesAll(text: string)
    ensures QuotedText(Doubled(text)) == Quoted(text, "")
  {
    hide Doubled;
    if text == "" {
      NothingDoubled();
    } else {
      var rest := Doubled(text[1..]);
      DoubledText(text);
      OpenQuoteTakesAll(text[1..]);
      assert text == [text[0]] + text[1..];
      assert Doubled(text)[(if text[0] == '"' then 2 else 1)..] == rest;
    }
  }

  lemma DoubledText(text: string)
    requires text != ""
    ensures Doubled(text) == (if text[0] == '"' then ['"', '"'] else [text[0]]) + Doubled(text[1..])
  {}

  /** What stands between a closing quote and the next comma is dropped. */
  lemma TextAfterQuotesIsDropped(text: string, junk: string, tail: string)
    requires junk != "" && junk[0] != '"' && ',' !in junk && IsTail(tail)
    ensures QuotedText(Doubled(text) + ['"'] + (junk + tail)) == Quoted(text, junk + tail)
    ensures FirstField(['"'] + (Doubled(text) + ['"'] + (junk + tail))).text == text
    ensures FirstField(['"'] + (Doubled(text) + ['"'] + (junk + tail))).rest == tail
  {
    hide QuotedText, Comma, Doubled;
    var inner := Doubled(text) + ['"'] + (junk + tail);
    QuotedBeforeAnything(text, junk + tail);
    CommaAfterPlain(junk, tail);
    var s := ['"'] + inner;
    assert SkipBlanks(s) == s && s[1..] == inner;
    assert (junk + tail)[|junk|..] == tail;
  }

  lemma {:induction false} QuotedBeforeAnything(text: string, rest: string)
    requires rest != "" && rest[0] != '"'
    ensures QuotedText(Doubled(text) + ['"'] + rest) == Quoted(text, rest)
  {
    hide Doubled;
    var s := Doubled(text) + ['"'] + rest;
    if text == "" {
      NothingDoubled();
      assert s == ['"'] + rest;
      assert s[1..] == rest;
    } else {
      var later := Doubled(text[1..]) + ['"'] + rest;
      DoubledFirst(text, rest);
      QuotedBeforeAnything(text[1..], rest);
      assert text == [text[0]] + text[1..];
      assert s[(if text[0] == '"' then 2 else 1)..] == later;
    }
  }
}
