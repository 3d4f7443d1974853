/** The layout of the generated source text, and a reader of it: src/base/codegen_bytearray_stream.cc, lines 61 to 145. */
module CodeGenReader {
  import opened Wrappers
  import opened CodeGen
  import N = NumberNormalizer

  /** The six characters of a byte: every twentieth one begins a line, any other one follows a space. */
  predicate IsByteText(text: string, index: nat, b: byte) {
    && |text| == 6
    && text[0] == (if index % 20 == 0 then '\n' else ' ')
    && text[1] == '0' && text[2] == 'x'
    && HexValue(text[3]) * 16 + HexValue(text[4]) == b
    && text[5] == ','
  }

  lemma LayoutOfByte(index: nat, b: byte)
    ensures IsByteText(ByteText(index, b), index, b)
  {
    hide HexDigit, HexValue;
    HexDigitIsRead(b / 16);
    HexDigitIsRead(b % 16);
  }

  lemma RenderedFirst(index: nat, bytes: seq<byte>)
    requires bytes != []
    ensures Rendered(index, bytes) == ByteText(index, bytes[0]) + Rendered(index + 1, bytes[1..])
  {}

  lemma {:induction false} RenderedLength(index: nat, bytes: seq<byte>)
    ensures |Rendered(index, bytes)| == 6 * |bytes|
    decreases |bytes|
  {
    if bytes != [] {
      RenderedLength(index + 1, bytes[1..]);
    }
  }

  lemma SliceOfRest(first: string, rest: string, from: nat)
    requires |first| == 6 && from + 6 <= |rest|
    ensures (first + rest)[from + 6..from + 12] == rest[from..from + 6]
  {}

  /** Twenty bytes a line, six characters each. */
  lemma {:induction false} LayoutOfBytes(index: nat, bytes: seq<byte>, k: nat)
    requires k < |bytes|
    ensures |Rendered(index, bytes)| == 6 * |bytes|
    ensures IsByteText(Rendered(index, bytes)[6 * k..6 * k + 6], index + k, bytes[k])
    decreases |bytes|
  {
    hide ByteText, IsByteText, Rendered;
    RenderedLength(index, bytes);
    RenderedFirst(index, bytes);
    var text, first, rest := Rendered(index, bytes), ByteText(index, bytes[0]), Rendered(index + 1, bytes[1..]);
    RenderedLength(index + 1, bytes[1..]);
    assert |first| == 6;
    if k == 0 {
      LayoutOfByte(index, bytes[0]);
      assert text[0..6] == first;
    } else {
      LayoutOfBytes(index + 1, bytes[1..], k - 1);
      SliceOfRest(first, rest, 6 * (k - 1));
    }
  }

  const OPENING := "alignas(std::max_align_t) constexpr char k"

  /** What a text declares: the name, the bytes and the size. */
  datatype Declared = Declared(name: string, bytes: seq<byte>, size: nat)

  function First(text: string, c: char): (n: nat)
    ensures n <= |text|
  {
    if text == "" || text[0] == c then 0 else 1 + First(text[1..], c)
  }

  function ReadDefinition(text: string): Option<Declared> {
    if !(OPENING <= text) then
      None
    else
      var declarator := text[|OPENING|..];
      var i := First(declarator, '[');
      if i < 5 || declarator[i - 5..i] != "_data" then None else ReadBody(declarator[..i - 5], declarator[i..])
  }

  function ReadBody(name: string, text: string): Option<Declared> {
    if !("[] = {" <= text) then
      None
    else
      var inner := text[6..];
      var j := First(inner, '}');
      var size := ReadSize(name, inner[j..]);
      if size.None? then None else Some(Declared(name, ParsedBytes(inner[..j]), size.value))
  }

  function ReadSize(name: string, text: string): Option<nat> {
    var front := "};\nconstexpr size_t k" + name + "_size = ";
    if !(front <= text && |text| >= |front| + 2 && text[|text| - 2..] == ";\n") then
      None
    else
      var digits := text[|front|..|text| - 2];
      if N.IsAsciiDigits(digits) && N.IsReadable(digits) then Some(N.R.Decimal(0, N.Values(digits))) else None
  }

  lemma {:induction false} FirstAfter(a: string, c: char, b: string)
    requires c !in a
    ensures First(a + [c] + b, c) == |a|
  {
    if a == "" {
      assert a + [c] + b == [c] + b;
    } else {
      assert (a + [c] + b)[1..] == a[1..] + [c] + b;
      FirstAfter(a[1..], c, b);
    }
  }

  lemma HexDigitIsNoBrace(d: nat)
    requires d < 16
    ensures HexDigit(d) != '}'
  {
    assert d in {0, 1, 2, 3, 4, 5, 6, 7, 8, 9, 10, 11, 12, 13, 14, 15};
  }

  lemma {:induction false} NoBrace(index: nat, bytes: seq<byte>)
    ensures '}' !in Rendered(index, bytes)
    decreases |bytes|
  {
    hide HexDigit;
    if bytes != [] {
      HexDigitIsNoBrace(bytes[0] / 16);
      HexDigitIsNoBrace(bytes[0] % 16);
      NoBrace(index + 1, bytes[1..]);
    }
  }

  lemma SizeIsRead(name: string, count: nat)
    ensures ReadSize(name, Closing(name, count)) == Some(count)
  {
    hide N.Formatted, N.Values, N.IsReadable, N.IsAsciiDigits, N.R.Decimal;
    N.FormattedIsRead(count);
    var front := "};\nconstexpr size_t k" + name + "_size = ";
    var size := N.Formatted(count);
    var text := Closing(name, count);
    assert text == front + size + ";\n";
    assert text[|front|..|text| - 2] == size;
  }

  lemma PartsAreRead(name: string, shown: string, closing: string, size: nat)
    requires '}' !in shown && closing != "" && closing[0] == '}' && ReadSize(name, closing) == Some(size)
    ensures ReadBody(name, "[] = {" + (shown + closing)) == Some(Declared(name, ParsedBytes(shown), size))
  {
    hide ReadSize, First, ParsedBytes;
    var inner := shown + closing;
    var text := "[] = {" + inner;
    assert |"[] = {"| == 6 && text[6..] == inner;
    assert inner == shown + ['}'] + closing[1..];
    FirstAfter(shown, '}', closing[1..]);
    assert inner[..|shown|] == shown && inner[|shown|..] == closing;
  }

  function LastLine(bytes: seq<byte>): string {
    if bytes != [] then "\n" else ""
  }

  lemma BodyIsRead(name: string, bytes: seq<byte>)
    ensures ReadBody(name, "[] = {" + (Rendered(0, bytes) + Footer(name, |bytes|))) ==
            Some(Declared(name, bytes, |bytes|))
  {
    hide Rendered, ReadSize, ReadBody, Closing, First, ParsedBytes, Footer;
    var shown, closing := Rendered(0, bytes) + LastLine(bytes), Closing(name, |bytes|);
    FooterParts(name, |bytes|);
    assert Rendered(0, bytes) + Footer(name, |bytes|) == shown + closing;
    ClosingBegins(name, |bytes|);
    NoBrace(0, bytes);
    SizeIsRead(name, |bytes|);
    PartsAreRead(name, shown, closing, |bytes|);
    NothingParsed();
    RenderedIsParsed(0, bytes, LastLine(bytes));
    assert bytes + [] == bytes;
  }

  lemma FooterParts(name: string, count: nat)
    ensures Footer(name, count) == (if count > 0 then "\n" else "") + Closing(name, count)
  {}

  lemma NothingParsed()
    ensures ParsedBytes("") == [] && ParsedBytes("\n") == []
  {}

  lemma ClosingBegins(name: string, count: nat)
    ensures Closing(name, count) != "" && Closing(name, count)[0] == '}'
  {
    hide N.Formatted;
  }

  /** The text of a definition declares the name, the bytes and their number. */
  lemma DefinitionDeclares(name: string, bytes: seq<byte>)
    requires '[' !in name
    ensures ReadDefinition(Definition(name, bytes)) == Some(Declared(name, bytes, |bytes|))
  {
    hide Rendered, Footer, ReadBody, First;
    var body := "[] = {" + (Rendered(0, bytes) + Footer(name, |bytes|));
    var declarator := name + "_data" + body;
    assert Definition(name, bytes) == OPENING + declarator;
    assert declarator == (name + "_data") + ['['] + body[1..];
    FirstAfter(name + "_data", '[', body[1..]);
    var i := First(declarator, '[');
    assert declarator[..i - 5] == name && declarator[i - 5..i] == "_data" && declarator[i..] == body;
    BodyIsRead(name, bytes);
  }
}
