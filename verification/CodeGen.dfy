/** Writing bytes as the source text of an array: src/base/codegen_bytearray_stream.cc, lines 51 to 145. */
module CodeGen {
  import N = NumberNormalizer

  type byte = x: nat | x < 0x100

  const BYTES_ON_ONE_LINE := 20
  const DEFAULT_INTERNAL_BUFFER_SIZE: nat := 4000 * 1024

  function HexDigit(d: nat): char
    requires d < 16
  {
    "0123456789ABCDEF"[d]
  }

  /** One byte of the array, in front of it a new line or a space. */
  function ByteText(index: nat, b: byte): string {
    [if index % BYTES_ON_ONE_LINE == 0 then '\n' else ' ', '0', 'x', HexDigit(b / 16), HexDigit(b % 16), ',']
  }

  /** Bytes of the array from an index on, without any buffer. */
  function Rendered(index: nat, bytes: seq<byte>): string
    decreases |bytes|
  {
    if bytes == [] then "" else ByteText(index, bytes[0]) + Rendered(index + 1, bytes[1..])
  }

  function Header(name: string): string {
    "alignas(std::max_align_t) constexpr char k" + name + "_data[] = {"
  }

  function Closing(name: string, count: nat): string {
    "};\n" + "constexpr size_t k" + name + "_size = " + N.Formatted(count) + ";\n"
  }

  function Footer(name: string, count: nat): string {
    (if count != 0 then "\n" else "") + Closing(name, count)
  }

  /** The whole definition of an array. */
  function Definition(name: string, bytes: seq<byte>): string {
    Header(name) + Rendered(0, bytes) + Footer(name, |bytes|)
  }

  lemma {:induction false} RenderedConcat(index: nat, a: seq<byte>, b: seq<byte>)
    ensures Rendered(index, a + b) == Rendered(index, a) + Rendered(index + |a|, b)
    decreases |a|
  {
    hide ByteText;
    if a == [] {
      assert a + b == b;
    } else {
      assert (a + b)[1..] == a[1..] + b;
      RenderedConcat(index + 1, a[1..], b);
    }
  }

  class BasicCodeGenByteArrayStreamBuf {
    const buffer: array<byte>
    /** How much of the buffer is filled. */
    var put: nat
    /** The text written so far. */
    var output: string
    var isOpen: bool
    var varNameBase: string
    var outputCount: nat

    /** The text from before the present definition, and the bytes that belong to the definition. */
    ghost var before: string
    ghost var written: seq<byte>

    ghost predicate Valid()
      reads this, buffer
    {
      && buffer.Length == DEFAULT_INTERNAL_BUFFER_SIZE
      && put <= buffer.Length
      && (isOpen ==>
          && outputCount + put == |written|
          && written[outputCount..] == buffer[..put]
          && output == before + Header(varNameBase) + Rendered(0, written[..outputCount]))
    }

    constructor ()
      ensures Valid() && fresh(buffer)
      ensures !isOpen && output == "" && put == 0
    {
      buffer := new byte[DEFAULT_INTERNAL_BUFFER_SIZE];
      put, output, isOpen, varNameBase, outputCount := 0, "", false, "", 0;
      before, written := "", [];
    }

    /** Begins a definition. Bytes that are still in the buffer become its first ones. */
    method OpenVarDef(name: string) returns (ok: bool)
      requires Valid()
      modifies this
      ensures Valid()
      ensures ok <==> !old(isOpen) && name != ""
      ensures ok ==> isOpen && varNameBase == name && before == old(output) && written == buffer[..put]
      ensures !ok ==> isOpen == old(isOpen) && output == old(output) && written == old(written)
      ensures put == old(put)
    {
      hide Header;
      if isOpen || name == "" {
        return false;
      }
      before := output;
      written := buffer[..put];
      varNameBase := name;
      output := output + Header(name);
      outputCount := 0;
      isOpen := true;
      assert written[..0] == [];
      return true;
    }

    method WriteBytes(bytes: seq<byte>)
      modifies `output, `outputCount
      ensures output == old(output) + Rendered(old(outputCount), bytes)
      ensures outputCount == old(outputCount) + |bytes|
    {
      hide ByteText;
      for i := 0 to |bytes|
        invariant outputCount == old(outputCount) + i
        invariant output == old(output) + Rendered(old(outputCount), bytes[..i])
      {
        output := output + ByteText(outputCount, bytes[i]);
        outputCount := outputCount + 1;
        assert bytes[..i + 1] == bytes[..i] + [bytes[i]];
        RenderedConcat(old(outputCount), bytes[..i], [bytes[i]]);
        RenderedByte(old(outputCount) + i, bytes[i]);
      }
      assert bytes[..|bytes|] == bytes;
    }

    /** Writes out the buffer, and one more byte unless it is absent. */
    method Overflow(c: seq<byte>) returns (ok: bool)
      requires |c| <= 1
      requires Valid()
      modifies this
      ensures Valid()
      ensures ok == isOpen == old(isOpen) && varNameBase == old(varNameBase) && before == old(before)
      ensures isOpen ==> written == old(written) + c && put == 0
      ensures !isOpen ==> put == old(put) && output == old(output) && outputCount == old(outputCount)
    {
      hide Rendered, Header;
      if !isOpen {
        return false;
      }
      ghost var count, pending := outputCount, buffer[..put];
      ghost var shown := written[..outputCount];
      if 0 < put {
        WriteBytes(buffer[..put]);
      }
      NothingRendered(count);
      RenderedConcat(0, shown, pending);
      assert shown + pending == written;
      if |c| == 1 {
        WriteBytes([c[0]]);
        assert c == [c[0]];
      }
      NothingRendered(outputCount);
      RenderedConcat(0, written, c);
      put := 0;
      written := written + c;
      assert written[..outputCount] == written;
      return true;
    }

    /** One byte, into the buffer if it has room. */
    method Put(c: byte) returns (ok: bool)
      requires Valid()
      modifies this, buffer
      ensures Valid()
      ensures isOpen == old(isOpen) && varNameBase == old(varNameBase) && before == old(before)
      ensures isOpen ==> ok && written == old(written) + [c]
      ensures !isOpen ==>
                && ok == (old(put) < buffer.Length)
                && buffer[..put] == old(buffer[..put]) + (if ok then [c] else [])
                && output == old(output) && outputCount == old(outputCount)
    {
      hide Rendered, Header;
      if put < buffer.Length {
        ghost var pending := buffer[..put];
        buffer[put] := c;
        put := put + 1;
        assert buffer[..put] == pending + [c];
        if isOpen {
          KeepsShown(written, c, outputCount);
        }
        written := written + [c];
        return true;
      }
      ok := Overflow([c]);
    }

    /**
     * Several bytes, into the buffer if it has room, else straight to the output; while no definition is open, too, and
     * then past what is in the buffer.
     */
    method Write(s: seq<byte>)
      requires Valid()
      modifies this, buffer
      ensures Valid()
      ensures isOpen == old(isOpen) && varNameBase == old(varNameBase) && before == old(before)
      ensures isOpen ==> written == old(written) + s
      ensures !isOpen && |s| <= buffer.Length - old(put) ==>
                buffer[..put] == old(buffer[..put]) + s && output == old(output) && outputCount == old(outputCount)
      ensures !isOpen && |s| > buffer.Length - old(put) ==>
                && buffer[..put] == old(buffer[..put])
                && output == old(output) + Rendered(old(outputCount), s)
                && outputCount == old(outputCount) + |s|
    {
      hide Rendered, Header;
      if |s| <= buffer.Length - put {
        Copy(s);
      } else {
        var ok := Overflow([]);
        assert old(written) + [] == old(written);
        assert isOpen ==> written[..outputCount] == written;
        WriteBytes(s);
        RenderedConcat(0, written, s);
        written := written + s;
        assert isOpen ==> written[..outputCount] == written;
      }
    }

    method Copy(s: seq<byte>)
      requires Valid() && |s| <= buffer.Length - put
      modifies this, buffer
      ensures Valid()
      ensures isOpen == old(isOpen) && varNameBase == old(varNameBase) && before == old(before)
      ensures isOpen ==> written == old(written) + s
      ensures buffer[..put] == old(buffer[..put]) + s
      ensures output == old(output) && outputCount == old(outputCount)
    {
      hide Rendered, Header;
      ghost var pending := buffer[..put];
      forall i | 0 <= i < |s| {
        buffer[put + i] := s[i];
      }
      put := put + |s|;
      assert buffer[..put] == pending + s;
      if isOpen {
        assert (written + s)[..outputCount] == written[..outputCount];
        assert (written + s)[outputCount..] == written[outputCount..] + s;
      }
      written := written + s;
    }

    method Flush() returns (ok: bool)
      requires Valid()
      modifies this
      ensures Valid()
      ensures ok == isOpen == old(isOpen) && varNameBase == old(varNameBase) && before == old(before)
      ensures isOpen ==> written == old(written)
      ensures isOpen ==> output == before + Header(varNameBase) + Rendered(0, written)
      ensures !isOpen ==> put == old(put) && output == old(output) && outputCount == old(outputCount)
    {
      hide Rendered, Header;
      ok := Overflow([]);
      if isOpen {
        assert old(written) + [] == old(written);
        assert written[..outputCount] == written;
      }
    }

    /** Ends the definition: the text is that of all its bytes, however they were written. */
    method CloseVarDef() returns (ok: bool)
      requires Valid()
      modifies this
      ensures Valid()
      ensures ok == old(isOpen) && !isOpen
      ensures ok ==> output == old(before) + Definition(old(varNameBase), old(written)) && put == 0
      ensures !ok ==> put == old(put) && output == old(output) && outputCount == old(outputCount)
    {
      hide Rendered, Header, Closing, Footer, Definition;
      if !isOpen {
        return false;
      }
      var flushed := Overflow([]);
      assert old(written) + [] == old(written);
      assert written[..outputCount] == written;
      ghost var shown := output;
      if outputCount != 0 {
        output := output + "\n";
      }
      output := output + Closing(varNameBase, outputCount);
      EndsWithFooter(shown, varNameBase, outputCount);
      assert output == old(before) + Definition(old(varNameBase), old(written)) by {
        DefinitionAfter(before, varNameBase, written);
      }
      isOpen := false;
      return true;
    }

    /** One definition, its bytes put, written and flushed in any way. */
    method Define(name: string, calls: seq<Call>)
      requires Valid() && !isOpen && name != ""
      modifies this, buffer
      ensures Valid() && !isOpen
      ensures output == old(output) + Definition(name, old(buffer[..put]) + BytesOf(calls))
    {
      hide Definition, Rendered, Header, Footer, Closing, BytesOf;
      var ok := OpenVarDef(name);
      NoBytes(calls);
      ghost var first := written;
      for i := 0 to |calls|
        invariant Valid() && isOpen && varNameBase == name && before == old(output)
        invariant written == first + BytesOf(calls[..i])
      {
        OneMoreCall(calls, i);
        Appended(first, BytesOf(calls[..i]), BytesOfCall(calls[i]));
        match calls[i] {
          case PutByte(c) =>
            ok := Put(c);
          case WriteBuffer(s) =>
            Write(s);
          case FlushBuffer =>
            ok := Flush();
        }
      }
      assert calls[..|calls|] == calls;
      ok := CloseVarDef();
    }
  }

  datatype Call = PutByte(c: byte) | WriteBuffer(s: seq<byte>) | FlushBuffer

  function BytesOfCall(call: Call): seq<byte> {
    match call
    case PutByte(c) => [c]
    case WriteBuffer(s) => s
    case FlushBuffer => []
  }

  /** The bytes of calls, the last call last. */
  function BytesOf(calls: seq<Call>): seq<byte> {
    if calls == [] then [] else BytesOf(calls[..|calls| - 1]) + BytesOfCall(calls[|calls| - 1])
  }

  lemma Appended(a: seq<byte>, b: seq<byte>, c: seq<byte>)
    ensures a + b + c == a + (b + c)
    ensures a + [] == a
  {}

  lemma NoBytes(calls: seq<Call>)
    ensures BytesOf(calls[..0]) == []
    ensures calls[..|calls|] == calls
  {}

  lemma OneMoreCall(calls: seq<Call>, i: nat)
    requires i < |calls|
    ensures BytesOf(calls[..i + 1]) == BytesOf(calls[..i]) + BytesOfCall(calls[i])
  {
    assert calls[..i + 1][..i] == calls[..i];
  }

  lemma RenderedByte(index: nat, b: byte)
    ensures Rendered(index, [b]) == ByteText(index, b)
  {
    hide ByteText;
    assert [b][1..] == [];
    assert Rendered(index + 1, []) == "";
  }

  lemma NothingRendered(index: nat)
    ensures Rendered(index, []) == ""
  {}

  lemma KeepsShown(written: seq<byte>, c: byte, count: nat)
    requires count <= |written|
    ensures (written + [c])[..count] == written[..count]
    ensures (written + [c])[count..] == written[count..] + [c]
  {}

  lemma EndsWithFooter(text: string, name: string, count: nat)
    ensures text + Footer(name, count) == (if count != 0 then text + "\n" else text) + Closing(name, count)
  {
    hide Closing;
    assert text + ("\n" + Closing(name, count)) == text + "\n" + Closing(name, count);
    assert "" + Closing(name, count) == Closing(name, count);
  }

  lemma DefinitionAfter(before: string, name: string, bytes: seq<byte>)
    ensures before + Definition(name, bytes) == before + Header(name) + Rendered(0, bytes) + Footer(name, |bytes|)
  {
    hide Header, Rendered, Footer;
    var a, b, c := Header(name), Rendered(0, bytes), Footer(name, |bytes|);
    assert before + (a + b + c) == before + a + b + c;
  }

  // Reading the text back.

  function HexValue(c: char): (d: nat)
    ensures d < 16
  {
    if '0' <= c <= '9' then c as int - '0' as int
    else if 'A' <= c <= 'F' then c as int - 'A' as int + 10
    else 0
  }

  /** The bytes of an array's text, up to what is not a byte. */
  function ParsedBytes(text: string): seq<byte> {
    if text == "" then
      []
    else if text[0] == ' ' || text[0] == '\n' then
      ParsedBytes(text[1..])
    else if |text| >= 5 && text[0] == '0' && text[1] == 'x' && text[4] == ',' then
      [HexValue(text[2]) * 16 + HexValue(text[3])] + ParsedBytes(text[5..])
    else
      []
  }

  lemma HexDigitIsRead(d: nat)
    requires d < 16
    ensures HexValue(HexDigit(d)) == d
  {
    assert d in {0, 1, 2, 3, 4, 5, 6, 7, 8, 9, 10, 11, 12, 13, 14, 15};
  }

  lemma ByteIsParsed(index: nat, b: byte, tail: string)
    ensures ParsedBytes(ByteText(index, b) + tail) == [b] + ParsedBytes(tail)
  {
    hide HexDigit, HexValue;
    HexDigitIsRead(b / 16);
    HexDigitIsRead(b % 16);
    var text := ByteText(index, b) + tail;
    assert text[1..][5..] == tail;
    assert text[1..][2] == HexDigit(b / 16) && text[1..][3] == HexDigit(b % 16);
    assert ParsedBytes(text) == ParsedBytes(text[1..]);
  }

  lemma {:induction false} RenderedIsParsed(index: nat, bytes: seq<byte>, tail: string)
    ensures ParsedBytes(Rendered(index, bytes) + tail) == bytes + ParsedBytes(tail)
    decreases |bytes|
  {
    hide ByteText, ParsedBytes;
    if bytes == [] {
      assert Rendered(index, bytes) + tail == tail;
    } else {
      var rest := Rendered(index + 1, bytes[1..]);
      assert Rendered(index, bytes) + tail == ByteText(index, bytes[0]) + (rest + tail);
      ByteIsParsed(index, bytes[0], rest + tail);
      RenderedIsParsed(index + 1, bytes[1..], tail);
      assert bytes == [bytes[0]] + bytes[1..];
    }
  }

  lemma FooterHasNoBytes(name: string, count: nat)
    ensures ParsedBytes(Footer(name, count)) == []
  {
    hide N.Formatted;
    var footer := Footer(name, count);
    if count != 0 {
      assert footer[1..] == Closing(name, count);
    }
    assert Closing(name, count)[0] == '}';
  }

  /** The text of a definition after its header is read as the bytes, and the size printed is their number. */
  lemma DefinitionIsRead(name: string, bytes: seq<byte>)
    ensures |Header(name)| <= |Definition(name, bytes)|
    ensures ParsedBytes(Definition(name, bytes)[|Header(name)|..]) == bytes
    ensures Definition(name, bytes)[..|Header(name)|] == Header(name)
    ensures
      var size := N.Formatted(|bytes|);
      && N.IsAsciiDigits(size) && N.IsReadable(size)
      && N.R.Decimal(0, N.Values(size)) == |bytes|
      && |Definition(name, bytes)| >= |size| + 2
      && Definition(name, bytes)[|Definition(name, bytes)| - |size| - 2..] == size + ";\n"
  {
    hide Header, Rendered, ParsedBytes, N.Formatted, N.Values, N.CharValue;
    var body := Rendered(0, bytes) + Footer(name, |bytes|);
    assert Definition(name, bytes) == Header(name) + body;
    RenderedIsParsed(0, bytes, Footer(name, |bytes|));
    FooterHasNoBytes(name, |bytes|);
    N.FormattedIsRead(|bytes|);
  }
}
