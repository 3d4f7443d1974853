/** Printing decimal numbers in Japanese: src/base/number_util.cc, lines 47 to 71 and 174 to 323. */
module NumberPrinter {
  datatype Style = HalfWidthArabicAndKanji | FullWidthArabicAndKanji | Kanji | OldKanji

  /** A candidate text and the style it is written in. */
  datatype NumberString = NumberString(value: string, style: Style)

  const DIGITS_IN_BIG_RANK := 4
  const BIG_RANKS := 5
  const KANJI_VARIATIONS: seq<Style> := [HalfWidthArabicAndKanji, FullWidthArabicAndKanji, Kanji, OldKanji]

  predicate IsArabic(style: Style) {
    style == HalfWidthArabicAndKanji || style == FullWidthArabicAndKanji
  }

  predicate IsDigit(c: char) {
    '0' <= c <= '9'
  }

  predicate IsDecimalInteger(text: string) {
    text != "" && forall c | c in text :: IsDigit(c)
  }

  predicate IsZero(digits: string) {
    forall c | c in digits :: c == '0'
  }

  function DigitValue(c: char): (d: nat)
    requires IsDigit(c)
    ensures d < 10
  {
    c as int - '0' as int
  }

  function DigitKanji(style: Style, d: nat): string
    requires d < 10
  {
    match style
    case HalfWidthArabicAndKanji => ["0123456789"[d]]
    case FullWidthArabicAndKanji => ["０１２３４５６７８９"[d]]
    case Kanji => ["〇一二三四五六七八九"[d]]
    case OldKanji => if d == 0 then "" else [" 壱弐参四五六七八九"[d]]
  }

  function RankKanji(style: Style, rank: nat): string
    requires 1 <= rank <= DIGITS_IN_BIG_RANK
  {
    if rank == 1 then ""
    else if style == OldKanji then ["  拾百阡"[rank]]
    else ["  十百千"[rank]]
  }

  function BigRankKanji(style: Style, rank: nat): string
    requires rank < BIG_RANKS
  {
    if rank == 0 then ""
    else if style == OldKanji then [" 萬億兆京"[rank]]
    else [" 万億兆京"[rank]]
  }

  /** Four decimal digits. */
  predicate IsSegment(segment: string) {
    |segment| == DIGITS_IN_BIG_RANK && forall c | c in segment :: IsDigit(c)
  }

  /** The text of one digit inside a segment, once a digit other than zero has been seen. */
  function DigitText(style: Style, c: char, i: nat): string
    requires IsDigit(c) && i < DIGITS_IN_BIG_RANK
  {
    if IsArabic(style) then
      DigitKanji(style, DigitValue(c))
    else if c == '0' then
      ""
    else
      (if style == OldKanji || i == DIGITS_IN_BIG_RANK - 1 || c != '1' then DigitKanji(style, DigitValue(c)) else "")
      + RankKanji(style, DIGITS_IN_BIG_RANK - i)
  }

  function SegmentText(style: Style, segment: string, i: nat, leading: bool): string
    requires IsSegment(segment) && i <= DIGITS_IN_BIG_RANK
    decreases DIGITS_IN_BIG_RANK - i
  {
    if i == DIGITS_IN_BIG_RANK then ""
    else if leading && segment[i] == '0' then SegmentText(style, segment, i + 1, true)
    else DigitText(style, segment[i], i) + SegmentText(style, segment, i + 1, false)
  }

  /** Decimal digits in whole segments, at most one for every big rank. */
  predicate AreSegments(digits: string) {
    && (forall c | c in digits :: IsDigit(c))
    && |digits| % DIGITS_IN_BIG_RANK == 0
    && |digits| <= BIG_RANKS * DIGITS_IN_BIG_RANK
  }

  function RankedSegment(style: Style, segment: string, rank: nat): string
    requires IsSegment(segment) && rank < BIG_RANKS
  {
    var text := SegmentText(style, segment, 0, true);
    if text == "" then "" else text + BigRankKanji(style, rank)
  }

  /** The text of some segments, the most significant first. */
  function Text(style: Style, digits: string): string
    requires AreSegments(digits)
    decreases |digits|
  {
    if digits == "" then
      ""
    else
      RankedSegment(style, digits[..DIGITS_IN_BIG_RANK], |digits| / DIGITS_IN_BIG_RANK - 1)
      + Text(style, digits[DIGITS_IN_BIG_RANK..])
  }

  function Filled(digits: string): (filled: string)
    requires IsDecimalInteger(digits)
    requires |digits| <= BIG_RANKS * DIGITS_IN_BIG_RANK
    ensures AreSegments(filled) && filled != ""
  {
    seq((DIGITS_IN_BIG_RANK - |digits| % DIGITS_IN_BIG_RANK) % DIGITS_IN_BIG_RANK, _ => '0') + digits
  }

  predicate IsEmitted(style: Style, digits: string) {
    !(|digits| <= DIGITS_IN_BIG_RANK && IsArabic(style))
  }

  /** The candidates in the first styles that are printed for the digits. */
  function Candidates(digits: string, styles: seq<Style>): seq<NumberString>
    requires AreSegments(digits)
  {
    if styles == [] then
      []
    else
      var style := styles[|styles| - 1];
      Candidates(digits, styles[..|styles| - 1])
      + if IsEmitted(style, digits) then [NumberString(Text(style, digits), style)] else []
  }

  lemma NoCandidates(digits: string)
    requires AreSegments(digits)
    ensures Candidates(digits, []) == []
  {}

  lemma NextCandidate(digits: string, styles: seq<Style>, k: nat)
    requires AreSegments(digits) && k < |styles|
    ensures Candidates(digits, styles[..k + 1]) ==
            Candidates(digits, styles[..k])
            + if IsEmitted(styles[k], digits) then [NumberString(Text(styles[k], digits), styles[k])] else []
  {
    hide Text;
    assert styles[..k + 1][..k] == styles[..k];
  }

  lemma Concatenation(a: string, b: string, c: string)
    ensures a + b + c == a + (b + c)
  {}

  lemma NextDigit(style: Style, segment: string, i: nat, leading: bool)
    requires IsSegment(segment) && i < DIGITS_IN_BIG_RANK
    ensures SegmentText(style, segment, i, leading) ==
            if leading && segment[i] == '0' then
              SegmentText(style, segment, i + 1, true)
            else
              DigitText(style, segment[i], i) + SegmentText(style, segment, i + 1, false)
  {
    hide DigitText;
  }

  /** The text of a digit as the program appends it, piece by piece. */
  lemma DigitPieces(style: Style, c: char, i: nat, before: string)
    requires IsDigit(c) && i < DIGITS_IN_BIG_RANK
    ensures IsArabic(style) ==> DigitText(style, c, i) == DigitKanji(style, DigitValue(c))
    ensures !IsArabic(style) && c == '0' ==> before + DigitText(style, c, i) == before
    ensures !IsArabic(style) && c != '0' ==>
              before + DigitText(style, c, i) ==
              if style == OldKanji || i == DIGITS_IN_BIG_RANK - 1 || c != '1' then
                before + DigitKanji(style, DigitValue(c)) + RankKanji(style, DIGITS_IN_BIG_RANK - i)
              else
                before + RankKanji(style, DIGITS_IN_BIG_RANK - i)
  {
    hide DigitKanji, RankKanji;
    Concatenation(before, DigitKanji(style, DigitValue(c)), RankKanji(style, DIGITS_IN_BIG_RANK - i));
    assert [] + RankKanji(style, DIGITS_IN_BIG_RANK - i) == RankKanji(style, DIGITS_IN_BIG_RANK - i);
    assert before + "" == before;
  }

  method ConvertSegment(style: Style, segment: string) returns (result: string)
    requires IsSegment(segment)
    ensures result == SegmentText(style, segment, 0, true)
  {
    hide DigitKanji, RankKanji, DigitText, SegmentText;
    result := "";
    var leading := true;
    assert "" + SegmentText(style, segment, 0, true) == SegmentText(style, segment, 0, true);
    for i := 0 to |segment|
      invariant result + SegmentText(style, segment, i, leading) == SegmentText(style, segment, 0, true)
    {
      NextDigit(style, segment, i, leading);
      if leading && segment[i] == '0' {
        continue;
      }
      DigitPieces(style, segment[i], i, result);
      Concatenation(result, DigitText(style, segment[i], i), SegmentText(style, segment, i + 1, false));
      leading := false;
      if IsArabic(style) {
        result := result + DigitKanji(style, DigitValue(segment[i]));
      } else {
        if segment[i] == '0' {
          continue;
        }
        if style == OldKanji || i == DIGITS_IN_BIG_RANK - 1 || segment[i] != '1' {
          result := result + DigitKanji(style, DigitValue(segment[i]));
        }
        result := result + RankKanji(style, DIGITS_IN_BIG_RANK - i);
      }
    }
    assert SegmentText(style, segment, DIGITS_IN_BIG_RANK, leading) == "" by {
      NoMoreDigits(style, segment, leading);
    }
  }

  lemma NoMoreDigits(style: Style, segment: string, leading: bool)
    requires IsSegment(segment)
    ensures SegmentText(style, segment, DIGITS_IN_BIG_RANK, leading) == ""
    ensures Text(style, "") == ""
  {}

  lemma FirstSegment(style: Style, digits: string)
    requires AreSegments(digits) && digits != ""
    ensures Text(style, digits) ==
            RankedSegment(style, digits[..DIGITS_IN_BIG_RANK], |digits| / DIGITS_IN_BIG_RANK - 1)
            + Text(style, digits[DIGITS_IN_BIG_RANK..])
  {
    hide RankedSegment;
  }

  lemma NextSegment(style: Style, digits: string, segment: string, rank: nat, before: string)
    requires AreSegments(digits) && digits != "" && rank == |digits| / DIGITS_IN_BIG_RANK - 1
    requires segment == digits[..DIGITS_IN_BIG_RANK]
    ensures
      var text := SegmentText(style, segment, 0, true);
      before + Text(style, digits) ==
      (if text != "" then before + text + BigRankKanji(style, rank) else before)
      + Text(style, digits[DIGITS_IN_BIG_RANK..])
  {
    hide SegmentText, BigRankKanji, Text;
    var text := SegmentText(style, segment, 0, true);
    var rest := Text(style, digits[DIGITS_IN_BIG_RANK..]);
    FirstSegment(style, digits);
    Concatenation(before, RankedSegment(style, segment, rank), rest);
    Concatenation(before, text, BigRankKanji(style, rank));
    assert before + "" == before;
  }

  method ConvertSegments(style: Style, segments: seq<string>, ghost digits: string) returns (result: string)
    requires AreSegments(digits)
    requires |digits| == |segments| * DIGITS_IN_BIG_RANK
    requires forall k | 0 <= k < |segments| ::
               segments[k] == digits[|digits| - (k + 1) * DIGITS_IN_BIG_RANK..|digits| - k * DIGITS_IN_BIG_RANK]
    ensures result == Text(style, digits)
  {
    hide Text, BigRankKanji, SegmentText;
    result := "";
    var rank := |segments|;
    assert digits[0..] == digits;
    assert "" + Text(style, digits) == Text(style, digits);
    while rank > 0
      invariant 0 <= rank <= |segments|
      invariant result + Text(style, digits[|digits| - rank * DIGITS_IN_BIG_RANK..]) == Text(style, digits)
    {
      rank := rank - 1;
      ghost var rest := digits[|digits| - (rank + 1) * DIGITS_IN_BIG_RANK..];
      assert rest[..DIGITS_IN_BIG_RANK] == segments[rank];
      assert rest[DIGITS_IN_BIG_RANK..] == digits[|digits| - rank * DIGITS_IN_BIG_RANK..];
      NextSegment(style, rest, segments[rank], rank, result);
      var segmentResult := ConvertSegment(style, segments[rank]);
      if segmentResult != "" {
        result := result + segmentResult + BigRankKanji(style, rank);
      }
    }
    NoMoreDigits(style, "0000", true);
  }

  /** Cuts the digits into segments, the least significant first. */
  method Segments(digits: string) returns (segments: seq<string>)
    requires AreSegments(digits)
    ensures |digits| == |segments| * DIGITS_IN_BIG_RANK
    ensures forall k | 0 <= k < |segments| ::
              segments[k] == digits[|digits| - (k + 1) * DIGITS_IN_BIG_RANK..|digits| - k * DIGITS_IN_BIG_RANK]
  {
    segments := [];
    var i := |digits| - DIGITS_IN_BIG_RANK;
    while i >= 0
      invariant i == |digits| - (|segments| + 1) * DIGITS_IN_BIG_RANK
      invariant i >= -DIGITS_IN_BIG_RANK
      invariant forall k | 0 <= k < |segments| ::
                  segments[k] == digits[|digits| - (k + 1) * DIGITS_IN_BIG_RANK..|digits| - k * DIGITS_IN_BIG_RANK]
    {
      segments := segments + [digits[i..i + DIGITS_IN_BIG_RANK]];
      i := i - DIGITS_IN_BIG_RANK;
    }
  }

  /** All candidates for a number: 零 alone for zero, else one in each style, mixed styles for five digits or more. */
  method ArabicToKanji(inputNum: string) returns (ok: bool, output: seq<NumberString>)
    ensures ok <==> IsDecimalInteger(inputNum) && (IsZero(inputNum) || |inputNum| <= BIG_RANKS * DIGITS_IN_BIG_RANK)
    ensures !ok ==> output == []
    ensures ok && IsZero(inputNum) ==> output == [NumberString("零", OldKanji)]
    ensures ok && !IsZero(inputNum) ==> output == Candidates(Filled(inputNum), KANJI_VARIATIONS)
  {
    hide Text, Candidates;
    output := [];
    if !IsDecimalInteger(inputNum) {
      return false, [];
    }
    var i := 0;
    while i < |inputNum| && inputNum[i] == '0'
      invariant i <= |inputNum|
      invariant forall j | 0 <= j < i :: inputNum[j] == '0'
    {
      i := i + 1;
    }
    if i == |inputNum| {
      return true, [NumberString("零", OldKanji)];
    }
    assert inputNum[i] in inputNum;
    if BIG_RANKS * DIGITS_IN_BIG_RANK < |inputNum| {
      return false, [];
    }
    var filledZeroNum := (DIGITS_IN_BIG_RANK - |inputNum| % DIGITS_IN_BIG_RANK) % DIGITS_IN_BIG_RANK;
    var input := seq(filledZeroNum, _ => '0') + inputNum;
    assert input == Filled(inputNum);
    var rankedNumbers := Segments(input);
    var rankSize := |rankedNumbers|;
    NoCandidates(input);
    for variation := 0 to |KANJI_VARIATIONS|
      invariant output == Candidates(input, KANJI_VARIATIONS[..variation])
    {
      var style := KANJI_VARIATIONS[variation];
      NextCandidate(input, KANJI_VARIATIONS, variation);
      if rankSize == 1 && IsArabic(style) {
        continue;
      }
      var result := ConvertSegments(style, rankedNumbers, input);
      output := output + [NumberString(result, style)];
    }
    assert KANJI_VARIATIONS[..|KANJI_VARIATIONS|] == KANJI_VARIATIONS;
    return true, output;
  }
}
