/** Reading a text as a number and printing it in decimal: src/base/number_util.cc, lines 826 to 896. */
module NumberNormalizer {
  import opened Wrappers
  import opened R = NumberReader

  /** The character table src/data/preedit/kanjinumber-arabicnumber.tsv. */
  function CharValue(c: char): Option<uint64> {
    if '0' <= c <= '9' then
      Some(c as int - '0' as int)
    else if '０' <= c <= '９' then
      Some(c as int - '０' as int)
    else
      match c
      case '零' => Some(0)
      case '一' => Some(1)
      case '二' => Some(2)
      case '三' => Some(3)
      case '四' => Some(4)
      case '五' => Some(5)
      case '六' => Some(6)
      case '七' => Some(7)
      case '八' => Some(8)
      case '九' => Some(9)
      case '十' => Some(10)
      case '百' => Some(100)
      case '千' => Some(1000)
      case '万' => Some(1_0000)
      case '億' => Some(1_0000_0000)
      case '兆' => Some(1_0000_0000_0000)
      case '京' => Some(1_0000_0000_0000_0000)
      case '壱' => Some(1)
      case '弐' => Some(2)
      case '参' => Some(3)
      case '拾' => Some(10)
      case '廿' => Some(20)
      case '卅' => Some(30)
      case '卌' => Some(40)
      case _ => None
  }

  predicate IsReadable(text: string) {
    forall c | c in text :: CharValue(c).Some?
  }

  function Values(text: string): (numbers: Numbers)
    requires IsReadable(text)
    ensures |numbers| == |text|
    ensures forall i | 0 <= i < |text| :: numbers[i] == CharValue(text[i]).value
  {
    if text == "" then
      []
    else
      assert text[0] in text;
      [CharValue(text[0]).value] + Values(text[1..])
  }

  /** The number a text stands for, if it does. */
  function ReadNumber(text: string): Option<nat> {
    if IsReadable(text) then Interpreted(Values(text)) else None
  }

  function KanjiChar(c: char): char {
    if '0' <= c <= '9' then
      "〇一二三四五六七八九"[c as int - '0' as int]
    else if '０' <= c <= '９' then
      "〇一二三四五六七八九"[c as int - '０' as int]
    else
      c
  }

  /** The longest readable start of the text, its digits replaced by Kanji. */
  function KanjiForm(text: string): string {
    if text == "" || CharValue(text[0]).None? then "" else [KanjiChar(text[0])] + KanjiForm(text[1..])
  }

  function DigitChar(d: nat): char
    requires d < 10
  {
    "0123456789"[d]
  }

  /** Decimal notation without leading zeros. */
  function Formatted(n: nat): string {
    if n < 10 then [DigitChar(n)] else Formatted(n / 10) + [DigitChar(n % 10)]
  }

  function Zeros(n: nat): string {
    if n == 0 then "" else ['0'] + Zeros(n - 1)
  }

  /** How many zeros stand in front of another number; one less than all if there is no other. */
  function KeptZeros(numbers: Numbers): (n: nat)
    ensures n < |numbers| || n == 0
  {
    if |numbers| <= 1 || numbers[0] != 0 then 0 else 1 + KeptZeros(numbers[1..])
  }

  function ArabicForm(text: string, trimLeadingZeros: bool): string
    requires ReadNumber(text).Some?
  {
    (if trimLeadingZeros then "" else Zeros(KeptZeros(Values(text)))) + Formatted(ReadNumber(text).value)
  }

  lemma {:induction false} KeptZerosCount(numbers: Numbers, k: nat)
    requires numbers != [] && k <= |numbers|
    requires forall i | 0 <= i < k :: numbers[i] == 0
    requires k < |numbers| ==> numbers[k] != 0
    ensures KeptZeros(numbers) == if k == |numbers| then k - 1 else k
    decreases k
  {
    if k > 0 && |numbers| > 1 {
      KeptZerosCount(numbers[1..], k - 1);
    }
  }

  lemma {:induction false} KanjiFormGrows(text: string, k: nat)
    requires k <= |text| && IsReadable(text[..k])
    ensures KanjiForm(text) == KanjiForm(text[..k]) + KanjiForm(text[k..])
  {
    hide CharValue, KanjiChar;
    if k == 0 {
      assert text[0..] == text;
    } else {
      assert text[..k][0] in text[..k];
      assert text[..k][1..] == text[1..][..k - 1];
      assert forall c | c in text[1..][..k - 1] :: c in text[..k];
      KanjiFormGrows(text[1..], k - 1);
      assert text[1..][k - 1..] == text[k..];
    }
  }

  lemma ReadableGrows(text: string, k: nat)
    requires k < |text| && IsReadable(text[..k]) && CharValue(text[k]).Some?
    ensures IsReadable(text[..k + 1])
    ensures Values(text[..k + 1]) == Values(text[..k]) + [CharValue(text[k]).value]
    ensures KanjiForm(text[..k + 1]) == KanjiForm(text[..k]) + [KanjiChar(text[k])]
  {
    hide CharValue, KanjiChar;
    assert text[..k + 1] == text[..k] + [text[k]];
    KanjiFormGrows(text[..k + 1], k);
    assert text[..k + 1][..k] == text[..k];
    assert text[..k + 1][k..] == [text[k]];
    assert [text[k]][1..] == "";
  }

  method NormalizeNumbers(input: string, trimLeadingZeros: bool)
    returns (ok: bool, kanjiOutput: string, arabicOutput: string)
    ensures ok <==> ReadNumber(input).Some?
    ensures kanjiOutput == KanjiForm(input)
    ensures arabicOutput == if ok then ArabicForm(input, trimLeadingZeros) else ""
  {
    hide CharValue, KanjiChar, KanjiForm, Interpreted;
    var numbers: Numbers := [];
    kanjiOutput, arabicOutput := "", "";
    assert KanjiForm("") == "" by {
      NothingHasNoForm();
    }
    var i := 0;
    while i < |input|
      invariant i <= |input|
      invariant IsReadable(input[..i]) && numbers == Values(input[..i])
      invariant kanjiOutput == KanjiForm(input[..i])
    {
      var n := CharValue(input[i]);
      if n.None? {
        KanjiFormGrows(input, i);
        UnreadableStops(input[i..]);
        assert input[i] in input;
        return false, kanjiOutput, "";
      }
      ReadableGrows(input, i);
      kanjiOutput := kanjiOutput + [KanjiChar(input[i])];
      numbers := numbers + [n.value];
      i := i + 1;
    }
    assert input[..i] == input;
    if numbers == [] {
      NothingIsNotANumber();
      return false, kanjiOutput, "";
    }
    var n;
    ok, n := NormalizeNumbersHelper(numbers);
    if !ok {
      return;
    }
    if !trimLeadingZeros {
      var numZeros := 0;
      while numZeros < |numbers| && numbers[numZeros] == 0
        invariant numZeros <= |numbers|
        invariant forall j | 0 <= j < numZeros :: numbers[j] == 0
      {
        numZeros := numZeros + 1;
      }
      KeptZerosCount(numbers, numZeros);
      if numZeros == |numbers| {
        numZeros := numZeros - 1;
      }
      arabicOutput := Zeros(numZeros);
    }
    arabicOutput := arabicOutput + Formatted(n);
  }

  lemma NothingHasNoForm()
    ensures KanjiForm("") == ""
  {}

  lemma NothingIsNotANumber()
    ensures Interpreted([]) == None
  {}

  lemma UnreadableStops(text: string)
    requires text != "" && CharValue(text[0]).None?
    ensures KanjiForm(text) == ""
  {}

  // Texts of digits only.

  /** The digits of a text in ASCII. */
  function AsciiDigits(numbers: Numbers): (digits: string)
    requires AreDigits(numbers)
    ensures |digits| == |numbers|
  {
    seq(|numbers|, i requires 0 <= i < |numbers| => DigitChar(numbers[i]))
  }

  lemma {:induction false} DecimalOfLast(high: nat, digits: seq<nat>, last: nat)
    ensures Decimal(high, digits + [last]) == Decimal(high, digits) * 10 + last
    decreases |digits|
  {
    if digits == [] {
      assert [last][1..] == [];
      assert digits + [last] == [last];
    } else {
      assert (digits + [last])[1..] == digits[1..] + [last];
      DecimalOfLast(high * 10 + digits[0], digits[1..], last);
    }
  }

  lemma LastDigit(numbers: Numbers, k: nat)
    requires |numbers| == k + 1 && AreDigits(numbers)
    ensures AreDigits(numbers[..k])
    ensures Decimal(0, numbers) == Decimal(0, numbers[..k]) * 10 + numbers[k]
    ensures AsciiDigits(numbers) == AsciiDigits(numbers[..k]) + [DigitChar(numbers[k])]
  {
    hide DigitChar, Decimal;
    assert numbers == numbers[..k] + [numbers[k]];
    DecimalOfLast(0, numbers[..k], numbers[k]);
  }

  lemma FormattedOfLast(n: nat, last: nat)
    requires last < 10
    ensures Formatted(n * 10 + last) == if n == 0 then [DigitChar(last)] else Formatted(n) + [DigitChar(last)]
  {
    hide DigitChar;
    assert (n * 10 + last) / 10 == n && (n * 10 + last) % 10 == last;
  }

  /** Printing the value of digits that do not start with zero gives the digits. */
  lemma {:induction false} FormattedDecimal(numbers: Numbers)
    requires numbers != [] && AreDigits(numbers)
    requires |numbers| == 1 || numbers[0] != 0
    ensures Formatted(Decimal(0, numbers)) == AsciiDigits(numbers)
    ensures numbers[0] != 0 ==> Decimal(0, numbers) > 0
    decreases |numbers|
  {
    hide Formatted, Decimal, AsciiDigits, DigitChar;
    var k := |numbers| - 1;
    LastDigit(numbers, k);
    FormattedOfLast(Decimal(0, numbers[..k]), numbers[k]);
    if k > 0 {
      FormattedDecimal(numbers[..k]);
    } else {
      DecimalOfNothing(0);
      NoAsciiDigits();
    }
  }

  lemma NoAsciiDigits()
    ensures AsciiDigits([]) == ""
  {}

  lemma DecimalAfterZero(digits: seq<nat>)
    requires digits != [] && digits[0] == 0
    ensures Decimal(0, digits) == Decimal(0, digits[1..])
  {}

  lemma FirstAsciiDigit(numbers: Numbers)
    requires numbers != [] && AreDigits(numbers)
    ensures AreDigits(numbers[1..])
    ensures AsciiDigits(numbers) == [DigitChar(numbers[0])] + AsciiDigits(numbers[1..])
  {
    hide DigitChar;
    var rest := AsciiDigits(numbers[1..]);
    assert forall i | 0 < i < |numbers| :: numbers[i] == numbers[1..][i - 1];
    assert forall i | 0 < i < |numbers| :: AsciiDigits(numbers)[i] == rest[i - 1];
  }

  lemma LeadingZero(numbers: Numbers)
    requires |numbers| > 1 && numbers[0] == 0
    requires AreDigits(numbers)
    ensures AreDigits(numbers[1..])
    ensures Decimal(0, numbers) == Decimal(0, numbers[1..])
    ensures AsciiDigits(numbers) == ['0'] + AsciiDigits(numbers[1..])
    ensures KeptZeros(numbers) == 1 + KeptZeros(numbers[1..])
    ensures Zeros(KeptZeros(numbers)) == ['0'] + Zeros(KeptZeros(numbers[1..]))
  {
    hide Decimal, AsciiDigits;
    FirstAsciiDigit(numbers);
    DecimalAfterZero(numbers);
  }

  lemma NoLeadingZero(numbers: Numbers)
    requires |numbers| == 1 || (numbers != [] && numbers[0] != 0)
    ensures KeptZeros(numbers) == 0 && Zeros(0) == ""
  {}

  lemma {:induction false} FormattedWithZeros(numbers: Numbers)
    requires numbers != [] && AreDigits(numbers)
    ensures Zeros(KeptZeros(numbers)) + Formatted(Decimal(0, numbers)) == AsciiDigits(numbers)
    ensures Formatted(Decimal(0, numbers)) == AsciiDigits(numbers)[KeptZeros(numbers)..]
    decreases |numbers|
  {
    hide Formatted, Decimal, AsciiDigits, KeptZeros, Zeros;
    if |numbers| == 1 || numbers[0] != 0 {
      FormattedDecimal(numbers);
      NoLeadingZero(numbers);
    } else {
      LeadingZero(numbers);
      FormattedWithZeros(numbers[1..]);
    }
  }

  predicate IsDigitText(text: string) {
    text != "" && forall c | c in text :: CharValue(c).Some? && CharValue(c).value < 10
  }

  /**
   * A text of digits, half width, full width or Kanji, is a number exactly when its value fits 64 bits. Its decimal
   * form then is the text in ASCII digits, with or without its leading zeros.
   */
  lemma DigitTexts(text: string)
    requires IsDigitText(text)
    ensures IsReadable(text) && AreDigits(Values(text))
    ensures ReadNumber(text).Some? <==> Decimal(0, Values(text)) <= MAX
    ensures
      ReadNumber(text).Some? ==>
        && ArabicForm(text, false) == AsciiDigits(Values(text))
        && ArabicForm(text, true) == AsciiDigits(Values(text))[KeptZeros(Values(text))..]
  {
    hide CharValue, Decimal, Formatted, KeptZeros, Zeros, AsciiDigits;
    forall i | 0 <= i < |text|
      ensures Values(text)[i] < 10
    {
      assert text[i] in text;
    }
    FormattedWithZeros(Values(text));
  }

  predicate IsAsciiDigits(text: string) {
    text != "" && forall c | c in text :: '0' <= c <= '9'
  }

  lemma AsciiDigitsAreDigits(text: string)
    requires IsAsciiDigits(text)
    ensures IsDigitText(text)
    ensures IsReadable(text) && forall i | 0 <= i < |text| :: Values(text)[i] == text[i] as int - '0' as int
  {
    hide CharValue;
    forall i | 0 <= i < |text|
      ensures CharValue(text[i]) == Some(text[i] as int - '0' as int)
    {
      assert text[i] in text;
      ValueOfDigit(text[i]);
    }
  }

  lemma AsciiDigitsOfText(text: string, numbers: Numbers)
    requires IsAsciiDigits(text) && |numbers| == |text|
    requires forall i | 0 <= i < |text| :: numbers[i] == text[i] as int - '0' as int
    requires AreDigits(numbers)
    ensures AsciiDigits(numbers) == text
  {
    hide DigitChar;
    forall i | 0 <= i < |text|
      ensures AsciiDigits(numbers)[i] == text[i]
    {
      assert text[i] in text;
      DigitCharOfValue(text[i]);
    }
  }

  /** An ASCII digit string below 2^64 comes back as it is, or without its leading zeros. */
  lemma AsciiDigitsComeBack(text: string)
    requires IsAsciiDigits(text)
    ensures IsDigitText(text)
    ensures IsReadable(text) && (ReadNumber(text).Some? <==> Decimal(0, Values(text)) <= MAX)
    ensures ReadNumber(text).Some? ==> ArabicForm(text, false) == text
    ensures ReadNumber(text).Some? ==> ArabicForm(text, true) == text[KeptZeros(Values(text))..]
    ensures ReadNumber(text).Some? && (text[0] != '0' || |text| == 1) ==> ArabicForm(text, true) == text
  {
    hide CharValue, Decimal, Formatted, KeptZeros, Zeros, AsciiDigits, ArabicForm, ReadNumber, IsReadable, Values;
    AsciiDigitsAreDigits(text);
    DigitTexts(text);
    AsciiDigitsOfText(text, Values(text));
    var first := text[0] as int - '0' as int;
    assert Values(text)[0] == first;
    if text[0] != '0' || |text| == 1 {
      NoLeadingZero(Values(text));
    }
  }

  lemma ValueOfDigit(c: char)
    requires '0' <= c <= '9'
    ensures CharValue(c) == Some(c as int - '0' as int)
  {}

  lemma DigitCharOfValue(c: char)
    requires '0' <= c <= '9'
    ensures DigitChar(c as int - '0' as int) == c
  {
    var d := c as int - '0' as int;
    assert d in {0, 1, 2, 3, 4, 5, 6, 7, 8, 9};
    assert c == (d + '0' as int) as char;
  }

  lemma DigitCharIsAscii(d: nat)
    requires d < 10
    ensures '0' <= DigitChar(d) <= '9' && DigitChar(d) as int - '0' as int == d
  {
    assert d in {0, 1, 2, 3, 4, 5, 6, 7, 8, 9};
  }

  /** What is printed in decimal is read as the number that was printed. */
  lemma {:induction false} FormattedIsRead(n: nat)
    ensures IsAsciiDigits(Formatted(n))
    ensures IsReadable(Formatted(n)) && Decimal(0, Values(Formatted(n))) == n
  {
    hide DigitChar, Decimal, CharValue;
    DigitCharIsAscii(n % 10);
    var last := DigitChar(n % 10);
    ValueOfDigit(last);
    if n < 10 {
      AsciiDigitsAreDigits(Formatted(n));
      DecimalOfLast(0, [], n);
      DecimalOfNothing(0);
      assert [] + [n] == Values(Formatted(n));
    } else {
      var high := Formatted(n / 10);
      FormattedIsRead(n / 10);
      AsciiDigitsAreDigits(Formatted(n));
      assert Formatted(n)[..|high|] == high;
      ReadableGrows(Formatted(n), |high|);
      assert Formatted(n)[..|high| + 1] == Formatted(n);
      DecimalOfLast(0, Values(high), n % 10);
    }
  }

  // The Kanji form.

  predicate IsArabic(c: char) {
    '0' <= c <= '9' || '０' <= c <= '９'
  }

  /** The Kanji of the digits are in order, 〇 for zero, and all but that are read as the digit. */
  lemma KanjiOfDigit(c: char)
    requires CharValue(c).Some?
    ensures !IsArabic(c) ==> KanjiChar(c) == c
    ensures IsArabic(c) ==> CharValue(c).value < 10 && KanjiChar(c) == "〇一二三四五六七八九"[CharValue(c).value]
    ensures CharValue(KanjiChar(c)).Some? <==> !(c == '0' || c == '０')
    ensures CharValue(KanjiChar(c)).Some? ==> CharValue(KanjiChar(c)) == CharValue(c)
  {}

  lemma {:induction false} KanjiFormChars(text: string)
    requires IsReadable(text)
    ensures |KanjiForm(text)| == |text|
    ensures forall i | 0 <= i < |text| :: KanjiForm(text)[i] == KanjiChar(text[i])
  {
    hide CharValue, KanjiChar;
    if text != "" {
      assert text[0] in text;
      KanjiFormChars(text[1..]);
    }
  }

  /**
   * The Kanji form of a readable text is read as the same number exactly when there is no Arabic zero in the text: 〇
   * is written for that, which is not in the reader's table.
   */
  lemma KanjiFormComesBack(text: string)
    requires IsReadable(text)
    ensures IsReadable(KanjiForm(text)) <==> '0' !in text && '０' !in text
    ensures IsReadable(KanjiForm(text)) ==> Values(KanjiForm(text)) == Values(text)
    ensures IsReadable(KanjiForm(text)) ==> ReadNumber(KanjiForm(text)) == ReadNumber(text)
    ensures '0' in text || '０' in text ==> ReadNumber(KanjiForm(text)) == None
  {
    hide CharValue, KanjiChar, KanjiForm, R.Interpreted;
    var kanji := KanjiForm(text);
    KanjiFormChars(text);
    forall i | 0 <= i < |text|
      ensures CharValue(kanji[i]).Some? <==> !(text[i] == '0' || text[i] == '０')
      ensures CharValue(kanji[i]).Some? ==> CharValue(kanji[i]) == CharValue(text[i])
    {
      assert text[i] in text;
      KanjiOfDigit(text[i]);
    }
    if IsReadable(kanji) {
      forall i | 0 <= i < |text|
        ensures Values(kanji)[i] == Values(text)[i] && text[i] != '0' && text[i] != '０'
      {
        assert kanji[i] in kanji;
      }
    } else {
      var c :| c in kanji && CharValue(c).None?;
      var i :| 0 <= i < |kanji| && kanji[i] == c;
      assert text[i] in text;
    }
  }

  /** 10 is written 一〇, and is not read. */
  lemma KanjiFormOfTen()
    ensures KanjiForm("10") == "一〇" && ReadNumber("10") == Some(10) && ReadNumber("一〇") == None
  {
    hide R.Interpreted, R.Decimal;
    assert '0' in "10";
    KanjiFormChars("10");
    KanjiFormComesBack("10");
    AsciiDigitsComeBack("10");
    ReadTen();
  }

  lemma ReadTen()
    ensures ReadNumber("10") == Some(10)
  {
    var numbers: Numbers := [1, 0];
    assert Values("10") == numbers;
    assert numbers[1..] == [0] && [0][1..] == [];
    assert R.Decimal(0, numbers) == R.Decimal(1, [0]) == R.Decimal(10, []) == 10;
  }
}
