/** Printed numbers are read back: both halves of src/base/number_util.cc together. */
module NumberRoundTrip {
  import opened Wrappers
  import opened NumberReader
  import opened NumberNormalizer
  import P = NumberPrinter

  function DigitValues(digits: string): (values: Numbers)
    requires forall c | c in digits :: P.IsDigit(c)
    ensures |values| == |digits| && AreDigits(values)
    ensures forall i | 0 <= i < |digits| :: values[i] == P.DigitValue(digits[i])
  {
    if digits == "" then [] else assert digits[0] in digits; [P.DigitValue(digits[0])] + DigitValues(digits[1..])
  }

  /** The number decimal digits stand for. */
  function NumberValue(digits: string): nat
    requires forall c | c in digits :: P.IsDigit(c)
  {
    Decimal(0, DigitValues(digits))
  }

  // What is left after one rank has been read.

  /** The numbers end, or a big rank follows. */
  predicate Ends(tail: Numbers) {
    tail == [] || tail[0] >= 10000
  }

  /** Nothing at the front can be taken for the rank. */
  predicate Below(rest: Numbers, rank: nat) {
    rest != [] ==>
      && rest[0] != 0
      && rest[0] != rank
      && rest[0] != 20
      && (rest[0] < 10 && |rest| >= 2 ==> rest[1] >= 10 && rest[1] != rank)
  }

  predicate IsRank(rank: nat) {
    rank in {10, 100, 1000}
  }

  lemma NothingToRead(rest: Numbers, rank: nat)
    requires Below(rest, rank) && IsRank(rank)
    ensures DigitsReading(rest, rank) == Reading(rest, None)
  {}

  /** The numbers of a digit and its rank; `one` if the digit one is written in front of a rank. */
  function RankNumbers(digit: nat, rank: nat, one: bool): Numbers
    requires digit < 10 && IsRank(rank)
  {
    if digit == 0 then [] else if digit == 1 && !one then [rank] else [digit, rank]
  }

  function OnesNumbers(digit: nat): Numbers
    requires digit < 10
  {
    if digit == 0 then [] else [digit]
  }

  function Read(digit: nat, rank: nat): Option<nat> {
    if digit == 0 then None else Some(digit * rank)
  }

  lemma RankIsRead(digit: nat, rank: nat, one: bool, rest: Numbers)
    requires digit < 10 && IsRank(rank) && Below(rest, rank)
    requires !(one && digit == 1 && rank != 1000)
    ensures DigitsReading(RankNumbers(digit, rank, one) + rest, rank) == Reading(rest, Read(digit, rank))
  {
    var s := RankNumbers(digit, rank, one) + rest;
    if digit == 0 {
      assert s == rest;
      NothingToRead(rest, rank);
    } else {
      assert SkipZeros(s) == s;
      assert s[|RankNumbers(digit, rank, one)|..] == rest;
    }
  }

  lemma RankIsBelow(digit: nat, rank: nat, one: bool, rest: Numbers, upper: nat)
    requires digit < 10 && IsRank(rank) && IsRank(upper) && rank < upper && Below(rest, upper)
    ensures Below(RankNumbers(digit, rank, one) + rest, upper)
  {
    if digit == 0 {
      assert RankNumbers(digit, rank, one) + rest == rest;
    }
  }

  lemma OnesAreBelow(digit: nat, tail: Numbers, upper: nat)
    requires digit < 10 && Ends(tail) && IsRank(upper)
    ensures Below(OnesNumbers(digit) + tail, upper)
  {
    assert OnesNumbers(0) + tail == tail;
  }

  lemma OnesAreRead(digit: nat, tail: Numbers)
    requires digit < 10 && Ends(tail)
    ensures OnesReading(OnesNumbers(digit) + tail) == Reading(tail, Read(digit, 1))
  {
    assert OnesNumbers(0) + tail == tail;
    assert ([digit] + tail)[1..] == tail;
  }

  // A segment of Kanji.

  datatype Digits4 = Digits4(thousands: nat, hundreds: nat, tens: nat, ones: nat) {
    predicate Valid() {
      thousands < 10 && hundreds < 10 && tens < 10 && ones < 10
    }

    function Value(): nat {
      1000 * thousands + 100 * hundreds + 10 * tens + ones
    }

    predicate OneBeforeRank() {
      hundreds == 1 || tens == 1
    }
  }

  function OnesPart(d: Digits4, tail: Numbers): Numbers
    requires d.Valid()
  {
    OnesNumbers(d.ones) + tail
  }

  function TensPart(d: Digits4, one: bool, tail: Numbers): Numbers
    requires d.Valid()
  {
    RankNumbers(d.tens, 10, one) + OnesPart(d, tail)
  }

  function HundredsPart(d: Digits4, one: bool, tail: Numbers): Numbers
    requires d.Valid()
  {
    RankNumbers(d.hundreds, 100, one) + TensPart(d, one, tail)
  }

  function KanjiNumbers(d: Digits4, one: bool, tail: Numbers): Numbers
    requires d.Valid()
  {
    RankNumbers(d.thousands, 1000, one) + HundredsPart(d, one, tail)
  }

  lemma PartsAreBelow(d: Digits4, one: bool, tail: Numbers)
    requires d.Valid() && Ends(tail)
    ensures Below(OnesPart(d, tail), 10)
    ensures Below(TensPart(d, one, tail), 100)
    ensures Below(HundredsPart(d, one, tail), 1000)
  {
    hide RankNumbers, OnesNumbers, Below;
    OnesAreBelow(d.ones, tail, 10);
    OnesAreBelow(d.ones, tail, 100);
    OnesAreBelow(d.ones, tail, 1000);
    RankIsBelow(d.tens, 10, one, OnesPart(d, tail), 100);
    RankIsBelow(d.tens, 10, one, OnesPart(d, tail), 1000);
    RankIsBelow(d.hundreds, 100, one, TensPart(d, one, tail), 1000);
  }

  /** A Kanji segment is read as its value, unless one is written in front of 百 or 十. */
  lemma KanjiSegmentIsRead(d: Digits4, one: bool, tail: Numbers)
    requires d.Valid() && Ends(tail) && d.Value() > 0
    requires one ==> !d.OneBeforeRank()
    ensures SmallReading(KanjiNumbers(d, one, tail)) == Reading(tail, Some(d.Value()))
  {
    hide DigitsReading, OnesReading, RankNumbers, OnesNumbers, Below, OnesPart, TensPart, HundredsPart;
    PartsAreBelow(d, one, tail);
    RankIsRead(d.thousands, 1000, one, HundredsPart(d, one, tail));
    HundredsAreRead(d, one, tail);
    TensAreRead(d, one, tail);
    OnesPartIsRead(d, tail);
  }

  lemma HundredsAreRead(d: Digits4, one: bool, tail: Numbers)
    requires d.Valid() && Ends(tail) && !(one && d.hundreds == 1)
    ensures DigitsReading(HundredsPart(d, one, tail), 100) == Reading(TensPart(d, one, tail), Read(d.hundreds, 100))
  {
    hide DigitsReading, RankNumbers, Below;
    PartsAreBelow(d, one, tail);
    RankIsRead(d.hundreds, 100, one, TensPart(d, one, tail));
  }

  lemma TensAreRead(d: Digits4, one: bool, tail: Numbers)
    requires d.Valid() && Ends(tail) && !(one && d.tens == 1)
    ensures DigitsReading(TensPart(d, one, tail), 10) == Reading(OnesPart(d, tail), Read(d.tens, 10))
  {
    hide DigitsReading, RankNumbers, Below;
    PartsAreBelow(d, one, tail);
    RankIsRead(d.tens, 10, one, OnesPart(d, tail));
  }

  lemma OnesPartIsRead(d: Digits4, tail: Numbers)
    requires d.Valid() && Ends(tail)
    ensures OnesReading(OnesPart(d, tail)) == Reading(tail, Read(d.ones, 1))
  {
    OnesAreRead(d.ones, tail);
  }

  /** One in front of 百 or 十: the one is taken for the last digit, and the rank does not end the number. */
  lemma OneBeforeRankIsRejected(d: Digits4, tail: Numbers)
    requires d.Valid() && Ends(tail) && d.OneBeforeRank()
    ensures SmallReading(KanjiNumbers(d, true, tail)).value == None
  {
    hide DigitsReading, Below, OnesPart;
    PartsAreBelow(d, true, tail);
    RankIsRead(d.thousands, 1000, true, HundredsPart(d, true, tail));
    if d.hundreds == 1 {
      OneIsLeft(HundredsPart(d, true, tail), 100);
    } else {
      HundredsAreRead(d, true, tail);
      OneIsLeft(TensPart(d, true, tail), 10);
    }
  }

  lemma OneIsLeft(numbers: Numbers, rank: nat)
    requires |numbers| >= 2 && numbers[0] == 1 && numbers[1] == rank && rank in {10, 100}
    ensures DigitsReading(numbers, 10) == Reading(numbers, None)
    ensures DigitsReading(numbers, 100) == Reading(numbers, None)
    ensures OnesReading(numbers).rest != [] && OnesReading(numbers).rest[0] == rank
  {}

  // A segment of Arabic digits.

  lemma {:induction false} DecimalBelow(high: nat, digits: Numbers)
    requires AreDigits(digits) && |digits| <= 4
    ensures high == 0 ==> Decimal(high, digits) < 10000
    ensures high < 10 && |digits| <= 3 ==> Decimal(high, digits) < 10000
    ensures high < 100 && |digits| <= 2 ==> Decimal(high, digits) < 10000
    ensures high < 1000 && |digits| <= 1 ==> Decimal(high, digits) < 10000
    ensures high < 10000 && |digits| == 0 ==> Decimal(high, digits) < 10000
    decreases |digits|
  {
    if digits != [] {
      DecimalBelow(high * 10 + digits[0], digits[1..]);
    }
  }

  lemma ArabicSegmentIsRead(digits: Numbers, tail: Numbers)
    requires AreDigits(digits) && 1 <= |digits| <= 4 && digits[0] != 0
    requires Ends(tail)
    ensures SmallReading(digits + tail) == Reading(tail, Some(Decimal(0, digits)))
  {
    hide Decimal, DigitsReading, Below;
    var s := digits + tail;
    if |digits| == 1 {
      OneDigitIsBelow(digits, tail);
      NothingToRead(s, 1000);
      NothingToRead(s, 100);
      NothingToRead(s, 10);
      assert s[1..] == tail;
      DecimalOfOne(digits);
    } else {
      SeveralDigitsAreRead(digits, tail);
      LargeEndsTheNumber(tail, 100);
      LargeEndsTheNumber(tail, 10);
    }
  }

  lemma OneDigitIsBelow(digits: Numbers, tail: Numbers)
    requires |digits| == 1 && 0 < digits[0] < 10 && Ends(tail)
    ensures forall rank | rank in {10, 100, 1000} :: Below(digits + tail, rank)
  {}

  /** A run of digits that ends the number is read as its decimal value by each step for which that is small enough. */
  lemma RunIsRead(digits: Numbers, tail: Numbers, base: nat)
    requires AreDigits(digits) && |digits| >= 2 && digits[0] != 0
    requires IsRank(base) && Decimal(0, digits) < 10 * base
    requires Ends(tail)
    ensures DigitsReading(digits + tail, base) == Reading(tail, Some(Decimal(0, digits)))
  {
    hide Decimal, LeadingDigits;
    var s := digits + tail;
    LeadingDigitsOf(digits, tail);
    assert s[0] == digits[0] && s[1] == digits[1];
    assert SkipZeros(s) == s;
    assert s[..|digits|] == digits && s[|digits|..] == tail;
  }

  lemma SeveralDigitsAreRead(digits: Numbers, tail: Numbers)
    requires AreDigits(digits) && 2 <= |digits| <= 4 && digits[0] != 0
    requires Ends(tail)
    ensures DigitsReading(digits + tail, 1000) == Reading(tail, Some(Decimal(0, digits)))
  {
    hide Decimal;
    DecimalBelow(0, digits);
    RunIsRead(digits, tail, 1000);
  }

  lemma DecimalOfOne(digits: Numbers)
    requires |digits| == 1
    ensures Decimal(0, digits) == digits[0]
  {
    assert digits[1..] == [];
  }

  lemma {:induction false} LeadingDigitsOf(digits: Numbers, tail: Numbers)
    requires AreDigits(digits) && Ends(tail)
    ensures LeadingDigits(digits + tail) == |digits|
  {
    if digits == [] {
      assert digits + tail == tail;
    } else {
      assert (digits + tail)[1..] == digits[1..] + tail;
      LeadingDigitsOf(digits[1..], tail);
    }
  }

  // The numbers of a printed text.

  lemma ReadableConcat(a: string, b: string)
    ensures IsReadable(a + b) <==> IsReadable(a) && IsReadable(b)
    ensures IsReadable(a + b) ==> Values(a + b) == Values(a) + Values(b)
  {
    hide CharValue;
    if IsReadable(a + b) {
      assert forall c | c in a :: c in a + b;
      assert forall c | c in b :: c in a + b;
    }
  }

  lemma ReadableChar(c: char)
    ensures IsReadable([c]) <==> CharValue(c).Some?
    ensures IsReadable([c]) ==> Values([c]) == [CharValue(c).value]
  {
    hide CharValue;
    assert c in [c];
  }

  lemma ReadableNothing()
    ensures IsReadable("") && Values("") == []
  {}

  lemma DigitKanjiIsRead(style: P.Style, d: nat)
    requires d < 10 && (d > 0 || P.IsArabic(style))
    ensures |P.DigitKanji(style, d)| == 1 && CharValue(P.DigitKanji(style, d)[0]) == Some(d)
  {
    assert d in {0, 1, 2, 3, 4, 5, 6, 7, 8, 9};
  }

  function Power(rank: nat): nat
    requires 1 <= rank <= 4
  {
    if rank == 1 then 1 else if rank == 2 then 10 else if rank == 3 then 100 else 1000
  }

  lemma RankKanjiIsRead(style: P.Style, rank: nat)
    requires !P.IsArabic(style) && 2 <= rank <= 4
    ensures |P.RankKanji(style, rank)| == 1
    ensures CharValue(P.RankKanji(style, rank)[0]) ==
            if style == P.OldKanji && rank == 4 then None else Some(Power(rank))
  {}

  function BigBase(rank: nat): uint64
    requires rank < P.BIG_RANKS
  {
    if rank == 0 then 1
    else if rank == 1 then 1_0000
    else if rank == 2 then 1_0000_0000
    else if rank == 3 then 1_0000_0000_0000
    else 1_0000_0000_0000_0000
  }

  lemma BigRankKanjiIsRead(style: P.Style, rank: nat)
    requires 1 <= rank < P.BIG_RANKS
    ensures |P.BigRankKanji(style, rank)| == 1
    ensures CharValue(P.BigRankKanji(style, rank)[0]) ==
            if style == P.OldKanji && rank == 1 then None else Some(BigBase(rank))
  {}

  /** What the text of one digit of a Kanji segment is read as. */
  lemma KanjiDigitIsRead(style: P.Style, c: char, i: nat)
    requires !P.IsArabic(style) && P.IsDigit(c) && i < 3
    ensures IsReadable(P.DigitText(style, c, i)) <==> c == '0' || !(style == P.OldKanji && i == 0)
    ensures IsReadable(P.DigitText(style, c, i)) ==>
              Values(P.DigitText(style, c, i)) ==
              RankNumbers(P.DigitValue(c), Power(4 - i), style == P.OldKanji)
  {
    hide CharValue, P.DigitKanji, P.RankKanji, Values;
    if c == '0' {
      ReadableNothing();
    } else {
      DigitKanjiIsRead(style, P.DigitValue(c));
      RankKanjiIsRead(style, 4 - i);
      var digit, rank := P.DigitKanji(style, P.DigitValue(c)), P.RankKanji(style, 4 - i);
      assert digit == [digit[0]] && rank == [rank[0]];
      ReadableChar(digit[0]);
      ReadableChar(rank[0]);
      ReadableConcat(digit, rank);
      assert "" + rank == rank;
      OneIsOne(c);
    }
  }

  lemma OneIsOne(c: char)
    requires P.IsDigit(c)
    ensures P.DigitValue(c) == 1 <==> c == '1'
    ensures P.DigitValue(c) == 0 <==> c == '0'
  {
    assert c as int == P.DigitValue(c) + '0' as int;
  }

  lemma LastKanjiDigitIsRead(style: P.Style, c: char)
    requires !P.IsArabic(style) && P.IsDigit(c)
    ensures IsReadable(P.DigitText(style, c, 3))
    ensures Values(P.DigitText(style, c, 3)) == OnesNumbers(P.DigitValue(c))
  {
    hide CharValue, P.DigitKanji, Values;
    OneIsOne(c);
    if c == '0' {
      ReadableNothing();
    } else {
      DigitKanjiIsRead(style, P.DigitValue(c));
      var digit := P.DigitKanji(style, P.DigitValue(c));
      assert digit == [digit[0]];
      ReadableChar(digit[0]);
      assert digit + "" == digit;
    }
  }

  lemma {:induction false} LeadingZerosHaveNoText(style: P.Style, segment: string, i: nat)
    requires !P.IsArabic(style) && P.IsSegment(segment) && i <= 4
    ensures P.SegmentText(style, segment, i, true) == P.SegmentText(style, segment, i, false)
    decreases 4 - i
  {
    if i < 4 && segment[i] == '0' {
      LeadingZerosHaveNoText(style, segment, i + 1);
      assert P.DigitText(style, segment[i], i) == "";
    }
  }

  function SegmentDigits(segment: string): (d: Digits4)
    requires P.IsSegment(segment)
    ensures d.Valid()
  {
    Digits4(P.DigitValue(segment[0]), P.DigitValue(segment[1]), P.DigitValue(segment[2]), P.DigitValue(segment[3]))
  }

  lemma KanjiSegmentText(style: P.Style, segment: string)
    requires !P.IsArabic(style) && P.IsSegment(segment)
    ensures P.SegmentText(style, segment, 0, true) ==
            P.DigitText(style, segment[0], 0)
            + (P.DigitText(style, segment[1], 1)
               + (P.DigitText(style, segment[2], 2) + P.DigitText(style, segment[3], 3)))
  {
    hide P.DigitText;
    LeadingZerosHaveNoText(style, segment, 0);
    assert P.SegmentText(style, segment, 4, false) == "";
    assert P.SegmentText(style, segment, 3, false) == P.DigitText(style, segment[3], 3) + "";
    assert P.SegmentText(style, segment, 2, false)
        == P.DigitText(style, segment[2], 2) + P.SegmentText(style, segment, 3, false);
    assert P.SegmentText(style, segment, 1, false)
        == P.DigitText(style, segment[1], 1) + P.SegmentText(style, segment, 2, false);
  }

  /** A segment of Kanji is read as the numbers of its digits; in the old style only without 阡. */
  lemma KanjiSegmentValues(style: P.Style, segment: string)
    requires !P.IsArabic(style) && P.IsSegment(segment)
    ensures IsReadable(P.SegmentText(style, segment, 0, true)) <==> style != P.OldKanji || segment[0] == '0'
    ensures IsReadable(P.SegmentText(style, segment, 0, true)) ==>
              Values(P.SegmentText(style, segment, 0, true)) ==
              KanjiNumbers(SegmentDigits(segment), style == P.OldKanji, [])
  {
    hide P.DigitText, P.SegmentText, CharValue, Values, IsReadable, RankNumbers, OnesNumbers;
    KanjiSegmentText(style, segment);
    KanjiDigitIsRead(style, segment[0], 0);
    KanjiDigitIsRead(style, segment[1], 1);
    KanjiDigitIsRead(style, segment[2], 2);
    LastKanjiDigitIsRead(style, segment[3]);
    var ones := P.DigitText(style, segment[3], 3);
    var tens := P.DigitText(style, segment[2], 2) + ones;
    var hundreds := P.DigitText(style, segment[1], 1) + tens;
    ReadableConcat(P.DigitText(style, segment[2], 2), ones);
    ReadableConcat(P.DigitText(style, segment[1], 1), tens);
    ReadableConcat(P.DigitText(style, segment[0], 0), hundreds);
    var d := SegmentDigits(segment);
    assert OnesPart(d, []) == OnesNumbers(d.ones);
  }

  lemma KanjiNumbersBefore(d: Digits4, one: bool, tail: Numbers)
    requires d.Valid()
    ensures KanjiNumbers(d, one, []) + tail == KanjiNumbers(d, one, tail)
  {
    hide RankNumbers, OnesNumbers;
    assert OnesPart(d, []) + tail == OnesPart(d, tail);
    assert TensPart(d, one, []) + tail == TensPart(d, one, tail);
    assert HundredsPart(d, one, []) + tail == HundredsPart(d, one, tail);
  }

  lemma ArabicDigitIsRead(style: P.Style, c: char, i: nat)
    requires P.IsArabic(style) && P.IsDigit(c) && i < 4
    ensures IsReadable(P.DigitText(style, c, i)) && Values(P.DigitText(style, c, i)) == [P.DigitValue(c)]
  {
    hide CharValue, P.DigitKanji, Values;
    DigitKanjiIsRead(style, P.DigitValue(c));
    var digit := P.DigitKanji(style, P.DigitValue(c));
    assert digit == [digit[0]];
    ReadableChar(digit[0]);
  }

  /** A segment of Arabic digits is read as its digits without the leading zeros. */
  lemma {:induction false} ArabicSegmentValues(style: P.Style, segment: string, i: nat, leading: bool)
    requires P.IsArabic(style) && P.IsSegment(segment) && i <= 4
    ensures
      var text := P.SegmentText(style, segment, i, leading);
      var digits := DigitValues(segment)[i..];
      IsReadable(text) && Values(text) == if leading then SkipZeros(digits) else digits
    decreases 4 - i
  {
    hide CharValue, P.DigitText, IsReadable, Values;
    var digits := DigitValues(segment)[i..];
    if i == 4 {
      ReadableNothing();
    } else {
      OneIsOne(segment[i]);
      assert digits[1..] == DigitValues(segment)[i + 1..];
      if leading && segment[i] == '0' {
        ArabicSegmentValues(style, segment, i + 1, true);
      } else {
        ArabicSegmentValues(style, segment, i + 1, false);
        ArabicDigitIsRead(style, segment[i], i);
        ReadableConcat(P.DigitText(style, segment[i], i), P.SegmentText(style, segment, i + 1, false));
        assert digits == [P.DigitValue(segment[i])] + DigitValues(segment)[i + 1..];
      }
    }
  }

  lemma {:induction false} SkippedZeros(digits: Numbers)
    requires AreDigits(digits)
    ensures Decimal(0, SkipZeros(digits)) == Decimal(0, digits)
    ensures AreDigits(SkipZeros(digits))
    ensures SkipZeros(digits) == [] <==> forall i | 0 <= i < |digits| :: digits[i] == 0
  {
    if digits != [] && digits[0] == 0 {
      SkippedZeros(digits[1..]);
      DecimalAfterZero(digits);
    }
  }

  lemma SegmentOfZeros(segment: string)
    requires P.IsSegment(segment)
    ensures P.IsZero(segment) <==> segment[0] == '0' && segment[1] == '0' && segment[2] == '0' && segment[3] == '0'
  {
    if P.IsZero(segment) {
      assert segment[0] in segment && segment[1] in segment && segment[2] in segment && segment[3] in segment;
    }
  }

  lemma SegmentValue(segment: string)
    requires P.IsSegment(segment)
    ensures NumberValue(segment) == SegmentDigits(segment).Value()
    ensures P.IsZero(segment) <==> SegmentDigits(segment).Value() == 0
  {
    hide Decimal, P.DigitValue, P.IsZero;
    DecimalOfSegment(0, DigitValues(segment));
    SegmentOfZeros(segment);
    OneIsOne(segment[0]);
    OneIsOne(segment[1]);
    OneIsOne(segment[2]);
    OneIsOne(segment[3]);
  }

  lemma DecimalOfSegment(high: nat, digits: seq<nat>)
    requires |digits| == 4
    ensures Decimal(high, digits) == 10000 * high + 1000 * digits[0] + 100 * digits[1] + 10 * digits[2] + digits[3]
  {
    var a: nat := high * 10 + digits[0];
    var b: nat := a * 10 + digits[1];
    var c: nat := b * 10 + digits[2];
    assert Decimal(high, digits) == Decimal(a, digits[1..]);
    assert digits[1..][1..] == digits[2..];
    assert Decimal(a, digits[1..]) == Decimal(b, digits[2..]);
    assert digits[2..][1..] == digits[3..];
    assert Decimal(b, digits[2..]) == Decimal(c, digits[3..]);
    assert digits[3..][1..] == [];
    assert Decimal(c, digits[3..]) == Decimal(c * 10 + digits[3], []);
  }

  lemma KanjiNumbersThatAreDigits(d: Digits4, one: bool)
    requires d.Valid()
    ensures AreDigits(KanjiNumbers(d, one, [])) ==>
              && d.thousands == d.hundreds == d.tens == 0
              && KanjiNumbers(d, one, []) == OnesNumbers(d.ones)
  {
    var numbers := KanjiNumbers(d, one, []);
    if d.thousands != 0 {
      assert numbers[|RankNumbers(d.thousands, 1000, one)| - 1] == 1000;
    } else if d.hundreds != 0 {
      assert numbers == HundredsPart(d, one, []);
      assert numbers[|RankNumbers(d.hundreds, 100, one)| - 1] == 100;
    } else if d.tens != 0 {
      assert numbers == TensPart(d, one, []);
      assert numbers[|RankNumbers(d.tens, 10, one)| - 1] == 10;
    }
  }

  lemma SegmentTextOfZero(style: P.Style, segment: string)
    requires P.IsSegment(segment) && P.IsZero(segment)
    ensures P.SegmentText(style, segment, 0, true) == ""
  {
    hide P.DigitText;
    assert segment[0] in segment && segment[1] in segment && segment[2] in segment && segment[3] in segment;
    assert P.SegmentText(style, segment, 4, true) == "";
    assert P.SegmentText(style, segment, 3, true) == "";
    assert P.SegmentText(style, segment, 2, true) == "";
    assert P.SegmentText(style, segment, 1, true) == "";
  }

  lemma {:induction false} SegmentTextOfNonZero(style: P.Style, segment: string, i: nat)
    requires P.IsSegment(segment) && i < 4 && segment[i] != '0'
    requires forall k | 0 <= k < i :: segment[k] == '0'
    ensures P.SegmentText(style, segment, 0, true) != ""
  {
    hide P.DigitText;
    DigitTextOfNonZero(style, segment[i], i);
    assert P.SegmentText(style, segment, i, true) != "";
    assert i > 0 ==> P.SegmentText(style, segment, i - 1, true) != "";
    assert i > 1 ==> P.SegmentText(style, segment, i - 2, true) != "";
    assert i > 2 ==> P.SegmentText(style, segment, i - 3, true) != "";
  }

  lemma DigitTextOfNonZero(style: P.Style, c: char, i: nat)
    requires P.IsDigit(c) && c != '0' && i < 4
    ensures P.DigitText(style, c, i) != ""
  {
    hide CharValue, P.DigitKanji, P.RankKanji;
    OneIsOne(c);
    DigitKanjiIsRead(style, P.DigitValue(c));
    if !P.IsArabic(style) && i < 3 {
      RankKanjiIsRead(style, 4 - i);
    }
  }

  lemma SegmentTextIsEmpty(style: P.Style, segment: string)
    requires P.IsSegment(segment)
    ensures P.SegmentText(style, segment, 0, true) == "" <==> P.IsZero(segment)
  {
    hide P.SegmentText;
    if P.IsZero(segment) {
      SegmentTextOfZero(style, segment);
    } else if segment[0] != '0' {
      SegmentTextOfNonZero(style, segment, 0);
    } else if segment[1] != '0' {
      SegmentTextOfNonZero(style, segment, 1);
    } else if segment[2] != '0' {
      SegmentTextOfNonZero(style, segment, 2);
    } else {
      SegmentTextOfNonZero(style, segment, 3);
    }
  }

  /** A segment the reader understands: in the old style without 阡 and without 壱 in front of 百 or 拾. */
  predicate IsLegible(style: P.Style, segment: string)
    requires P.IsSegment(segment)
  {
    style == P.OldKanji ==> segment[0] == '0' && segment[1] != '1' && segment[2] != '1'
  }

  lemma SegmentIsRead(style: P.Style, segment: string, tail: Numbers)
    requires P.IsSegment(segment) && !P.IsZero(segment) && Ends(tail)
    requires IsLegible(style, segment)
    ensures
      var text := P.SegmentText(style, segment, 0, true);
      && IsReadable(text)
      && Values(text) != []
      && SmallReading(Values(text) + tail) == Reading(tail, Some(NumberValue(segment)))
      && (AreDigits(Values(text)) ==> Decimal(0, Values(text)) == NumberValue(segment))
  {
    hide P.SegmentText, CharValue, Values, IsReadable, SmallReading, Decimal, SkipZeros, KanjiNumbers, DigitValues;
    var text := P.SegmentText(style, segment, 0, true);
    SegmentValue(segment);
    if P.IsArabic(style) {
      ArabicSegmentValues(style, segment, 0, true);
      var digits := DigitValues(segment);
      assert digits[0..] == digits;
      SkippedZeros(digits);
      SkippedZerosAreFewer(segment);
      ArabicSegmentIsRead(SkipZeros(digits), tail);
    } else {
      KanjiSegmentValues(style, segment);
      var d, one := SegmentDigits(segment), style == P.OldKanji;
      OneIsOne(segment[1]);
      OneIsOne(segment[2]);
      KanjiSegmentIsRead(d, one, tail);
      KanjiNumbersBefore(d, one, tail);
      if AreDigits(Values(text)) {
        KanjiNumbersThatAreDigits(d, one);
        DecimalOfOne([d.ones]);
      }
      if Values(text) == [] {
        NoNumbersNoValue(d, one);
      }
    }
  }

  lemma SkippedZerosAreFewer(segment: string)
    requires P.IsSegment(segment) && !P.IsZero(segment)
    ensures 1 <= |SkipZeros(DigitValues(segment))| <= 4
  {
    SkippedZeros(DigitValues(segment));
    forall i | 0 <= i < 4
      ensures segment[i] == '0' <==> P.DigitValue(segment[i]) == 0
    {
      OneIsOne(segment[i]);
    }
  }

  lemma NoNumbersNoValue(d: Digits4, one: bool)
    requires d.Valid() && KanjiNumbers(d, one, []) == []
    ensures d.Value() == 0
  {
    KanjiNumbersThatAreDigits(d, one);
  }

  // The value of several segments.

  lemma {:induction false} DecimalOfConcat(high: nat, a: seq<nat>, b: seq<nat>)
    ensures Decimal(high, a + b) == Decimal(Decimal(high, a), b)
    decreases |a|
  {
    if a == [] {
      assert a + b == b;
    } else {
      assert (a + b)[1..] == a[1..] + b;
      DecimalOfConcat(high * 10 + a[0], a[1..], b);
    }
  }

  lemma Shift(high: nat, value: nat, rank: nat)
    requires rank < P.BIG_RANKS - 1
    ensures Product(10000 * high + value, BigBase(rank)) == Product(high, BigBase(rank + 1)) + Product(value, BigBase(rank))
  {}

  lemma SegmentsOf(digits: string)
    requires P.AreSegments(digits) && digits != ""
    ensures P.IsSegment(digits[..4]) && P.AreSegments(digits[4..])
    ensures digits == digits[..4] + digits[4..]
    ensures DigitValues(digits) == DigitValues(digits[..4]) + DigitValues(digits[4..])
  {
    assert digits == digits[..4] + digits[4..];
  }

  lemma ZerosOf(digits: string)
    requires P.AreSegments(digits) && digits != ""
    ensures P.IsSegment(digits[..4]) && P.AreSegments(digits[4..])
    ensures P.IsZero(digits) <==> P.IsZero(digits[..4]) && P.IsZero(digits[4..])
  {
    assert digits == digits[..4] + digits[4..];
    assert forall c | c in digits[..4] :: c in digits;
    assert forall c | c in digits[4..] :: c in digits;
  }

  lemma {:induction false} ShiftedValue(high: nat, digits: string)
    requires P.AreSegments(digits) && |digits| < 20
    ensures Decimal(high, DigitValues(digits)) == Product(high, BigBase(|digits| / 4)) + NumberValue(digits)
    decreases |digits|
  {
    hide Decimal, DigitValues, Product, P.AreSegments, P.IsZero;
    if digits == "" {
      ValueOfNothing(high);
    } else {
      SegmentsOf(digits);
      var head, rest := digits[..4], digits[4..];
      var value := NumberValue(head);
      RestIsShorter(digits);
      DecimalOfConcat(high, DigitValues(head), DigitValues(rest));
      DecimalOfConcat(0, DigitValues(head), DigitValues(rest));
      HighSegment(high, head);
      ShiftedValue(10000 * high + value, rest);
      ShiftedValue(value, rest);
      Shift(high, value, |rest| / 4);
    }
  }

  lemma ValueOfNothing(high: nat)
    ensures Decimal(high, DigitValues("")) == Product(high, BigBase(0)) && NumberValue("") == 0
    ensures Decimal(high, DigitValues("")) == high
  {}

  lemma HighSegment(high: nat, segment: string)
    requires P.IsSegment(segment)
    ensures Decimal(high, DigitValues(segment)) == 10000 * high + NumberValue(segment)
  {
    hide Decimal, DigitValues;
    DecimalOfSegment(high, DigitValues(segment));
    DecimalOfSegment(0, DigitValues(segment));
  }

  lemma RestIsShorter(digits: string)
    requires P.AreSegments(digits) && digits != ""
    ensures |digits[4..]| / 4 == |digits| / 4 - 1 < P.BIG_RANKS
    ensures |digits[4..]| % 4 == 0
  {}

  lemma ValueOfFirst(digits: string)
    requires P.AreSegments(digits) && digits != ""
    ensures P.IsSegment(digits[..4]) && P.AreSegments(digits[4..]) && |digits| / 4 - 1 < P.BIG_RANKS
    ensures NumberValue(digits) ==
            Product(NumberValue(digits[..4]), BigBase(|digits| / 4 - 1)) + NumberValue(digits[4..])
  {
    hide Decimal, DigitValues, Product;
    SegmentsOf(digits);
    RestIsShorter(digits);
    DecimalOfConcat(0, DigitValues(digits[..4]), DigitValues(digits[4..]));
    ShiftedValue(NumberValue(digits[..4]), digits[4..]);
  }

  // The numbers of several segments.

  function BigNumbers(rank: nat): Numbers
    requires rank < P.BIG_RANKS
  {
    if rank == 0 then [] else [BigBase(rank)]
  }

  predicate IsBigRankReadable(style: P.Style, rank: nat) {
    !(style == P.OldKanji && rank == 1)
  }

  lemma BigRankIsRead(style: P.Style, rank: nat)
    requires rank < P.BIG_RANKS
    ensures IsReadable(P.BigRankKanji(style, rank)) <==> IsBigRankReadable(style, rank)
    ensures IsReadable(P.BigRankKanji(style, rank)) ==> Values(P.BigRankKanji(style, rank)) == BigNumbers(rank)
  {
    hide CharValue, Values, IsReadable, BigBase;
    if rank == 0 {
      ReadableNothing();
    } else {
      BigRankKanjiIsRead(style, rank);
      var big := P.BigRankKanji(style, rank);
      assert big == [big[0]];
      ReadableChar(big[0]);
    }
  }

  lemma TextOfNothing(style: P.Style)
    ensures P.AreSegments("") && P.Text(style, "") == ""
  {}

  lemma TextWithoutFirst(style: P.Style, digits: string)
    requires P.AreSegments(digits) && digits != "" && P.IsZero(digits[..4])
    ensures P.AreSegments(digits[4..]) && P.Text(style, digits) == P.Text(style, digits[4..])
  {
    hide P.SegmentText, P.Text;
    SegmentsOf(digits);
    SegmentTextIsEmpty(style, digits[..4]);
    P.FirstSegment(style, digits);
    assert "" + P.Text(style, digits[4..]) == P.Text(style, digits[4..]);
  }

  /** The numbers of a text are those of its first segment, of its rank and of the rest of the text. */
  lemma TextNumbers(style: P.Style, digits: string)
    requires P.AreSegments(digits) && digits != "" && !P.IsZero(digits[..4])
    ensures P.IsSegment(digits[..4]) && P.AreSegments(digits[4..])
    ensures
      var rank := |digits| / 4 - 1;
      var first := P.SegmentText(style, digits[..4], 0, true);
      var rest := P.Text(style, digits[4..]);
      && rank < P.BIG_RANKS
      && (IsReadable(P.Text(style, digits)) <==>
          IsReadable(first) && IsBigRankReadable(style, rank) && IsReadable(rest))
      && (IsReadable(P.Text(style, digits)) ==>
          Values(P.Text(style, digits)) == Values(first) + (BigNumbers(rank) + Values(rest)))
  {
    hide P.SegmentText, P.Text, CharValue, Values, IsReadable, P.BigRankKanji, BigNumbers;
    SegmentsOf(digits);
    RestIsShorter(digits);
    var rank := |digits| / 4 - 1;
    var first := P.SegmentText(style, digits[..4], 0, true);
    var rest := P.Text(style, digits[4..]);
    var big := P.BigRankKanji(style, rank);
    SegmentTextIsEmpty(style, digits[..4]);
    P.FirstSegment(style, digits);
    P.Concatenation(first, big, rest);
    ReadableConcat(first, big + rest);
    ReadableConcat(big, rest);
    BigRankIsRead(style, rank);
  }

  /** The digits a reader understands in the given style. */
  predicate IsLegibleText(style: P.Style, digits: string)
    requires P.AreSegments(digits)
    decreases |digits|
  {
    digits == "" ||
    (&& IsLegible(style, digits[..4])
     && (P.IsZero(digits[..4]) || IsBigRankReadable(style, |digits| / 4 - 1))
     && IsLegibleText(style, digits[4..]))
  }

  /** The terms of a first coefficient, its rank and the rest. */
  lemma TermsOfFirst(first: Numbers, rank: nat, rest: Numbers, value: nat, last: nat)
    requires rank < P.BIG_RANKS && (rank == 0 ==> rest == [])
    requires SmallReading(first + (BigNumbers(rank) + rest)) == Reading(BigNumbers(rank) + rest, Some(value))
    ensures
      var terms := Terms(first + (BigNumbers(rank) + rest), last);
      var term := Term(value, BigBase(rank));
      if rank > 0 && BigBase(rank) >= last then terms == None
      else if rest == [] then terms == Some([term])
      else if Terms(rest, BigBase(rank)).None? then terms == None
      else terms == Some([term] + Terms(rest, BigBase(rank)).value)
  {
    hide SmallReading;
    assert rank > 0 ==> (BigNumbers(rank) + rest)[1..] == rest;
  }

  predicate IsAbove(last: nat, digits: string)
    requires |digits| <= 20
  {
    |digits| >= 8 ==> BigBase(|digits| / 4 - 1) < last
  }

  /** The numbers are read as the value, whichever way they are read. */
  predicate StandsFor(numbers: Numbers, last: nat, value: nat) {
    && numbers != []
    && Terms(numbers, last).Some?
    && Sum(Terms(numbers, last).value) == value
    && (AreDigits(numbers) ==> Decimal(0, numbers) == value)
  }

  lemma {:induction false} FirstStandsFor(first: Numbers, rank: nat, rest: Numbers, value: nat, last: nat, below: nat)
    requires rank < P.BIG_RANKS && (rank == 0 ==> rest == [])
    requires SmallReading(first + (BigNumbers(rank) + rest)) == Reading(BigNumbers(rank) + rest, Some(value))
    requires first != [] && (AreDigits(first) ==> Decimal(0, first) == value)
    requires rank > 0 ==> BigBase(rank) < last
    requires if rest == [] then below == 0 else StandsFor(rest, BigBase(rank), below)
    ensures StandsFor(first + (BigNumbers(rank) + rest), last, Product(value, BigBase(rank)) + below)
  {
    hide SmallReading, Terms, Sum, Product, Decimal, BigBase;
    TermsOfFirst(first, rank, rest, value, last);
    var numbers := first + (BigNumbers(rank) + rest);
    var term := Term(value, BigBase(rank));
    assert [term] + [] == [term];
    SumOfFirst(term, if rest == [] then [] else Terms(rest, BigBase(rank)).value);
    if rank > 0 {
      BigBaseIsLarge(rank);
      assert numbers[|first|] == BigBase(rank);
    } else {
      assert numbers == first;
      ProductWithOne(value);
    }
  }

  lemma BigBaseIsLarge(rank: nat)
    requires 0 < rank < P.BIG_RANKS
    ensures BigBase(rank) >= 10000
  {}

  lemma ProductWithOne(value: nat)
    ensures Product(value, BigBase(0)) == value
  {}

  lemma {:induction false} ZeroValue(digits: string)
    requires P.AreSegments(digits) && P.IsZero(digits)
    ensures NumberValue(digits) == 0
    ensures forall style :: P.Text(style, digits) == ""
    decreases |digits|
  {
    hide Decimal, DigitValues, Product, P.Text;
    if digits == "" {
      ValueOfNothing(0);
      forall style {
        TextOfNothing(style);
      }
    } else {
      ZerosOf(digits);
      ValueOfFirst(digits);
      SegmentValue(digits[..4]);
      ZeroValue(digits[4..]);
      ProductWithZero(BigBase(|digits| / 4 - 1));
      forall style {
        TextWithoutFirst(style, digits);
      }
    }
  }

  lemma ProductWithZero(a: nat)
    ensures Product(0, a) == 0
  {}

  /** The part of the text that follows the first segment. */
  predicate RestStandsFor(style: P.Style, rest: string, last: nat)
    requires P.AreSegments(rest)
  {
    && IsReadable(P.Text(style, rest))
    && (P.Text(style, rest) == "" ==> NumberValue(rest) == 0)
    && (P.Text(style, rest) != "" ==> rest != "" && StandsFor(Values(P.Text(style, rest)), last, NumberValue(rest)))
  }

  lemma FirstOfText(style: P.Style, digits: string, last: nat)
    requires P.AreSegments(digits) && digits != "" && !P.IsZero(digits[..4])
    requires IsLegible(style, digits[..4]) && IsBigRankReadable(style, |digits| / 4 - 1)
    requires IsAbove(last, digits)
    requires |digits| / 4 - 1 < P.BIG_RANKS && P.AreSegments(digits[4..])
    requires RestStandsFor(style, digits[4..], BigBase(|digits| / 4 - 1))
    ensures IsReadable(P.Text(style, digits))
    ensures StandsFor(Values(P.Text(style, digits)), last, NumberValue(digits))
  {
    hide P.Text, P.SegmentText, NumberValue, IsReadable, StandsFor, SmallReading, Product, P.IsZero, IsLegible, BigBase,
      BigNumbers, Values;
    ValueOfFirst(digits);
    TextNumbers(style, digits);
    BigRankOrEnd(digits);
    var rank := |digits| / 4 - 1;
    var first := P.SegmentText(style, digits[..4], 0, true);
    var rest := P.Text(style, digits[4..]);
    SegmentIsRead(style, digits[..4], []);
    if rest == "" {
      ReadableNothing();
    }
    SegmentIsRead(style, digits[..4], BigNumbers(rank) + Values(rest));
    FirstStandsFor(Values(first), rank, Values(rest), NumberValue(digits[..4]), last, NumberValue(digits[4..]));
  }

  /** The numbers of a legible text stand for the value of the digits. */
  lemma {:induction false} TextStandsFor(style: P.Style, digits: string, last: nat)
    requires P.AreSegments(digits) && !P.IsZero(digits)
    requires IsLegibleText(style, digits) && IsAbove(last, digits)
    ensures P.Text(style, digits) != "" && IsReadable(P.Text(style, digits))
    ensures StandsFor(Values(P.Text(style, digits)), last, NumberValue(digits))
    decreases |digits|
  {
    hide P.Text, NumberValue, Values, IsReadable, StandsFor, Product, P.IsZero, IsLegible, BigBase,
      BigNumbers;
    NothingIsZero();
    ZerosOf(digits);
    BigRankOrEnd(digits);
    var rest := digits[4..];
    var rank := |digits| / 4 - 1;
    if P.IsZero(digits[..4]) {
      ValueOfFirst(digits);
      TextWithoutFirst(style, digits);
      SegmentValueOfZero(digits[..4], BigBase(rank));
      AboveTheRest(last, digits);
      TextStandsFor(style, rest, last);
    } else {
      if P.IsZero(rest) {
        ZeroValue(rest);
        ReadableNothing();
      } else {
        TextStandsFor(style, rest, BigBase(rank));
      }
      FirstOfText(style, digits, last);
      StandsForSomething(Values(P.Text(style, digits)), last, NumberValue(digits));
    }
  }

  lemma NothingIsZero()
    ensures P.IsZero("")
  {}

  lemma StandsForSomething(numbers: Numbers, last: nat, value: nat)
    requires StandsFor(numbers, last, value)
    ensures numbers != []
  {}

  lemma SegmentValueOfZero(segment: string, base: nat)
    requires P.IsSegment(segment) && P.IsZero(segment)
    ensures Product(NumberValue(segment), base) == 0
  {
    SegmentValue(segment);
  }

  lemma AboveTheRest(last: nat, digits: string)
    requires P.AreSegments(digits) && digits != "" && IsAbove(last, digits)
    ensures IsAbove(last, digits[4..])
  {}

  lemma BigRankOrEnd(digits: string)
    requires P.AreSegments(digits) && digits != ""
    ensures
      var rank := |digits| / 4 - 1;
      && rank < P.BIG_RANKS
      && (rank == 0 ==> digits[4..] == "" && BigNumbers(rank) == [])
      && (rank > 0 ==> BigNumbers(rank) != [] && BigNumbers(rank)[0] >= 10000)
      && IsAbove(BigBase(rank), digits[4..])
  {}

  // What the old style loses.

  /** The numbers are not accepted, whichever way they are read. */
  predicate IsRejected(numbers: Numbers, last: nat) {
    Terms(numbers, last).None? && !AreDigits(numbers)
  }

  lemma MoreThanDigits(first: Numbers, rest: Numbers)
    requires !AreDigits(first) || !AreDigits(rest)
    ensures !AreDigits(first + rest)
  {
    if !AreDigits(first) {
      var i :| 0 <= i < |first| && first[i] >= 10;
      assert (first + rest)[i] >= 10;
    } else {
      var i :| 0 <= i < |rest| && rest[i] >= 10;
      assert (first + rest)[|first| + i] >= 10;
    }
  }

  lemma FirstIsRejected(segment: string, tail: Numbers, last: nat)
    requires P.IsSegment(segment) && !IsLegible(P.OldKanji, segment) && Ends(tail)
    ensures
      var text := P.SegmentText(P.OldKanji, segment, 0, true);
      IsReadable(text) ==> IsRejected(Values(text) + tail, last)
  {
    hide P.SegmentText, Values, IsReadable, SmallReading, KanjiNumbers;
    var text := P.SegmentText(P.OldKanji, segment, 0, true);
    KanjiSegmentValues(P.OldKanji, segment);
    if IsReadable(text) {
      var d := SegmentDigits(segment);
      OneIsOne(segment[1]);
      OneIsOne(segment[2]);
      OneBeforeRankIsRejected(d, tail);
      KanjiNumbersBefore(d, true, tail);
      KanjiNumbersThatAreDigits(d, true);
      MoreThanDigits(KanjiNumbers(d, true, []), tail);
      NoTerm(Values(text) + tail, last);
    }
  }

  lemma RestIsRejected(segment: string, rank: nat, rest: Numbers, last: nat)
    requires P.IsSegment(segment) && !P.IsZero(segment) && IsLegible(P.OldKanji, segment)
    requires 0 < rank < P.BIG_RANKS && IsRejected(rest, BigBase(rank))
    ensures
      var text := P.SegmentText(P.OldKanji, segment, 0, true);
      IsReadable(text) && IsRejected(Values(text) + (BigNumbers(rank) + rest), last)
  {
    hide P.SegmentText, Values, IsReadable, SmallReading, Terms, NumberValue, P.IsZero, IsLegible;
    var text := P.SegmentText(P.OldKanji, segment, 0, true);
    BigBaseIsLarge(rank);
    SegmentIsRead(P.OldKanji, segment, BigNumbers(rank) + rest);
    TermsOfFirst(Values(text), rank, rest, NumberValue(segment), last);
    MoreThanDigits(BigNumbers(rank), rest);
    MoreThanDigits(Values(text), BigNumbers(rank) + rest);
  }

  lemma {:induction false} IllegibleTextIsRejected(digits: string, last: nat)
    requires P.AreSegments(digits) && !IsLegibleText(P.OldKanji, digits)
    ensures
      var text := P.Text(P.OldKanji, digits);
      IsReadable(text) ==> IsRejected(Values(text), last)
    decreases |digits|
  {
    hide P.Text, P.SegmentText, Values, IsReadable, IsRejected, BigBase, BigNumbers;
    var rest := digits[4..];
    var rank := |digits| / 4 - 1;
    BigRankOrEnd(digits);
    if P.IsZero(digits[..4]) {
      TextWithoutFirst(P.OldKanji, digits);
      SegmentOfZeros(digits[..4]);
      IllegibleTextIsRejected(rest, last);
    } else {
      TextNumbers(P.OldKanji, digits);
      var restText := P.Text(P.OldKanji, rest);
      if !IsLegible(P.OldKanji, digits[..4]) {
        if IsReadable(P.Text(P.OldKanji, digits)) {
          FirstOfIllegible(digits, last);
        }
      } else if IsBigRankReadable(P.OldKanji, rank) {
        assert rest != "";
        IllegibleTextIsRejected(rest, BigBase(rank));
        if IsReadable(restText) {
          RestIsRejected(digits[..4], rank, Values(restText), last);
        }
      }
    }
  }

  lemma FirstOfIllegible(digits: string, last: nat)
    requires P.AreSegments(digits) && digits != "" && !P.IsZero(digits[..4])
    requires !IsLegible(P.OldKanji, digits[..4]) && IsReadable(P.Text(P.OldKanji, digits))
    ensures IsRejected(Values(P.Text(P.OldKanji, digits)), last)
  {
    hide P.Text, P.SegmentText, Values, IsReadable, IsRejected, IsLegible, BigNumbers;
    TextNumbers(P.OldKanji, digits);
    BigRankOrEnd(digits);
    if digits[4..] == "" {
      TextOfNothing(P.OldKanji);
      ReadableNothing();
    }
    var rank := |digits| / 4 - 1;
    FirstIsRejected(digits[..4], BigNumbers(rank) + Values(P.Text(P.OldKanji, digits[4..])), last);
  }

  // The main results.

  lemma FilledIsLonger(digits: string)
    requires P.IsDecimalInteger(digits) && |digits| <= 20
    ensures
      var filled := P.Filled(digits);
      var n := |filled| - |digits|;
      && 0 <= n < 4
      && filled[n..] == digits
      && forall i | 0 <= i < n :: filled[i] == '0'
  {}

  lemma FilledDigits(digits: string)
    requires P.IsDecimalInteger(digits) && |digits| <= 20
    ensures NumberValue(P.Filled(digits)) == NumberValue(digits)
    ensures P.IsZero(P.Filled(digits)) <==> P.IsZero(digits)
  {
    hide Decimal, P.Filled, P.AreSegments, P.IsZero;
    FilledIsLonger(digits);
    var filled := P.Filled(digits);
    var n := |filled| - |digits|;
    FilledZero(filled, digits, n);
    FilledValues(filled, digits, n);
    DecimalOfConcat(0, Nulls(n), DigitValues(digits));
    DecimalOfNulls(n);
  }

  lemma FilledZero(filled: string, digits: string, n: nat)
    requires n <= |filled| && filled[n..] == digits
    requires forall i | 0 <= i < n :: filled[i] == '0'
    ensures P.IsZero(filled) <==> P.IsZero(digits)
  {
    assert filled == filled[..n] + digits;
    assert forall c | c in filled[..n] :: c == '0';
    assert forall c | c in digits :: c in filled;
  }

  lemma FilledValues(filled: string, digits: string, n: nat)
    requires n <= |filled| && filled[n..] == digits
    requires forall c | c in filled :: P.IsDigit(c)
    requires forall i | 0 <= i < n :: filled[i] == '0'
    ensures forall c | c in digits :: P.IsDigit(c)
    ensures DigitValues(filled) == Nulls(n) + DigitValues(digits)
  {}

  function Nulls(n: nat): Numbers {
    seq(n, _ => 0)
  }

  lemma {:induction false} DecimalOfNulls(n: nat)
    ensures Decimal(0, Nulls(n)) == 0
  {
    if n > 0 {
      assert Nulls(n)[1..] == Nulls(n - 1);
      DecimalOfNulls(n - 1);
    }
  }

  lemma {:induction false} EverythingElseIsLegible(style: P.Style, digits: string)
    requires P.AreSegments(digits) && style != P.OldKanji
    ensures IsLegibleText(style, digits)
    decreases |digits|
  {
    if digits != "" {
      EverythingElseIsLegible(style, digits[4..]);
    }
  }

  /** The text printed in any style is read as the value of its digits, if it is legible and the value fits. */
  lemma PrintedTextIsRead(style: P.Style, digits: string)
    requires P.IsDecimalInteger(digits) && !P.IsZero(digits) && |digits| <= 20
    ensures ReadNumber(P.Text(style, P.Filled(digits))) ==
            if IsLegibleText(style, P.Filled(digits)) && NumberValue(digits) <= MAX then
              Some(NumberValue(digits))
            else
              None
  {
    hide P.Text, P.Filled, NumberValue, Values, IsReadable, Terms, Sum, Decimal, IsLegibleText, P.IsZero, AreDigits;
    var filled := P.Filled(digits);
    FilledDigits(digits);
    BigBasesFit(filled);
    if IsLegibleText(style, filled) {
      TextStandsFor(style, filled, MAX);
    } else {
      if style != P.OldKanji {
        EverythingElseIsLegible(style, filled);
      }
      IllegibleTextIsRejected(filled, MAX);
    }
  }

  lemma BigBasesFit(digits: string)
    requires P.AreSegments(digits)
    ensures IsAbove(MAX, digits)
  {}

  /**
   * The texts in plain Kanji and in Arabic digits with Kanji, half or full width, are read as the number that was
   * printed when it is below 2^64, and are rejected when it is not. Normalized, they are the digits again, without
   * their leading zeros.
   */
  lemma PlainAndMixedTextsComeBack(style: P.Style, digits: string)
    requires P.IsDecimalInteger(digits) && !P.IsZero(digits) && |digits| <= 20
    requires style != P.OldKanji
    ensures ReadNumber(P.Text(style, P.Filled(digits))) ==
            if NumberValue(digits) <= MAX then Some(NumberValue(digits)) else None
    ensures NumberValue(digits) <= MAX ==>
              ArabicForm(P.Text(style, P.Filled(digits)), true) == digits[KeptZeros(DigitValues(digits))..]
  {
    hide P.Text, P.Filled, Values, Decimal, IsLegibleText, ReadNumber, DigitValues, KeptZeros, Formatted, AsciiDigits;
    PrintedTextIsRead(style, digits);
    EverythingElseIsLegible(style, P.Filled(digits));
    FormattedWithZeros(DigitValues(digits));
    AsciiDigitsOfText(digits, DigitValues(digits));
  }

  /** No digit in a place of 阡, nothing in the places of 萬, no 壱 in front of 百 or 拾. */
  predicate IsLegibleInOldStyle(digits: string) {
    forall i | 0 <= i < |digits| && digits[i] != '0' ::
      var place := |digits| - 1 - i;
      place % 4 != 3 && !(4 <= place < 8) && (digits[i] == '1' ==> place % 4 == 0)
  }

  lemma {:induction false} LegiblePlaces(digits: string)
    requires P.AreSegments(digits)
    ensures IsLegibleText(P.OldKanji, digits) <==> IsLegibleInOldStyle(digits)
    decreases |digits|
  {
    if digits != "" {
      var head, rest := digits[..4], digits[4..];
      LegiblePlaces(rest);
      SegmentOfZeros(head);
      assert forall i | 0 <= i < |rest| :: rest[i] == digits[i + 4];
      assert IsLegibleInOldStyle(digits) ==> IsLegibleInOldStyle(rest);
      assert digits[0] == head[0] && digits[1] == head[1] && digits[2] == head[2] && digits[3] == head[3];
    }
  }

  lemma FilledPlaces(digits: string)
    requires P.IsDecimalInteger(digits) && |digits| <= 20
    ensures IsLegibleInOldStyle(P.Filled(digits)) <==> IsLegibleInOldStyle(digits)
  {
    var filled := P.Filled(digits);
    var n := |filled| - |digits|;
    assert forall i | 0 <= i < |digits| :: digits[i] == filled[n + i];
    if IsLegibleInOldStyle(filled) {
      forall i | 0 <= i < |digits| && digits[i] != '0'
        ensures
          var place := |digits| - 1 - i;
          place % 4 != 3 && !(4 <= place < 8) && (digits[i] == '1' ==> place % 4 == 0)
      {
        assert filled[n + i] != '0';
      }
    }
  }

  /**
   * The text in old Kanji comes back exactly when none of its characters is unknown to the reader (阡 and 萬) and no
   * 壱 stands in front of 百 or 拾.
   */
  lemma OldTextsComeBackWhenLegible(digits: string)
    requires P.IsDecimalInteger(digits) && !P.IsZero(digits) && |digits| <= 20
    ensures ReadNumber(P.Text(P.OldKanji, P.Filled(digits))) ==
            if IsLegibleInOldStyle(digits) && NumberValue(digits) <= MAX then Some(NumberValue(digits)) else None
  {
    hide P.Text, P.Filled, NumberValue, ReadNumber, IsLegibleText, IsLegibleInOldStyle;
    PrintedTextIsRead(P.OldKanji, digits);
    LegiblePlaces(P.Filled(digits));
    FilledPlaces(digits);
  }

  lemma {:induction false} CandidatesAreTexts(digits: string, styles: seq<P.Style>)
    requires P.AreSegments(digits)
    ensures forall c | c in P.Candidates(digits, styles) :: c.style in styles && c.value == P.Text(c.style, digits)
    ensures forall style | style in styles && P.IsEmitted(style, digits) ::
              P.NumberString(P.Text(style, digits), style) in P.Candidates(digits, styles)
  {
    hide P.Text, P.IsEmitted;
    if styles != [] {
      var n := |styles| - 1;
      CandidatesAreTexts(digits, styles[..n]);
      assert styles == styles[..n] + [styles[n]];
    }
  }

  /**
   * Every candidate printed for a number below 2^64 is read as that number, and normalized to its digits without
   * leading zeros, unless it is in old Kanji and not legible; every other candidate is rejected.
   */
  lemma CandidatesComeBack(digits: string, candidate: P.NumberString)
    requires P.IsDecimalInteger(digits) && !P.IsZero(digits) && |digits| <= 20
    requires candidate in P.Candidates(P.Filled(digits), P.KANJI_VARIATIONS)
    ensures
      var isRead := NumberValue(digits) <= MAX && (candidate.style == P.OldKanji ==> IsLegibleInOldStyle(digits));
      && ReadNumber(candidate.value) == (if isRead then Some(NumberValue(digits)) else None)
      && (isRead ==> ArabicForm(candidate.value, true) == digits[KeptZeros(DigitValues(digits))..])
  {
    hide P.Text, P.Filled, NumberValue, ReadNumber, IsLegibleInOldStyle, P.Candidates, P.IsZero, DigitValues, KeptZeros,
      ArabicForm, P.IsDecimalInteger;
    CandidatesAreTexts(P.Filled(digits), P.KANJI_VARIATIONS);
    OldTextsComeBackWhenLegible(digits);
    if candidate.style == P.OldKanji {
      if ReadNumber(candidate.value).Some? {
        OldTextIsNormalized(digits);
      }
    } else {
      PlainAndMixedTextsComeBack(candidate.style, digits);
    }
  }

  lemma OldTextIsNormalized(digits: string)
    requires P.IsDecimalInteger(digits) && !P.IsZero(digits) && |digits| <= 20
    requires ReadNumber(P.Text(P.OldKanji, P.Filled(digits))) == Some(NumberValue(digits))
    ensures ArabicForm(P.Text(P.OldKanji, P.Filled(digits)), true) == digits[KeptZeros(DigitValues(digits))..]
  {
    hide P.Text, P.Filled, Values, Decimal, ReadNumber, DigitValues, KeptZeros, Formatted, AsciiDigits;
    FormattedWithZeros(DigitValues(digits));
    AsciiDigitsOfText(digits, DigitValues(digits));
  }

  /** Ten in old Kanji is 壱拾, and is not read. */
  lemma OldStyleDoesNotAlwaysComeBack()
    ensures P.IsDecimalInteger("10") && !P.IsZero("10")
    ensures ReadNumber(P.Text(P.OldKanji, P.Filled("10"))) == None
  {
    hide P.Text, P.Filled, NumberValue, ReadNumber;
    assert "10"[0] == '1';
    assert '1' in "10";
    OldTextsComeBackWhenLegible("10");
  }

  /** Zero, however many digits it has, is printed as 零, which is read as zero. */
  lemma ZeroComesBack()
    ensures ReadNumber("零") == Some(0) && ArabicForm("零", true) == "0"
  {
    ReadableChar('零');
    DecimalOfOne([0]);
    assert Values("零") == [0];
  }
}
