/** Ranks and Arabic digits mixed within a segment: src/base/number_util.cc, lines 674 to 777. */
module NumberMixed {
  import opened Wrappers
  import opened NumberReader
  import opened NumberNormalizer
  import opened NumberRoundTrip

  lemma ValueOfTwo(digits: Numbers)
    requires |digits| == 2 && AreDigits(digits)
    ensures Decimal(0, digits) < 100
  {
    hide Decimal;
    assert digits[0..] == digits && digits[2..] == [];
    NextDigit(0, digits, 0);
    NextDigit(digits[0], digits, 1);
    DecimalOfNothing(digits[0] * 10 + digits[1]);
  }

  lemma ValueOfThree(digits: Numbers)
    requires |digits| == 3 && AreDigits(digits)
    ensures Decimal(0, digits) < 1000
  {
    hide Decimal;
    assert digits[0..] == digits && digits[3..] == [];
    NextDigit(0, digits, 0);
    NextDigit(digits[0], digits, 1);
    NextDigit(digits[0] * 10 + digits[1], digits, 2);
    DecimalOfNothing((digits[0] * 10 + digits[1]) * 10 + digits[2]);
  }

  /** A digit with its rank in front of anything but more of the same. */
  lemma RankThenRest(d: nat, base: uint64, rest: Numbers)
    requires 1 <= d < 10 && IsRank(base) && (d == 1 ==> base == 1000)
    ensures DigitsReading([d, base] + rest, base) == Reading(rest, Some(d * base))
    ensures DigitsReading([base] + rest, base) == Reading(rest, Some(base))
  {
    assert ([d, base] + rest)[2..] == rest && ([base] + rest)[1..] == rest;
  }

  /** A run that ends the number is all that is left to read. */
  lemma EndAfterRun(tail: Numbers)
    requires Ends(tail)
    ensures DigitsReading(tail, 100) == DigitsReading(tail, 10) == OnesReading(tail) == Reading(tail, None)
  {}

  /** Two or three digits after a thousand: 2千500 is 2500, and 千23 is 1023. */
  lemma RunAfterThousand(d: nat, digits: Numbers, tail: Numbers)
    requires 1 <= d < 10 && AreDigits(digits) && 2 <= |digits| <= 3 && digits[0] != 0 && Ends(tail)
    ensures SmallReading([d, 1000] + digits + tail) == Reading(tail, Some(1000 * d + Decimal(0, digits)))
    ensures SmallReading([1000] + digits + tail) == Reading(tail, Some(1000 + Decimal(0, digits)))
  {
    hide DigitsReading, OnesReading, Decimal;
    if |digits| == 2 {
      ValueOfTwo(digits);
    } else {
      ValueOfThree(digits);
    }
    assert [d, 1000] + digits + tail == [d, 1000] + (digits + tail);
    assert [1000] + digits + tail == [1000] + (digits + tail);
    RankThenRest(d, 1000, digits + tail);
    RunIsRead(digits, tail, 100);
    EndAfterRun(tail);
  }

  /** Two digits after a hundred: 3百25 is 325, and 百25 is 125. */
  lemma RunAfterHundred(d: nat, digits: Numbers, tail: Numbers)
    requires 2 <= d < 10 && AreDigits(digits) && |digits| == 2 && digits[0] != 0 && Ends(tail)
    ensures SmallReading([d, 100] + digits + tail) == Reading(tail, Some(100 * d + Decimal(0, digits)))
    ensures SmallReading([100] + digits + tail) == Reading(tail, Some(100 + Decimal(0, digits)))
  {
    hide DigitsReading, OnesReading, Decimal;
    ValueOfTwo(digits);
    assert [d, 100] + digits + tail == [d, 100] + (digits + tail);
    assert [100] + digits + tail == [100] + (digits + tail);
    HundredIsNoThousand(d, digits + tail);
    RankThenRest(d, 100, digits + tail);
    RunIsRead(digits, tail, 10);
    EndAfterRun(tail);
  }

  lemma HundredIsNoThousand(d: nat, rest: Numbers)
    requires 2 <= d < 10
    ensures DigitsReading([d, 100] + rest, 1000) == Reading([d, 100] + rest, None)
    ensures DigitsReading([100] + rest, 1000) == Reading([100] + rest, None)
  {}

  /** A thousand, a hundred and two digits: 2千3百45 is 2345. */
  lemma RunAfterBoth(d: nat, e: nat, digits: Numbers, tail: Numbers)
    requires 1 <= d < 10 && 2 <= e < 10 && AreDigits(digits) && |digits| == 2 && digits[0] != 0 && Ends(tail)
    ensures SmallReading([d, 1000] + ([e, 100] + (digits + tail))) ==
            Reading(tail, Some(1000 * d + 100 * e + Decimal(0, digits)))
  {
    hide DigitsReading, OnesReading, Decimal;
    ValueOfTwo(digits);
    RankThenRest(d, 1000, [e, 100] + (digits + tail));
    RankThenRest(e, 100, digits + tail);
    RunIsRead(digits, tail, 10);
    EndAfterRun(tail);
  }

  /** So whole numbers of this form have these values. */
  lemma ThousandWithRun(d: nat, digits: Numbers)
    requires 1 <= d < 10 && AreDigits(digits) && 2 <= |digits| <= 3 && digits[0] != 0
    ensures JapaneseValue([d, 1000] + digits) == Some(1000 * d + Decimal(0, digits))
    ensures JapaneseValue([1000] + digits) == Some(1000 + Decimal(0, digits))
  {
    hide SmallReading, Decimal, JapaneseValue;
    assert [d, 1000] + digits + [] == [d, 1000] + digits && [1000] + digits + [] == [1000] + digits;
    RunAfterThousand(d, digits, []);
    OneCoefficient([d, 1000] + digits, 1000 * d + Decimal(0, digits));
    OneCoefficient([1000] + digits, 1000 + Decimal(0, digits));
  }

  lemma HundredWithRun(d: nat, digits: Numbers)
    requires 2 <= d < 10 && AreDigits(digits) && |digits| == 2 && digits[0] != 0
    ensures JapaneseValue([d, 100] + digits) == Some(100 * d + Decimal(0, digits))
    ensures JapaneseValue([100] + digits) == Some(100 + Decimal(0, digits))
  {
    hide SmallReading, Decimal, JapaneseValue;
    assert [d, 100] + digits + [] == [d, 100] + digits && [100] + digits + [] == [100] + digits;
    RunAfterHundred(d, digits, []);
    OneCoefficient([d, 100] + digits, 100 * d + Decimal(0, digits));
    OneCoefficient([100] + digits, 100 + Decimal(0, digits));
  }

  lemma OneCoefficient(numbers: Numbers, value: nat)
    requires SmallReading(numbers) == Reading([], Some(value))
    ensures JapaneseValue(numbers) == Some(value)
  {
    hide SmallReading;
    SmallReadingIsBelow10000(numbers);
    assert numbers[0..] == numbers;
    LastCoefficient(numbers, 0, MAX, value, 0);
  }
}
