/** Numbers that the reader gives up after a success, and so leaves out: src/base/number_util.cc, lines 697 to 702. */
module NumberLoss {
  import opened Wrappers
  import opened NumberReader

  // What is left out, by what the steps of the reader do.

  /** A step fails and leaves nothing of the numbers, although some are not zero. */
  predicate GivesUp(numbers: Numbers, base: nat) {
    SkipZeros(numbers) != [] && DigitsReading(numbers, base) == Reading([], None)
  }

  /** The numbers given up by one of the steps of a reading below ten thousand. */
  function LeftOut(numbers: Numbers): Numbers {
    var thousands := DigitsReading(numbers, 1000);
    var hundreds := DigitsReading(thousands.rest, 100);
    if GivesUp(numbers, 1000) then SkipZeros(numbers)
    else if GivesUp(thousands.rest, 100) then SkipZeros(thousands.rest)
    else if GivesUp(hundreds.rest, 10) then SkipZeros(hundreds.rest)
    else []
  }

  /** The numbers after the last big rank that is read. */
  function LastSegment(numbers: Numbers, last: nat): Numbers
    requires Terms(numbers, last).Some?
    decreases |numbers|
  {
    SmallReadingIsBelow10000(numbers);
    var rest := SmallReading(numbers).rest;
    if |rest| <= 1 then numbers else LastSegment(rest[1..], rest[0])
  }

  /** All numbers left out of a reading in the Japanese way. */
  function AllLeftOut(numbers: Numbers, last: nat): Numbers
    requires Terms(numbers, last).Some?
    decreases |numbers|
  {
    SmallReadingIsBelow10000(numbers);
    var rest := SmallReading(numbers).rest;
    LeftOut(numbers) + if |rest| <= 1 then [] else AllLeftOut(rest[1..], rest[0])
  }

  // When numbers are left out, by what the numbers are.

  /** What follows a rank at the front, alone or after a digit that it may have. */
  function AfterRank(numbers: Numbers, base: nat): Option<Numbers> {
    var s := SkipZeros(numbers);
    if s != [] && s[0] == base then
      Some(s[1..])
    else if |s| >= 2 && s[0] < 10 && s[1] == base && (s[0] != 1 || base == 1000) then
      Some(s[2..])
    else
      None
  }

  /** After zeros two digits or more, of too large a value, or with a rank below ten thousand behind them. */
  predicate IsRunTooLong(numbers: Numbers, limit: nat) {
    var s := SkipZeros(numbers);
    var n := LeadingDigits(s);
    && n >= 2
    && (Decimal(0, s[..n]) >= limit || (n < |s| && s[n] < 10000))
  }

  /** Digits in excess after 千, or after 百. */
  predicate HasDigitsInExcess(numbers: Numbers) {
    var afterThousand := AfterRank(numbers, 1000);
    var afterHundred := AfterRank(if afterThousand.Some? then afterThousand.value else numbers, 100);
    || (afterThousand.Some? && IsRunTooLong(afterThousand.value, 1000))
    || (afterHundred.Some? && IsRunTooLong(afterHundred.value, 100))
  }

  // The two agree.

  lemma {:induction false} SkippedTwice(numbers: Numbers)
    ensures SkipZeros(SkipZeros(numbers)) == SkipZeros(numbers)
  {
    if numbers != [] && numbers[0] == 0 {
      SkippedTwice(numbers[1..]);
    }
  }

  lemma RunsOfTwo(s: Numbers)
    ensures LeadingDigits(s) >= 2 <==> |s| >= 2 && s[0] < 10 && s[1] < 10
  {
    if |s| >= 2 {
      assert s[1..][0] == s[1];
    }
  }

  /** A step gives up exactly on digits in excess; else it reads a rank, a run that ends the number, or nothing. */
  lemma StepCases(numbers: Numbers, base: nat)
    requires base in {10, 100, 1000}
    ensures GivesUp(numbers, base) <==> IsRunTooLong(numbers, base * 10)
    ensures
      var r := DigitsReading(numbers, base);
      var s := SkipZeros(numbers);
      if LeadingDigits(s) >= 2 then
        if IsRunTooLong(numbers, base * 10) then r == Reading([], None)
        else
          var n := LeadingDigits(s);
          r == Reading(s[n..], Some(Decimal(0, s[..n]))) && (r.rest == [] || r.rest[0] >= 10000)
      else if base == 10 && s != [] && s[0] == 20 then
        r == Reading(s[1..], Some(20))
      else if AfterRank(numbers, base).Some? then
        r == Reading(AfterRank(numbers, base).value, Some(if s[0] == base then base else s[0] * base))
      else
        r == Reading(s, None)
  {
    hide Decimal;
    RunsOfTwo(SkipZeros(numbers));
  }

  lemma RankIsNoRun(numbers: Numbers, base: nat)
    requires base in {100, 1000}
    ensures AfterRank(numbers, base).Some? ==> LeadingDigits(SkipZeros(numbers)) < 2
  {
    RunsOfTwo(SkipZeros(numbers));
  }

  lemma NothingIsInExcess(numbers: Numbers, limit: nat)
    requires numbers == [] || numbers[0] >= 10000
    ensures !IsRunTooLong(numbers, limit)
    ensures AfterRank(numbers, 100).None?
  {}

  /** One segment: numbers are left out of a success exactly when there are digits in excess after 千 or 百. */
  lemma SegmentLeavesOut(numbers: Numbers)
    ensures SmallReading(numbers).value.Some? && LeftOut(numbers) != [] <==> HasDigitsInExcess(numbers)
    ensures HasDigitsInExcess(numbers) ==> SmallReading(numbers).rest == []
  {
    hide DigitsReading, SkipZeros, LeadingDigits, Decimal, AfterRank;
    var thousands := DigitsReading(numbers, 1000);
    var hundreds := DigitsReading(thousands.rest, 100);
    StepCases(numbers, 1000);
    StepCases(thousands.rest, 100);
    StepCases(hundreds.rest, 10);
    RankIsNoRun(numbers, 1000);
    RankIsNoRun(numbers, 100);
    RankIsNoRun(thousands.rest, 100);
    SkippedBefore(numbers);
    SkippedBefore(thousands.rest);
    SkippedBefore(hundreds.rest);
    NothingLeft();
    if thousands.rest == [] || thousands.rest[0] >= 10000 {
      NothingIsInExcess(thousands.rest, 1000);
    }
    if hundreds.rest == [] || hundreds.rest[0] >= 10000 {
      NothingIsInExcess(hundreds.rest, 100);
    }
  }

  /** Zeros in front make no difference. */
  lemma SkippedBefore(numbers: Numbers)
    ensures SkipZeros(SkipZeros(numbers)) == SkipZeros(numbers)
    ensures AfterRank(SkipZeros(numbers), 100) == AfterRank(numbers, 100)
    ensures IsRunTooLong(SkipZeros(numbers), 100) == IsRunTooLong(numbers, 100)
  {
    SkippedTwice(numbers);
  }

  lemma NothingLeft()
    ensures SkipZeros([]) == [] && LeadingDigits([]) == 0
    ensures DigitsReading([], 100) == DigitsReading([], 10) == Reading([], None)
    ensures AfterRank([], 100).None?
  {}

  /** Only the last segment leaves numbers out: a big rank that is read follows none that are given up. */
  lemma {:induction false} OnlyLastSegmentLeavesOut(numbers: Numbers, last: nat)
    requires Terms(numbers, last).Some?
    ensures AllLeftOut(numbers, last) == LeftOut(LastSegment(numbers, last))
    ensures SmallReading(LastSegment(numbers, last)).value.Some?
    decreases |numbers|
  {
    hide SmallReading, LeftOut, HasDigitsInExcess;
    SmallReadingIsBelow10000(numbers);
    SegmentLeavesOut(numbers);
    var rest := SmallReading(numbers).rest;
    if |rest| > 1 {
      OnlyLastSegmentLeavesOut(rest[1..], rest[0]);
    }
  }

  /**
   * A successful reading in the Japanese way leaves numbers out exactly when, after the last big rank, 千 or 百 is
   * followed by digits in excess.
   */
  lemma NumbersAreLeftOut(numbers: Numbers)
    requires JapaneseValue(numbers).Some?
    ensures AllLeftOut(numbers, MAX) != [] <==> HasDigitsInExcess(LastSegment(numbers, MAX))
  {
    hide SmallReading, LeftOut, HasDigitsInExcess, AllLeftOut, LastSegment;
    OnlyLastSegmentLeavesOut(numbers, MAX);
    SegmentLeavesOut(LastSegment(numbers, MAX));
  }

  // What is left out does not matter to what is read.

  function Front(numbers: Numbers, m: nat): Numbers
    requires m <= |numbers|
  {
    numbers[..|numbers| - m]
  }

  lemma {:induction false} SkipZerosOfFront(numbers: Numbers, m: nat)
    requires m <= |SkipZeros(numbers)|
    ensures SkipZeros(Front(numbers, m)) == Front(SkipZeros(numbers), m)
  {
    if numbers != [] && numbers[0] == 0 {
      SkipZerosOfFront(numbers[1..], m);
      assert Front(numbers, m) == [0] + Front(numbers[1..], m);
    } else if Front(numbers, m) != [] {
      assert Front(numbers, m)[0] == numbers[0];
    }
  }

  lemma RankOfFront(numbers: Numbers, base: nat, m: nat)
    requires base in {100, 1000} && AfterRank(numbers, base).Some? && m <= |AfterRank(numbers, base).value|
    ensures |AfterRank(numbers, base).value| < |numbers|
    ensures AfterRank(Front(numbers, m), base) == Some(Front(AfterRank(numbers, base).value, m))
    ensures DigitsReading(Front(numbers, m), base).value == DigitsReading(numbers, base).value
  {
    hide SkipZeros, LeadingDigits, Decimal;
    var s := SkipZeros(numbers);
    SkipZerosOfFront(numbers, m);
    var front := Front(s, m);
    assert SkipZeros(Front(numbers, m)) == front && front[0] == s[0];
    RunsOfTwo(s);
    RunsOfTwo(front);
    if s[0] == base {
      assert front[1..] == Front(s[1..], m);
    } else {
      assert front[1] == s[1] && front[2..] == Front(s[2..], m);
    }
  }

  /** A front that ends before what is left out reads a hundred where the whole does, and no thousand if it does not. */
  lemma NoThousandInFront(numbers: Numbers, m: nat)
    requires AfterRank(numbers, 1000).None? && AfterRank(numbers, 100).Some? && m <= |AfterRank(numbers, 100).value|
    ensures |AfterRank(numbers, 100).value| < |numbers|
    ensures DigitsReading(Front(numbers, m), 1000) == Reading(SkipZeros(Front(numbers, m)), None)
    ensures DigitsReading(numbers, 1000) == Reading(SkipZeros(numbers), None) && !GivesUp(numbers, 1000)
  {
    hide SkipZeros, LeadingDigits, Decimal;
    var s := SkipZeros(numbers);
    SkipZerosOfFront(numbers, m);
    assert Front(s, m)[0] == s[0];
  }

  /** Without what follows a rank but zeros, the other steps read nothing. */
  lemma ZerosReadNothing(zeros: Numbers)
    requires SkipZeros(zeros) == []
    ensures DigitsReading(zeros, 100) == DigitsReading(zeros, 10) == Reading([], None)
  {}

  /** The numbers left out are the end of the numbers, and without them the reading is the same. */
  lemma LeftOutDoesNotMatter(numbers: Numbers)
    requires HasDigitsInExcess(numbers)
    ensures
      var m := |LeftOut(numbers)|;
      && 2 <= m <= |numbers|
      && LeftOut(numbers) == numbers[|numbers| - m..]
      && SmallReading(Front(numbers, m)) == SmallReading(numbers)
  {
    hide DigitsReading, SkipZeros, LeadingDigits, Decimal, AfterRank, LeftOut;
    var thousand := AfterRank(numbers, 1000);
    if thousand.Some? && IsRunTooLong(thousand.value, 1000) {
      ExcessAfterThousand(numbers);
    } else if thousand.Some? {
      ExcessAfterThousandAndHundred(numbers);
    } else {
      ExcessAfterHundred(numbers);
    }
  }

  lemma {:induction false} SkippedIsEnd(numbers: Numbers)
    ensures SkipZeros(numbers) == numbers[|numbers| - |SkipZeros(numbers)|..]
  {
    if numbers != [] && numbers[0] == 0 {
      SkippedIsEnd(numbers[1..]);
    }
  }

  lemma AfterRankIsEnd(numbers: Numbers, base: nat)
    requires AfterRank(numbers, base).Some?
    ensures
      var rest := AfterRank(numbers, base).value;
      |rest| < |numbers| && rest == numbers[|numbers| - |rest|..]
  {
    SkippedIsEnd(numbers);
  }

  lemma ExcessAfterThousand(numbers: Numbers)
    requires AfterRank(numbers, 1000).Some? && IsRunTooLong(AfterRank(numbers, 1000).value, 1000)
    ensures
      var m := |LeftOut(numbers)|;
      && 2 <= m <= |numbers|
      && LeftOut(numbers) == numbers[|numbers| - m..]
      && SmallReading(Front(numbers, m)) == SmallReading(numbers)
  {
    hide DigitsReading, SkipZeros, LeadingDigits, Decimal, AfterRank, GivesUp;
    var rest := AfterRank(numbers, 1000).value;
    var m := |SkipZeros(rest)|;
    AfterRankIsEnd(numbers, 1000);
    SkippedIsEnd(rest);
    RankOnly(numbers);
    StepCases(rest, 100);
    RankOfFront(numbers, 1000, m);
    RankOnly(Front(numbers, m));
    SkipZerosOfFront(rest, m);
    ZerosReadNothing(Front(rest, m));
    NothingLeft();
  }

  /** The steps from the hundreds on, with and without what is left out. */
  lemma HundredsAndTens(numbers: Numbers)
    requires AfterRank(numbers, 100).Some? && IsRunTooLong(AfterRank(numbers, 100).value, 100)
    ensures
      var rest := AfterRank(numbers, 100).value;
      var m := |SkipZeros(rest)|;
      var hundred := DigitsReading(numbers, 100).value;
      && 2 <= m <= |rest| < |numbers|
      && SkipZeros(rest) == numbers[|numbers| - m..]
      && hundred.Some? && !GivesUp(numbers, 100) && GivesUp(rest, 10)
      && DigitsReading(numbers, 100) == Reading(rest, hundred)
      && DigitsReading(rest, 10) == Reading([], None)
      && DigitsReading(Front(numbers, m), 100) == Reading(Front(rest, m), hundred)
      && DigitsReading(Front(rest, m), 10) == Reading([], None)
  {
    hide DigitsReading, SkipZeros, LeadingDigits, Decimal, AfterRank;
    var rest := AfterRank(numbers, 100).value;
    var m := |SkipZeros(rest)|;
    AfterRankIsEnd(numbers, 100);
    SkippedIsEnd(rest);
    StepCases(numbers, 100);
    RankIsNoRun(numbers, 100);
    StepCases(rest, 10);
    RankOfFront(numbers, 100, m);
    StepCases(Front(numbers, m), 100);
    RankIsNoRun(Front(numbers, m), 100);
    SkipZerosOfFront(rest, m);
    ZerosReadNothing(Front(rest, m));
    NothingLeft();
  }

  lemma ExcessAfterThousandAndHundred(numbers: Numbers)
    requires AfterRank(numbers, 1000).Some?
    requires
      var after := AfterRank(AfterRank(numbers, 1000).value, 100);
      after.Some? && IsRunTooLong(after.value, 100)
    ensures
      var m := |LeftOut(numbers)|;
      && 2 <= m <= |numbers|
      && LeftOut(numbers) == numbers[|numbers| - m..]
      && SmallReading(Front(numbers, m)) == SmallReading(numbers)
  {
    hide DigitsReading, SkipZeros, LeadingDigits, Decimal, AfterRank, IsRunTooLong, GivesUp;
    var before := AfterRank(numbers, 1000).value;
    HundredsAndTens(before);
    var m := |SkipZeros(AfterRank(before, 100).value)|;
    AfterRankIsEnd(numbers, 1000);
    RankOfFront(numbers, 1000, m);
    RankOnly(numbers);
    RankOnly(Front(numbers, m));
    NothingLeft();
  }

  lemma RankOnly(numbers: Numbers)
    requires AfterRank(numbers, 1000).Some?
    ensures !GivesUp(numbers, 1000) && DigitsReading(numbers, 1000).value.Some?
    ensures DigitsReading(numbers, 1000).rest == AfterRank(numbers, 1000).value
  {
    hide DigitsReading, SkipZeros, LeadingDigits, Decimal, AfterRank;
    StepCases(numbers, 1000);
    RankIsNoRun(numbers, 1000);
  }

  lemma ExcessAfterHundred(numbers: Numbers)
    requires AfterRank(numbers, 1000).None?
    requires AfterRank(numbers, 100).Some? && IsRunTooLong(AfterRank(numbers, 100).value, 100)
    ensures
      var m := |LeftOut(numbers)|;
      && 2 <= m <= |numbers|
      && LeftOut(numbers) == numbers[|numbers| - m..]
      && SmallReading(Front(numbers, m)) == SmallReading(numbers)
  {
    hide DigitsReading, SkipZeros, LeadingDigits, Decimal, AfterRank, IsRunTooLong, GivesUp;
    HundredsAndTens(numbers);
    var m := |SkipZeros(AfterRank(numbers, 100).value)|;
    NoThousandInFront(numbers, m);
    StepAfterZeros(numbers);
    StepAfterZeros(Front(numbers, m));
    NothingLeft();
  }

  lemma StepAfterZeros(numbers: Numbers)
    ensures DigitsReading(SkipZeros(numbers), 100) == DigitsReading(numbers, 100)
    ensures GivesUp(SkipZeros(numbers), 100) == GivesUp(numbers, 100)
  {
    SkippedTwice(numbers);
  }

  // Instances.

  /** 千 and digits in excess are a thousand, whatever the digits. */
  lemma DigitsAfterThousand(digits: Numbers)
    requires digits != [] && digits[0] != 0 && IsRunTooLong(digits, 1000)
    ensures HasDigitsInExcess([1000] + digits)
    ensures JapaneseValue([1000] + digits) == Some(1000)
  {
    hide LeadingDigits, Decimal;
    var numbers: Numbers := [1000] + digits;
    assert SkipZeros(numbers) == numbers && SkipZeros(digits) == digits;
    assert numbers[1..] == digits;
    StepCases(digits, 100);
    assert DigitsReading(numbers, 1000) == Reading(digits, Some(1000));
    NothingLeft();
    assert SmallReading(numbers) == Reading([], Some(1000));
    assert numbers[0..] == numbers;
    LastCoefficient(numbers, 0, MAX, 1000, 0);
  }

  lemma FiveDigits()
    ensures LeadingDigits([1, 2, 3, 4, 5]) == 5 && [1, 2, 3, 4, 5][..5] == [1, 2, 3, 4, 5]
    ensures Decimal(0, [1, 2, 3, 4, 5]) == 12345
  {
    var digits: Numbers := [1, 2, 3, 4, 5];
    assert AreDigits(digits);
    AllDigitsLead(digits);
    assert digits[1..] == [2, 3, 4, 5] && [2, 3, 4, 5][1..] == [3, 4, 5];
    assert [3, 4, 5][1..] == [4, 5] && [4, 5][1..] == [5] && [5][1..] == [];
    assert Decimal(0, digits) == Decimal(1, [2, 3, 4, 5]) == Decimal(12, [3, 4, 5]);
    assert Decimal(12, [3, 4, 5]) == Decimal(123, [4, 5]) == Decimal(1234, [5]);
  }

  /** 千 and five digits are a thousand. */
  lemma FiveDigitsAreLeftOut()
    ensures JapaneseValue([1000, 1, 2, 3, 4, 5]) == Some(1000)
    ensures HasDigitsInExcess([1000, 1, 2, 3, 4, 5])
  {
    var numbers: Numbers := [1000, 1, 2, 3, 4, 5];
    var digits: Numbers := [1, 2, 3, 4, 5];
    FiveDigits();
    DigitsAfterThousand(digits);
    assert [1000] + digits == numbers;
  }

  /** 千一二十 is a thousand. */
  lemma DigitsAndTenAreLeftOut()
    ensures JapaneseValue([1000, 1, 2, 10]) == Some(1000)
    ensures HasDigitsInExcess([1000, 1, 2, 10])
  {
    var numbers: Numbers := [1000, 1, 2, 10];
    var digits: Numbers := [1, 2, 10];
    assert digits[1..] == [2, 10] && [2, 10][1..] == [10];
    assert LeadingDigits(digits) == 2;
    DigitsAfterThousand(digits);
    assert [1000] + digits == numbers;
  }
}
