/** Reading a sequence of number characters' values: src/base/number_util.cc, lines 535 to 824. */
module NumberReader {
  import opened Wrappers

  const MAX: nat := 0xFFFF_FFFF_FFFF_FFFF

  type uint64 = x: nat | x <= 0xFFFF_FFFF_FFFF_FFFF

  /** The values of the characters of a text: 一 is 1, 十 is 10, 万 is 10000 and so on. */
  type Numbers = seq<uint64>

  // Checked arithmetic: the output wraps around, the result says whether it did.

  method AddAndCheckOverflow(arg1: uint64, arg2: uint64) returns (fits: bool, output: uint64)
    ensures fits <==> arg1 + arg2 <= MAX
    ensures output == (arg1 + arg2) % (MAX + 1)
  {
    output := (arg1 + arg2) % (MAX + 1);
    fits := !(arg2 > MAX - arg1);
  }

  lemma {:induction false} QuotientBounds(a: nat, b: nat, m: nat)
    requires a > 0
    ensures b <= m / a <==> a * b <= m
  {
    var q, r := m / a, m % a;
    assert m == a * q + r;
    if b <= q {
      assert a * b <= a * q;
    } else {
      assert a * b >= a * (q + 1);
    }
  }

  function Product(a: nat, b: nat): nat {
    a * b
  }

  lemma ProductWithTen(a: nat)
    ensures Product(a, 10) == a * 10
  {}

  method MultiplyAndCheckOverflow(arg1: uint64, arg2: uint64) returns (fits: bool, output: uint64)
    ensures fits <==> Product(arg1, arg2) <= MAX
    ensures output == Product(arg1, arg2) % (MAX + 1)
  {
    output := (arg1 * arg2) % (MAX + 1);
    if arg1 != 0 {
      QuotientBounds(arg1, arg2, MAX);
    }
    fits := !(arg1 != 0 && arg2 > MAX / arg1);
  }

  // Positional decimal notation.

  /** The value of decimal digits, most significant first, that follow digits of value `high`. */
  function Decimal(high: nat, digits: seq<nat>): nat
    decreases |digits|
  {
    if digits == [] then high else Decimal(high * 10 + digits[0], digits[1..])
  }

  lemma {:induction false} DecimalGrows(high: nat, digits: seq<nat>)
    ensures Decimal(high, digits) >= high
    decreases |digits|
  {
    if digits != [] {
      DecimalGrows(high * 10 + digits[0], digits[1..]);
    }
  }

  lemma DecimalOfNothing(high: nat)
    ensures Decimal(high, []) == high
  {}

  lemma NextDigit(high: nat, digits: seq<nat>, k: nat)
    requires k < |digits|
    ensures Decimal(high, digits[k..]) == Decimal(high * 10 + digits[k], digits[k + 1..]) >= high * 10 + digits[k]
  {
    assert digits[k..][1..] == digits[k + 1..];
    DecimalGrows(high * 10 + digits[k], digits[k + 1..]);
  }

  /** How many numbers stand before the first one that is not a digit. */
  function LeadingDigits(numbers: Numbers): (n: nat)
    ensures n <= |numbers|
    ensures forall i | 0 <= i < n :: numbers[i] < 10
    ensures n < |numbers| ==> numbers[n] >= 10
  {
    if numbers == [] || numbers[0] >= 10 then 0 else 1 + LeadingDigits(numbers[1..])
  }

  /** Reads the leading digits as one decimal number; fails exactly when that number needs more than 64 bits. */
  method ReduceLeadingNumbersAsBase10System(numbers: Numbers, begin: nat) returns (end: nat, ok: bool, output: uint64)
    requires begin <= |numbers|
    ensures begin <= end <= |numbers|
    ensures
      var n := LeadingDigits(numbers[begin..]);
      var value := Decimal(0, numbers[begin..][..n]);
      && (ok <==> value <= MAX)
      && (ok ==> output == value && end == begin + n)
  {
    hide Decimal, LeadingDigits, Product;
    end, output := begin, 0;
    ghost var n := LeadingDigits(numbers[begin..]);
    ghost var digits := numbers[begin..][..n];
    assert digits[0..] == digits;
    while end < |numbers|
      invariant begin <= end <= begin + n
      invariant Decimal(output, digits[end - begin..]) == Decimal(0, digits)
    {
      if numbers[end] >= 10 {
        break;
      }
      assert numbers[end] == numbers[begin..][end - begin];
      NextDigit(output, digits, end - begin);
      ProductWithTen(output);
      var fits;
      fits, output := MultiplyAndCheckOverflow(output, 10);
      if !fits {
        return end, false, output;
      }
      fits, output := AddAndCheckOverflow(output, numbers[end]);
      if !fits {
        return end, false, output;
      }
      end := end + 1;
    }
    assert end - begin == n by {
      if end < |numbers| {
        assert numbers[end] == numbers[begin..][end - begin];
      }
    }
    assert digits[n..] == [];
    assert Decimal(output, []) == output by {
      DecimalOfNothing(output);
    }
    ok := true;
  }

  /** Fails as well when something else follows the digits. */
  method InterpretNumbersAsBase10System(numbers: Numbers) returns (ok: bool, output: uint64)
    ensures ok <==> LeadingDigits(numbers) == |numbers| && Decimal(0, numbers) <= MAX
    ensures ok ==> output == Decimal(0, numbers)
  {
    var begin;
    begin, ok, output := ReduceLeadingNumbersAsBase10System(numbers, 0);
    assert numbers[0..] == numbers;
    assert numbers[..|numbers|] == numbers;
    ok := ok && begin == |numbers|;
  }

  // One number below ten thousand.

  /** What is left of the numbers after an attempt to read, and what was read if it succeeded. */
  datatype Reading = Reading(rest: Numbers, value: Option<nat>)

  function OrZero(value: Option<nat>): nat {
    if value.Some? then value.value else 0
  }

  function SkipZeros(numbers: Numbers): (rest: Numbers)
    ensures |rest| <= |numbers|
    ensures rest != [] ==> rest[0] != 0
  {
    if numbers != [] && numbers[0] == 0 then SkipZeros(numbers[1..]) else numbers
  }

  function OnesReading(numbers: Numbers): Reading {
    if numbers == [] || numbers[0] >= 10 then Reading(numbers, None) else Reading(numbers[1..], Some(numbers[0]))
  }

  /** A digit and its rank, the rank alone, 廿, or several digits that end the number. */
  function DigitsReading(numbers: Numbers, base: nat): Reading {
    RankReading(SkipZeros(numbers), base)
  }

  function RankReading(s: Numbers, base: nat): Reading {
    if s == [] then
      Reading(s, None)
    else if s[0] >= 10 then
      if s[0] == base || (base == 10 && s[0] == 20) then Reading(s[1..], Some(s[0])) else Reading(s, None)
    else if |s| < 2 then
      Reading(s, None)
    else if s[1] < 10 then
      var n := LeadingDigits(s);
      var value := Decimal(0, s[..n]);
      if value < base * 10 && (n == |s| || s[n] >= 10000) then Reading(s[n..], Some(value)) else Reading([], None)
    else if s[1] != base || (s[0] == 1 && base != 1000) then
      Reading(s, None)
    else
      Reading(s[2..], Some(s[0] * base))
  }

  function SmallReading(numbers: Numbers): Reading {
    var thousands := DigitsReading(numbers, 1000);
    var hundreds := DigitsReading(thousands.rest, 100);
    var tens := DigitsReading(hundreds.rest, 10);
    var ones := OnesReading(tens.rest);
    var any := thousands.value.Some? || hundreds.value.Some? || tens.value.Some? || ones.value.Some?;
    if any && (ones.rest == [] || ones.rest[0] >= 10000) then
      Reading(ones.rest,
              Some(OrZero(thousands.value) + OrZero(hundreds.value) + OrZero(tens.value) + OrZero(ones.value)))
    else
      Reading(ones.rest, None)
  }

  function Outcome(numbers: Numbers, begin: nat, ok: bool, num: nat): Reading
    requires begin <= |numbers|
  {
    Reading(numbers[begin..], if ok then Some(num) else None)
  }

  method ReduceOnesDigit(numbers: Numbers, begin: nat) returns (end: nat, ok: bool, num: uint64)
    requires begin <= |numbers|
    ensures begin <= end <= |numbers|
    ensures Outcome(numbers, end, ok, num) == OnesReading(numbers[begin..])
  {
    if begin == |numbers| || numbers[begin] >= 10 {
      return begin, false, 0;
    }
    assert numbers[begin..][1..] == numbers[begin + 1..];
    return begin + 1, true, numbers[begin];
  }

  method SkipLeadingZeros(numbers: Numbers, begin: nat) returns (end: nat)
    requires begin <= |numbers|
    ensures begin <= end <= |numbers|
    ensures numbers[end..] == SkipZeros(numbers[begin..])
  {
    end := begin;
    while end != |numbers| && numbers[end] == 0
      invariant begin <= end <= |numbers|
      invariant SkipZeros(numbers[end..]) == SkipZeros(numbers[begin..])
    {
      assert numbers[end..][1..] == numbers[end + 1..];
      end := end + 1;
    }
  }

  method ReduceDigitsHelper(numbers: Numbers, begin: nat, expectedBase: uint64)
    returns (end: nat, ok: bool, num: uint64)
    requires begin <= |numbers|
    requires expectedBase in {10, 100, 1000}
    ensures begin <= end <= |numbers|
    ensures Outcome(numbers, end, ok, num) == DigitsReading(numbers[begin..], expectedBase)
  {
    hide Decimal, LeadingDigits, SkipZeros;
    ok, num := false, 0;
    end := SkipLeadingZeros(numbers, begin);
    ghost var s := numbers[end..];
    if end == |numbers| {
      return;
    }
    var leadingNumber := numbers[end];
    if leadingNumber < 10 {
      if |numbers| - end < 2 {
        return;
      }
      var nextNumber := numbers[end + 1];
      assert s[0] == leadingNumber && s[1] == nextNumber;
      if nextNumber < 10 {
        ghost var n := LeadingDigits(s);
        ghost var start := end;
        end, ok, num := ReduceLeadingNumbersAsBase10System(numbers, end);
        if !ok || num >= expectedBase * 10 || (end != |numbers| && numbers[end] < 10000) {
          end := |numbers|;
          return end, false, num;
        }
        assert s[n..] == numbers[end..];
        return;
      }
      if nextNumber != expectedBase || (leadingNumber == 1 && expectedBase != 1000) {
        return;
      }
      num := leadingNumber * expectedBase;
      assert s[2..] == numbers[end + 2..];
      return end + 2, true, num;
    }
    assert s[1..] == numbers[end + 1..];
    if leadingNumber == expectedBase || (expectedBase == 10 && leadingNumber == 20) {
      return end + 1, true, leadingNumber;
    }
  }

  lemma {:induction false} DigitsReadingAdvances(numbers: Numbers, base: nat)
    requires base in {10, 100, 1000}
    ensures
      var r := DigitsReading(numbers, base);
      && |r.rest| <= |numbers|
      && (r.value.Some? ==> |r.rest| < |numbers| && r.value.value < base * 10)
      && (r.value.Some? && r.value.value > 9 * base ==> r.rest == [] || r.rest[0] >= 10000)
  {
    var s := SkipZeros(numbers);
    if s != [] && s[0] < 10 && |s| >= 2 && s[1] < 10 {
      assert LeadingDigits(s) >= 1;
    }
  }

  lemma OnesAreBelowTen(numbers: Numbers)
    ensures OrZero(OnesReading(numbers).value) < 10
  {}

  lemma LargeEndsTheNumber(numbers: Numbers, base: nat)
    requires base in {10, 100, 1000}
    requires numbers == [] || numbers[0] >= 10000
    ensures DigitsReading(numbers, base) == Reading(numbers, None)
    ensures OnesReading(numbers) == Reading(numbers, None)
  {}

  /** A number below ten thousand is below ten thousand, and takes at least one token. */
  lemma {:induction false} SmallReadingIsBelow10000(numbers: Numbers)
    ensures
      var r := SmallReading(numbers);
      && |r.rest| <= |numbers|
      && (r.value.Some? ==> r.value.value <= 9999 && |r.rest| < |numbers|)
      && (r.value.Some? && r.rest != [] ==> r.rest[0] >= 10000)
  {
    hide DigitsReading;
    var thousands := DigitsReading(numbers, 1000);
    DigitsReadingAdvances(numbers, 1000);
    var hundreds := DigitsReading(thousands.rest, 100);
    DigitsReadingAdvances(thousands.rest, 100);
    var tens := DigitsReading(hundreds.rest, 10);
    DigitsReadingAdvances(hundreds.rest, 10);
    if thousands.value.Some? && thousands.value.value > 9000 {
      LargeEndsTheNumber(thousands.rest, 100);
      LargeEndsTheNumber(thousands.rest, 10);
    } else if hundreds.value.Some? && hundreds.value.value > 900 {
      LargeEndsTheNumber(hundreds.rest, 10);
    } else if tens.value.Some? && tens.value.value > 90 {
      LargeEndsTheNumber(tens.rest, 10);
    }
  }

  method ReduceNumberLessThan10000(numbers: Numbers, begin: nat) returns (end: nat, ok: bool, num: uint64)
    requires begin <= |numbers|
    ensures begin <= end <= |numbers|
    ensures Outcome(numbers, end, ok, if ok then num else 0) == SmallReading(numbers[begin..])
    ensures ok ==> num <= 9999 && begin < end
  {
    hide DigitsReading, OnesReading;
    SmallReadingIsBelow10000(numbers[begin..]);
    DigitsReadingAdvances(numbers[begin..], 1000);
    num := 0;
    var success, n := false, 0;
    var read;
    ghost var thousands := DigitsReading(numbers[begin..], 1000);
    end, read, n := ReduceDigitsHelper(numbers, begin, 1000);
    if read {
      num := num + n;
      success := true;
    }
    assert num == OrZero(thousands.value) && success == thousands.value.Some?;
    ghost var hundreds := DigitsReading(numbers[end..], 100);
    DigitsReadingAdvances(numbers[end..], 100);
    end, read, n := ReduceDigitsHelper(numbers, end, 100);
    if read {
      num := num + n;
      success := true;
    }
    ghost var upper := OrZero(thousands.value) + OrZero(hundreds.value);
    assert num == upper && success == (thousands.value.Some? || hundreds.value.Some?);
    ghost var tens := DigitsReading(numbers[end..], 10);
    DigitsReadingAdvances(numbers[end..], 10);
    end, read, n := ReduceDigitsHelper(numbers, end, 10);
    if read {
      num := num + n;
      success := true;
    }
    assert num == upper + OrZero(tens.value) <= 11097;
    OnesAreBelowTen(numbers[end..]);
    end, read, n := ReduceOnesDigit(numbers, end);
    if read {
      num := num + n;
      success := true;
    }
    ok := success && (end == |numbers| || numbers[end] >= 10000);
  }

  // The Japanese way: coefficients below ten thousand, each before a larger rank.

  datatype Term = Term(coefficient: nat, base: nat)

  /** The terms the numbers stand for, of whatever size; the first base has to be below `last`. */
  function Terms(numbers: Numbers, last: nat): (terms: Option<seq<Term>>)
    decreases |numbers|
  {
    SmallReadingIsBelow10000(numbers);
    var r := SmallReading(numbers);
    if r.value.None? then
      None
    else if r.rest == [] then
      Some([Term(r.value.value, 1)])
    else
      var base := r.rest[0];
      var term := Term(r.value.value, base);
      if base >= last then
        None
      else if |r.rest| == 1 then
        Some([term])
      else
        match Terms(r.rest[1..], base)
        case None => None
        case Some(terms) => Some([term] + terms)
  }

  function Amount(term: Term): nat {
    Product(term.coefficient, term.base)
  }

  function Sum(terms: seq<Term>): nat {
    if terms == [] then 0 else Amount(terms[0]) + Sum(terms[1..])
  }

  lemma SumOfFirst(term: Term, rest: seq<Term>)
    ensures Sum([term] + rest) == Amount(term) + Sum(rest)
    ensures Sum([]) == 0
  {
    assert ([term] + rest)[1..] == rest;
  }

  /** Coefficients below ten thousand, bases descending to at least ten thousand, then maybe a last coefficient. */
  ghost predicate Descending(terms: seq<Term>, last: nat) {
    && (forall i | 0 <= i < |terms| :: terms[i].coefficient <= 9999)
    && (forall i | 0 <= i < |terms| :: terms[i].base >= 10000 || (i == |terms| - 1 && terms[i].base == 1))
    && (forall i | 0 <= i < |terms| :: terms[i].base == 1 || terms[i].base < last)
    && (forall i, j | 0 <= i < j < |terms| :: terms[i].base > terms[j].base)
  }

  lemma {:induction false} TermsDescend(numbers: Numbers, last: nat)
    requires Terms(numbers, last).Some?
    ensures
      var terms := Terms(numbers, last).value;
      && Descending(terms, last)
      && 1 <= |terms| <= |numbers|
    decreases |numbers|
  {
    hide SmallReading;
    SmallReadingIsBelow10000(numbers);
    var r := SmallReading(numbers);
    if r.rest != [] && |r.rest| > 1 {
      TermsDescend(r.rest[1..], r.rest[0]);
      var rest := Terms(r.rest[1..], r.rest[0]).value;
      var terms := Terms(numbers, last).value;
      assert terms == [Term(r.value.value, r.rest[0])] + rest;
      assert forall i | 0 < i < |terms| :: terms[i] == rest[i - 1];
    }
  }

  /** The sum of `output` and the terms if there are terms and the sum fits 64 bits. */
  function Completed(output: nat, terms: Option<seq<Term>>): Option<nat> {
    match terms
    case None => None
    case Some(ts) => if output + Sum(ts) <= MAX then Some(output + Sum(ts)) else None
  }

  /** The value of the numbers if they follow the rules and their sum fits 64 bits. */
  function JapaneseValue(numbers: Numbers): Option<nat> {
    Completed(0, Terms(numbers, MAX))
  }

  /** The terms of the numbers from `begin` on, none at the end. */
  function TermsFrom(numbers: Numbers, begin: nat, last: nat): Option<seq<Term>>
    requires begin <= |numbers|
  {
    if begin == |numbers| then Some([]) else Terms(numbers[begin..], last)
  }

  /** One round of the loop adds one term and leaves the rest. */
  lemma {:induction false} OneTerm(numbers: Numbers, begin: nat, last: nat, end: nat, coefficient: nat, output: nat)
    requires begin < |numbers| && begin < end < |numbers|
    requires SmallReading(numbers[begin..]) == Reading(numbers[end..], Some(coefficient))
    ensures numbers[end] >= last ==> Terms(numbers[begin..], last).None?
    ensures numbers[end] < last ==>
              Completed(output, Terms(numbers[begin..], last)) ==
              Completed(output + Amount(Term(coefficient, numbers[end])), TermsFrom(numbers, end + 1, numbers[end]))
  {
    hide SmallReading, Sum, Amount;
    var term := Term(coefficient, numbers[end]);
    assert numbers[end..][1..] == numbers[end + 1..];
    SumOfFirst(term, []);
    assert [term] + [] == [term];
    if end + 1 < |numbers| && Terms(numbers[end + 1..], numbers[end]).Some? {
      SumOfFirst(term, Terms(numbers[end + 1..], numbers[end]).value);
    }
  }

  lemma NoTerm(numbers: Numbers, last: nat)
    requires SmallReading(numbers).value.None?
    ensures Terms(numbers, last).None?
  {}

  lemma LastCoefficient(numbers: Numbers, begin: nat, last: nat, coefficient: nat, output: nat)
    requires begin < |numbers|
    requires SmallReading(numbers[begin..]) == Reading([], Some(coefficient))
    ensures Completed(output, Terms(numbers[begin..], last)) ==
            if output + coefficient <= MAX then Some(output + coefficient) else None
  {
    hide SmallReading;
    SumOfFirst(Term(coefficient, 1), []);
    assert [Term(coefficient, 1)] + [] == [Term(coefficient, 1)];
  }

  method InterpretNumbersInJapaneseWay(numbers: Numbers) returns (ok: bool, output: uint64)
    ensures (if ok then Some(output) else None) == JapaneseValue(numbers)
  {
    hide SmallReading, Terms, Sum, Product;
    var lastBase: uint64 := MAX;
    var begin := 0;
    output := 0;
    assert numbers[0..] == numbers;
    while true
      invariant begin < |numbers| || (begin == 0 && numbers == [])
      invariant Completed(output, Terms(numbers[begin..], lastBase)) == JapaneseValue(numbers)
      decreases |numbers| - begin
    {
      ghost var start := begin;
      SmallReadingIsBelow10000(numbers[begin..]);
      var coef: uint64;
      begin, ok, coef := ReduceNumberLessThan10000(numbers, begin);
      if !ok {
        NoTerm(numbers[start..], lastBase);
        return false, output;
      }
      if begin == |numbers| {
        assert numbers[begin..] == [];
        LastCoefficient(numbers, start, lastBase, coef, output);
        ok, output := AddAndCheckOverflow(output, coef);
        return;
      }
      OneTerm(numbers, start, lastBase, begin, coef, output);
      if numbers[begin] >= lastBase {
        return false, output;
      }
      var delta;
      ok, delta := MultiplyAndCheckOverflow(coef, numbers[begin]);
      if !ok {
        return false, output;
      }
      ok, output := AddAndCheckOverflow(output, delta);
      if !ok {
        return false, output;
      }
      lastBase := numbers[begin];
      begin := begin + 1;
      if begin == |numbers| {
        SumOfFirst(Term(coef, lastBase), []);
        return true, output;
      }
    }
  }

  predicate AreDigits(numbers: Numbers) {
    forall i | 0 <= i < |numbers| :: numbers[i] < 10
  }

  /** The value of the numbers: plain decimal notation if all of them are digits, else the Japanese way. */
  function Interpreted(numbers: Numbers): Option<nat> {
    if numbers == [] then
      None
    else if AreDigits(numbers) then
      if Decimal(0, numbers) <= MAX then Some(Decimal(0, numbers)) else None
    else
      JapaneseValue(numbers)
  }

  method MaxElement(numbers: Numbers) returns (largest: nat)
    ensures largest <= |numbers|
    ensures largest == |numbers| <==> numbers == []
    ensures largest < |numbers| ==> forall i | 0 <= i < |numbers| :: numbers[i] <= numbers[largest]
  {
    largest := 0;
    var i := 1;
    while i < |numbers|
      invariant numbers == [] ==> largest == 0
      invariant numbers != [] ==> largest < i <= |numbers|
      invariant numbers != [] ==> forall j | 0 <= j < i :: numbers[j] <= numbers[largest]
    {
      if numbers[largest] < numbers[i] {
        largest := i;
      }
      i := i + 1;
    }
  }

  lemma {:induction false} AllDigitsLead(numbers: Numbers)
    ensures LeadingDigits(numbers) == |numbers| <==> AreDigits(numbers)
  {}

  method NormalizeNumbersHelper(numbers: Numbers) returns (ok: bool, output: uint64)
    ensures (if ok then Some(output) else None) == Interpreted(numbers)
  {
    hide Decimal, Terms;
    var largest := MaxElement(numbers);
    if largest == |numbers| {
      return false, 0;
    }
    AllDigitsLead(numbers);
    if numbers[largest] < 10 {
      ok, output := InterpretNumbersAsBase10System(numbers);
    } else {
      ok, output := InterpretNumbersInJapaneseWay(numbers);
    }
  }
}
