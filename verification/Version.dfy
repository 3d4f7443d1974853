/** Comparing product versions: src/base/version.cc, lines 50 to 98. */
module Version {
  predicate IsSpace(c: char) {
    c == ' ' || '\t' as int <= c as int <= '\r' as int
  }

  predicate IsDigit(c: char) {
    '0' <= c <= '9'
  }

  function TrimFront(text: string): string {
    if text != "" && IsSpace(text[0]) then TrimFront(text[1..]) else text
  }

  function TrimBack(text: string): string {
    if text != "" && IsSpace(text[|text| - 1]) then TrimBack(text[..|text| - 1]) else text
  }

  function DigitsValue(digits: string): nat
    requires forall c | c in digits :: IsDigit(c)
  {
    if digits == "" then
      0
    else
      assert IsDigit(digits[|digits| - 1]);
      10 * DigitsValue(digits[..|digits| - 1]) + (digits[|digits| - 1] as int - '0' as int)
  }

  /** A 32-bit decimal integer, or zero. */
  function SimpleAtoi(text: string): (n: int)
    ensures -0x8000_0000 <= n < 0x8000_0000
  {
    var trimmed := TrimBack(TrimFront(text));
    var negative := trimmed != "" && trimmed[0] == '-';
    var digits := if negative || (trimmed != "" && trimmed[0] == '+') then trimmed[1..] else trimmed;
    if digits == "" || exists c | c in digits :: !IsDigit(c) then
      0
    else
      var value: int := if negative then 0 - DigitsValue(digits) else DigitsValue(digits);
      if -0x8000_0000 <= value < 0x8000_0000 then value else 0
  }

  /** The parts between dots, without empty ones. */
  function Parts(version: string, part: string): seq<string> {
    if version == "" then
      if part == "" then [] else [part]
    else if version[0] == '.' then
      (if part == "" then [] else [part]) + Parts(version[1..], "")
    else
      Parts(version[1..], part + [version[0]])
  }

  predicate Contains(text: string, word: string) {
    word <= text || (text != "" && Contains(text[1..], word))
  }

  predicate LexicographicallyLess(a: seq<string>, b: seq<string>) {
    if a == [] || b == [] then
      a == [] && b != []
    else
      || SimpleAtoi(a[0]) < SimpleAtoi(b[0])
      || (SimpleAtoi(a[0]) == SimpleAtoi(b[0]) && LexicographicallyLess(a[1..], b[1..]))
  }

  /** Whether the first version is older than the second; an unknown version is never older nor newer. */
  predicate CompareVersion(lhs: string, rhs: string) {
    && lhs != rhs
    && !Contains(lhs, "Unknown")
    && !Contains(rhs, "Unknown")
    && LexicographicallyLess(Parts(lhs, ""), Parts(rhs, ""))
  }

  lemma {:induction false} LessIsAsymmetric(a: seq<string>, b: seq<string>)
    requires LexicographicallyLess(a, b)
    ensures !LexicographicallyLess(b, a)
  {
    hide SimpleAtoi;
    if a != [] && b != [] && SimpleAtoi(a[0]) == SimpleAtoi(b[0]) {
      LessIsAsymmetric(a[1..], b[1..]);
    }
  }

  lemma {:induction false} LessIsTransitive(a: seq<string>, b: seq<string>, c: seq<string>)
    requires LexicographicallyLess(a, b) && LexicographicallyLess(b, c)
    ensures LexicographicallyLess(a, c)
  {
    hide SimpleAtoi;
    if a != [] && SimpleAtoi(a[0]) == SimpleAtoi(b[0]) == SimpleAtoi(c[0]) {
      LessIsTransitive(a[1..], b[1..], c[1..]);
    }
  }

  /** Numbers of the parts of a version. */
  function Numbers(parts: seq<string>): seq<int> {
    if parts == [] then [] else [SimpleAtoi(parts[0])] + Numbers(parts[1..])
  }

  lemma {:induction false} LessOrGreaterUnlessEqual(a: seq<string>, b: seq<string>)
    ensures LexicographicallyLess(a, b) || LexicographicallyLess(b, a) <==> Numbers(a) != Numbers(b)
  {
    hide SimpleAtoi;
    if a != [] && b != [] {
      assert Numbers(a)[0] == SimpleAtoi(a[0]) && Numbers(a)[1..] == Numbers(a[1..]);
      assert Numbers(b)[0] == SimpleAtoi(b[0]) && Numbers(b)[1..] == Numbers(b[1..]);
      LessOrGreaterUnlessEqual(a[1..], b[1..]);
    }
  }

  /** Being older is a strict order on versions. */
  lemma OlderIsAStrictOrder(a: string, b: string, c: string)
    ensures !CompareVersion(a, a)
    ensures CompareVersion(a, b) ==> !CompareVersion(b, a)
    ensures CompareVersion(a, b) && CompareVersion(b, c) ==> CompareVersion(a, c)
  {
    hide SimpleAtoi, Contains;
    if CompareVersion(a, b) {
      LessIsAsymmetric(Parts(a, ""), Parts(b, ""));
      if CompareVersion(b, c) {
        LessIsTransitive(Parts(a, ""), Parts(b, ""), Parts(c, ""));
        if a == c {
          LessIsAsymmetric(Parts(a, ""), Parts(c, ""));
          assert false;
        }
      }
    }
  }

  /** Two known versions are neither older nor newer exactly when their numbers are the same. */
  lemma NeitherOlderNorNewer(a: string, b: string)
    requires !Contains(a, "Unknown") && !Contains(b, "Unknown")
    ensures !CompareVersion(a, b) && !CompareVersion(b, a) <==> Numbers(Parts(a, "")) == Numbers(Parts(b, ""))
  {
    hide SimpleAtoi, Contains;
    LessOrGreaterUnlessEqual(Parts(a, ""), Parts(b, ""));
  }

  // The first numbers that differ decide.

  /** All numbers before the k-th agree; there is a k-th number and it is smaller, or there is none where the other has one. */
  predicate IsSmallerAt(a: seq<string>, b: seq<string>, k: nat) {
    && k <= |a| && k < |b|
    && (forall i | 0 <= i < k :: SimpleAtoi(a[i]) == SimpleAtoi(b[i]))
    && (k < |a| ==> SimpleAtoi(a[k]) < SimpleAtoi(b[k]))
  }

  lemma {:induction false} SmallerSomewhere(a: seq<string>, b: seq<string>, k: nat)
    requires IsSmallerAt(a, b, k)
    ensures LexicographicallyLess(a, b)
    decreases k
  {
    hide SimpleAtoi;
    if k > 0 {
      assert a[1..] != [] || k == 1;
      assert forall i | 0 <= i < k - 1 :: a[1..][i] == a[i + 1] && b[1..][i] == b[i + 1];
      SmallerSomewhere(a[1..], b[1..], k - 1);
    }
  }

  lemma {:induction false} LessIsSmallerSomewhere(a: seq<string>, b: seq<string>) returns (k: nat)
    requires LexicographicallyLess(a, b)
    ensures IsSmallerAt(a, b, k)
  {
    hide SimpleAtoi;
    if a == [] || SimpleAtoi(a[0]) < SimpleAtoi(b[0]) {
      k := 0;
    } else {
      k := LessIsSmallerSomewhere(a[1..], b[1..]);
      assert forall i | 1 <= i < k + 1 :: a[i] == a[1..][i - 1] && b[i] == b[1..][i - 1];
      k := k + 1;
    }
  }

  /** A known version is older than another one exactly when its number is smaller, or missing, where they differ first. */
  lemma OlderIsSmallerWhereTheyDiffer(a: string, b: string, x: seq<string>, y: seq<string>)
    requires !Contains(a, "Unknown") && !Contains(b, "Unknown")
    requires x == Parts(a, "") && y == Parts(b, "")
    ensures CompareVersion(a, b) <==> exists k: nat :: IsSmallerAt(x, y, k)
  {
    hide SimpleAtoi, Contains, IsSmallerAt, Parts;
    if CompareVersion(a, b) {
      var k := LessIsSmallerSomewhere(x, y);
    } else if exists k: nat :: IsSmallerAt(x, y, k) {
      var k: nat :| IsSmallerAt(x, y, k);
      SmallerSomewhere(x, y, k);
      LessIsAsymmetric(x, y);
      assert false;
    }
  }

  // The parts of a version.

  function Joined(parts: seq<string>): string {
    if parts == [] then "" else if |parts| == 1 then parts[0] else parts[0] + "." + Joined(parts[1..])
  }

  lemma {:induction false} PartsAfterText(text: string, rest: string, part: string)
    requires '.' !in text
    ensures Parts(text + rest, part) == Parts(rest, part + text)
    decreases |text|
  {
    if text == "" {
      assert text + rest == rest && part + text == part;
    } else {
      assert (text + rest)[1..] == text[1..] + rest;
      assert part + [text[0]] + text[1..] == part + text;
      PartsAfterText(text[1..], rest, part + [text[0]]);
    }
  }

  /** Parts that are joined by dots come back. */
  lemma {:induction false} PartsOfJoined(parts: seq<string>)
    requires forall part | part in parts :: part != "" && '.' !in part
    ensures Parts(Joined(parts), "") == parts
  {
    if parts != [] {
      var first := parts[0];
      assert first in parts && "" + first == first;
      if |parts| == 1 {
        PartsAfterText(first, "", "");
        assert first + "" == first;
      } else {
        var rest := "." + Joined(parts[1..]);
        PartsAfterText(first, rest, "");
        assert first + "." + Joined(parts[1..]) == first + rest;
        assert rest[1..] == Joined(parts[1..]);
        PartsOfJoined(parts[1..]);
        assert [first] + parts[1..] == parts;
      }
    }
  }

  lemma ValueOfTwoDigits(text: string)
    requires |text| == 2 && IsDigit(text[0]) && IsDigit(text[1])
    ensures SimpleAtoi(text) == 10 * (text[0] as int - '0' as int) + (text[1] as int - '0' as int)
  {
    assert text[..1][..0] == "" && text[..1][0] == text[0];
    assert DigitsValue(text[..1]) == text[0] as int - '0' as int;
  }

  lemma ValueOfOneDigit(c: char)
    requires IsDigit(c)
    ensures SimpleAtoi([c]) == c as int - '0' as int
  {
    var text := [c];
    assert text[..0] == "" && text[0] == c;
    assert DigitsValue(text) == c as int - '0' as int;
    assert TrimBack(TrimFront(text)) == text;
  }

  /** 2.28 is older than 2.29, and so is 2.9, and 2 alone. */
  lemma OlderVersions()
    ensures CompareVersion("2.28", "2.29") && CompareVersion("2.9", "2.29") && CompareVersion("2", "2.29")
    ensures !CompareVersion("2.29", "2.28") && !CompareVersion("2.Unknown", "2.29")
  {
    hide SimpleAtoi, Parts;
    ValueOfTwoDigits("28");
    ValueOfTwoDigits("29");
    ValueOfOneDigit('2');
    ValueOfOneDigit('9');
    PartsOf("2", "28");
    PartsOf("2", "29");
    PartsOf("2", "9");
    PartsOfJoined(["2"]);
    assert LexicographicallyLess(["28"], ["29"]) && LexicographicallyLess(["9"], ["29"]) && LexicographicallyLess([], ["29"]);
    assert ["2", "28"][1..] == ["28"] && ["2", "29"][1..] == ["29"] && ["2", "9"][1..] == ["9"] && ["2"][1..] == [];
    assert LexicographicallyLess(["2", "28"], ["2", "29"]);
    KnownVersions();
    LessIsAsymmetric(["2", "28"], ["2", "29"]);
    assert "2.Unknown"[1..] == ".Unknown" && ".Unknown"[1..] == "Unknown";
    assert Contains("Unknown", "Unknown");
    assert Contains(".Unknown", "Unknown");
  }

  lemma PartsOf(a: string, b: string)
    requires a != "" && b != "" && '.' !in a && '.' !in b
    ensures Parts(a + "." + b, "") == [a, b]
  {
    hide Parts;
    assert [a, b][1..] == [b];
    assert Joined([a, b]) == a + "." + b;
    PartsOfJoined([a, b]);
  }

  lemma {:induction false} NoLetter(text: string, c: char, word: string)
    requires c in word && c !in text
    ensures !Contains(text, word)
  {
    if text != "" {
      NoLetter(text[1..], c, word);
    }
  }

  lemma KnownVersions()
    ensures !Contains("2.28", "Unknown") && !Contains("2.29", "Unknown") && !Contains("2.9", "Unknown")
    ensures !Contains("2", "Unknown")
    ensures "2" + "." + "28" == "2.28" && "2" + "." + "29" == "2.29" && "2" + "." + "9" == "2.9"
  {
    hide Contains;
    assert "Unknown"[0] == 'U';
    assert 'U' in "Unknown";
    NoLetter("2.28", 'U', "Unknown");
    NoLetter("2.29", 'U', "Unknown");
    NoLetter("2.9", 'U', "Unknown");
    NoLetter("2", 'U', "Unknown");
  }
}
