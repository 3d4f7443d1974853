/** An example of printed numbers: the greatest number of 64 bits in all styles. */
module NumberExamples {
  import opened Wrappers
  import opened NumberReader
  import opened NumberNormalizer
  import opened NumberRoundTrip
  import opened NumberPrinter

  lemma FirstSegment(style: Style, segment: string, rest: string)
    requires IsSegment(segment) && AreSegments(segment + rest)
    ensures AreSegments(rest)
    ensures Text(style, segment + rest) == RankedSegment(style, segment, |rest| / 4) + Text(style, rest)
  {
    hide RankedSegment;
    assert (segment + rest)[..4] == segment && (segment + rest)[4..] == rest;
    assert forall c | c in rest :: c in segment + rest;
  }

  lemma Half1844()
    ensures RankedSegment(HalfWidthArabicAndKanji, "1844", 4) == "1844京"
  {}

  lemma Half6744()
    ensures RankedSegment(HalfWidthArabicAndKanji, "6744", 3) == "6744兆"
  {}

  lemma Half0737()
    ensures RankedSegment(HalfWidthArabicAndKanji, "0737", 2) == "737億"
  {}

  lemma Half0955()
    ensures RankedSegment(HalfWidthArabicAndKanji, "0955", 1) == "955万"
  {}

  lemma Half1615()
    ensures RankedSegment(HalfWidthArabicAndKanji, "1615", 0) == "1615"
  {}

  lemma Full1844()
    ensures RankedSegment(FullWidthArabicAndKanji, "1844", 4) == "１８４４京"
  {}

  lemma Full6744()
    ensures RankedSegment(FullWidthArabicAndKanji, "6744", 3) == "６７４４兆"
  {}

  lemma Full0737()
    ensures RankedSegment(FullWidthArabicAndKanji, "0737", 2) == "７３７億"
  {}

  lemma Full0955()
    ensures RankedSegment(FullWidthArabicAndKanji, "0955", 1) == "９５５万"
  {}

  lemma Full1615()
    ensures RankedSegment(FullWidthArabicAndKanji, "1615", 0) == "１６１５"
  {}

  lemma Kanji1844()
    ensures RankedSegment(Kanji, "1844", 4) == "千八百四十四京"
  {}

  lemma Kanji6744()
    ensures RankedSegment(Kanji, "6744", 3) == "六千七百四十四兆"
  {}

  lemma Kanji0737()
    ensures RankedSegment(Kanji, "0737", 2) == "七百三十七億"
  {}

  lemma Kanji0955()
    ensures RankedSegment(Kanji, "0955", 1) == "九百五十五万"
  {}

  lemma Kanji1615()
    ensures RankedSegment(Kanji, "1615", 0) == "千六百十五"
  {}

  lemma Old1844()
    ensures RankedSegment(OldKanji, "1844", 4) == "壱阡八百四拾四京"
  {}

  lemma Old6744()
    ensures RankedSegment(OldKanji, "6744", 3) == "六阡七百四拾四兆"
  {}

  lemma Old0737()
    ensures RankedSegment(OldKanji, "0737", 2) == "七百参拾七億"
  {}

  lemma Old0955()
    ensures RankedSegment(OldKanji, "0955", 1) == "九百五拾五萬"
  {}

  lemma Old1615()
    ensures RankedSegment(OldKanji, "1615", 0) == "壱阡六百壱拾五"
  {}

  const GREATEST := "18446744073709551615"

  /** The rests of the digits, segment by segment. */
  lemma Rests()
    ensures GREATEST == "1844" + ("6744" + ("0737" + ("0955" + ("1615" + ""))))
    ensures IsDecimalInteger(GREATEST) && !IsZero(GREATEST) && Filled(GREATEST) == GREATEST
    ensures AreSegments(GREATEST)
    ensures IsSegment("1844") && IsSegment("6744") && IsSegment("0737") && IsSegment("0955") && IsSegment("1615")
  {
    assert GREATEST[0] == '1';
    assert GREATEST[0] in GREATEST;
  }

  lemma TextInParts(style: Style, a: string, b: string, c: string, d: string, e: string)
    requires AreSegments(a + (b + (c + (d + (e + "")))))
    requires IsSegment(a) && IsSegment(b) && IsSegment(c) && IsSegment(d) && IsSegment(e)
    ensures Text(style, a + (b + (c + (d + (e + ""))))) ==
            RankedSegment(style, a, 4)
            + (RankedSegment(style, b, 3)
               + (RankedSegment(style, c, 2) + (RankedSegment(style, d, 1) + RankedSegment(style, e, 0))))
  {
    hide RankedSegment, Text;
    FirstSegment(style, a, b + (c + (d + (e + ""))));
    FirstSegment(style, b, c + (d + (e + "")));
    FirstSegment(style, c, d + (e + ""));
    FirstSegment(style, d, e + "");
    FirstSegment(style, e, "");
    TextOfNothing(style);
  }

  lemma HalfText()
    ensures AreSegments(GREATEST)
    ensures Text(HalfWidthArabicAndKanji, GREATEST) ==
            "1844京" + ("6744兆" + ("737億" + ("955万" + "1615")))
  {
    hide RankedSegment, Text, IsSegment, AreSegments, GREATEST;
    Rests();
    Half1844();
    Half6744();
    Half0737();
    Half0955();
    Half1615();
    TextInParts(HalfWidthArabicAndKanji, "1844", "6744", "0737", "0955", "1615");
  }

  lemma FullText()
    ensures AreSegments(GREATEST)
    ensures Text(FullWidthArabicAndKanji, GREATEST) ==
            "１８４４京" + ("６７４４兆" + ("７３７億" + ("９５５万" + "１６１５")))
  {
    hide RankedSegment, Text, IsSegment, AreSegments, GREATEST;
    Rests();
    Full1844();
    Full6744();
    Full0737();
    Full0955();
    Full1615();
    TextInParts(FullWidthArabicAndKanji, "1844", "6744", "0737", "0955", "1615");
  }

  lemma KanjiText()
    ensures AreSegments(GREATEST)
    ensures Text(Kanji, GREATEST) ==
            "千八百四十四京" + ("六千七百四十四兆" + ("七百三十七億" + ("九百五十五万" + "千六百十五")))
  {
    hide RankedSegment, Text, IsSegment, AreSegments, GREATEST;
    Rests();
    Kanji1844();
    Kanji6744();
    Kanji0737();
    Kanji0955();
    Kanji1615();
    TextInParts(Kanji, "1844", "6744", "0737", "0955", "1615");
  }

  lemma OldText()
    ensures AreSegments(GREATEST)
    ensures Text(OldKanji, GREATEST) ==
            "壱阡八百四拾四京" + ("六阡七百四拾四兆" + ("七百参拾七億" + ("九百五拾五萬" + "壱阡六百壱拾五")))
  {
    hide RankedSegment, Text, IsSegment, AreSegments, GREATEST;
    Rests();
    Old1844();
    Old6744();
    Old0737();
    Old0955();
    Old1615();
    TextInParts(OldKanji, "1844", "6744", "0737", "0955", "1615");
  }

  /** All candidates for it. */
  lemma CandidatesOfGreatest()
    ensures IsDecimalInteger(GREATEST) && AreSegments(Filled(GREATEST))
    ensures Candidates(Filled(GREATEST), KANJI_VARIATIONS) ==
            [NumberString("1844京" + ("6744兆" + ("737億" + ("955万" + "1615"))), HalfWidthArabicAndKanji),
             NumberString("１８４４京" + ("６７４４兆" + ("７３７億" + ("９５５万" + "１６１５"))), FullWidthArabicAndKanji),
             NumberString("千八百四十四京" + ("六千七百四十四兆" + ("七百三十七億" + ("九百五十五万" + "千六百十五"))), Kanji),
             NumberString("壱阡八百四拾四京" + ("六阡七百四拾四兆" + ("七百参拾七億" + ("九百五拾五萬" + "壱阡六百壱拾五"))), OldKanji)]
  {
    hide Text, Filled, Candidates;
    Rests();
    HalfText();
    FullText();
    KanjiText();
    OldText();
    NoCandidates(GREATEST);
    NextCandidate(GREATEST, KANJI_VARIATIONS, 0);
    NextCandidate(GREATEST, KANJI_VARIATIONS, 1);
    NextCandidate(GREATEST, KANJI_VARIATIONS, 2);
    NextCandidate(GREATEST, KANJI_VARIATIONS, 3);
    assert KANJI_VARIATIONS[..4] == KANJI_VARIATIONS && KANJI_VARIATIONS[..0] == [];
  }
}
