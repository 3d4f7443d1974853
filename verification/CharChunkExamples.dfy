/** A composition that falls back: src/composer/char_chunk.cc, lines 333 to 351. */
module CharChunkExamples {
  import opened Wrappers
  import opened CompositionTable
  import opened CharChunk

  /** A rule for n whose result is displayed while nya may follow. */
  function RulesForN(result: string): Table {
    Table(map["n" := Entry(result, "", {DisplayAmbiguousResult}), "nya" := Entry("nya", "", {})], true)
  }

  lemma LookUpN(result: string)
    ensures
      var table := RulesForN(result);
      && LookUpPrefix(table, "n") == Lookup(Some(Entry(result, "", {DisplayAmbiguousResult})), 1, false)
      && LookUpPrefix(table, "ny") == LookUpPrefix(table, "nyx") == Lookup(None, 2, true)
      && IsWellFormed(table)
  {
    var table := RulesForN(result);
    assert "nyx"[..1] == "ny"[..1] == "n"[..1] == "n" && "nyx"[..2] == "ny"[..2] == "ny" && "nyx"[..3] == "nyx";
    assert "n" <= "nya" && "ny" <= "nya" && "n" < "nya";
    assert "n" in table.entries && "nya" in table.entries;
    assert IsNode(table, "n") && IsNode(table, "ny") && !IsNode(table, "nyx") by {
      assert "nyx"[2] != "nya"[2];
    }
    assert WalkFrom(table, "n", 0) == WalkFrom(table, "n", 1) == 1;
    assert WalkFrom(table, "ny", 0) == WalkFrom(table, "ny", 1) == WalkFrom(table, "ny", 2) == 2;
    assert WalkFrom(table, "nyx", 0) == WalkFrom(table, "nyx", 1) == WalkFrom(table, "nyx", 2) == 2;
    NothingIsUsable(table);
  }

  const DISPLAYED := {DisplayAmbiguousResult}

  lemma AfterN(result: string)
    ensures
      var table := RulesForN(result);
      IsWellFormed(table) &&
      After(table, ["n"]) == Chunk("n", "", "n", result, true, Snapshot("n", "", result, DISPLAYED), DISPLAYED)
  {
    hide LookUpPrefix, IsWellFormed, IsUsable;
    var table := RulesForN(result);
    LookUpN(result);
    NothingIsUsable(table);
    assert "" + "n" == "n" && ["n"] == [] + ["n"];
    AfterOneMore(table, [], "n");
  }

  lemma AfterNAndY(result: string)
    ensures
      var table := RulesForN(result);
      IsWellFormed(table) &&
      After(table, ["n", "y"]) == Chunk("ny", "", "ny", "", false, Snapshot("n", "", result, DISPLAYED), DISPLAYED)
  {
    hide LookUpPrefix, IsWellFormed, IsUsable, After;
    var table := RulesForN(result);
    LookUpN(result);
    AfterN(result);
    assert "n" + "y" == "ny" && ["n", "y"] == ["n"] + ["y"];
    AfterOneMore(table, ["n"], "y");
  }

  /** Typing n, y and x falls back to the result of n: without a result the n that was shown is gone from the display. */
  lemma FallingBackToN(result: string)
    ensures
      var table := RulesForN(result);
      IsWellFormed(table) &&
      var shown, c := After(table, ["n"]), After(table, ["n", "y"]);
      && shown.Display() == (if result != "" then result else "n")
      && FallsBack(table, c, "x")
      && OneRound(table, c, "x").chunk.Display() == result
      && OneRound(table, c, "x").rest == "yx"
  {
    hide LookUpPrefix, IsWellFormed, After;
    var table := RulesForN(result);
    LookUpN(result);
    AfterN(result);
    AfterNAndY(result);
    assert "ny" + "x" == "nyx" && "n" < "ny" && "ny"[1..] == "y" && "y" + "x" == "yx";
  }

  // The simplest case.

  function RuleForA(): Table {
    Table(map["a" := Entry("あ", "", {})], true)
  }

  lemma LookUpA()
    ensures LookUpPrefix(RuleForA(), "a") == Lookup(Some(Entry("あ", "", {})), 1, true)
    ensures IsWellFormed(RuleForA())
  {
    var table := RuleForA();
    assert "a"[..1] == "a" && "a" in table.entries && "a" <= "a";
    assert IsNode(table, "a");
    assert WalkFrom(table, "a", 0) == WalkFrom(table, "a", 1) == 1;
    NothingIsUsable(table);
  }

  /** Typing a with the rule for it shows あ. */
  lemma TypingA()
    ensures IsWellFormed(RuleForA()) && After(RuleForA(), ["a"]) == Chunk("a", "あ", "", "", false, NO_SNAPSHOT, {})
    ensures After(RuleForA(), ["a"]).Display() == "あ"
  {
    hide LookUpPrefix, IsWellFormed, IsUsable, RuleForA;
    LookUpA();
    NothingIsUsable(RuleForA());
    assert "" + "a" == "a" && ["a"] == [] + ["a"] && "a"[1..] == "" && "a"[..1] == "a";
    AfterOneMore(RuleForA(), [], "a");
  }
}
