/** One unit of a composition: src/composer/char_chunk.cc, lines 106 to 121 and 305 to 494. */
module CharChunk {
  import opened Wrappers
  import opened CompositionTable

  /** What was shown of an ambiguous result, kept to fall back on. */
  datatype Snapshot = Snapshot(raw: string, conversion: string, ambiguous: string, attributes: set<Attribute>)

  const NO_SNAPSHOT := Snapshot("", "", "", {})

  datatype Chunk = Chunk(
    raw: string,
    conversion: string,
    pending: string,
    ambiguous: string,
    displayAmbiguous: bool,
    snapshot: Snapshot,
    attributes: set<Attribute>)
  {
    /** The text the user sees. */
    function Display(): string {
      if displayAmbiguous && ambiguous != "" then conversion + ambiguous else conversion + pending
    }

    predicate HasFallback() {
      snapshot.raw != "" && snapshot.raw < raw
    }

    /** The snapshot is fixed, and what was typed since is to be typed again. */
    function Restored(): Chunk {
      Chunk(snapshot.raw, snapshot.conversion + snapshot.ambiguous, "", "", false, NO_SNAPSHOT, snapshot.attributes)
    }

    predicate IsFirstEntry() {
      conversion == "" && (raw == "" || pending == "" || raw == pending)
    }

    predicate IsEmptyResult() {
      conversion == "" && pending == "" && NoTransliteration in attributes
    }
  }

  const EMPTY := Chunk("", "", "", "", false, NO_SNAPSHOT, {})

  /** The chunk after one round, whether another round follows, and the input that is left. */
  datatype Round = Round(chunk: Chunk, loop: bool, rest: string)

  /** No rule was reached. */
  function Unmatched(table: Table, c: Chunk, input: string, length: nat): Round
    requires length <= |c.pending| + |input|
  {
    var trimmed := TrimLeadingSpecialKey(input);
    if length <= |c.pending| && c.HasFallback() then
      Round(c.Restored(), false, c.raw[|c.snapshot.raw|..] + input)
    else if length == 0 then
      if |trimmed| < |input| then
        Round(c, true, trimmed)
      else if c.pending == "" && input != "" then
        Round(c.(raw := c.raw + input[..1], conversion := c.conversion + input[..1]), false, input[1..])
      else
        Round(c, false, input)
    else if length == |c.pending| then
      var next := LookUpPrefix(table, input);
      if next.entry.None? && next.length == 0 && |trimmed| < |input| then
        Round(c, true, trimmed)
      else
        Round(c, false, input)
    else if length < |c.pending| then
      Round(c, false, input)
    else
      var used := input[..length - |c.pending|];
      Round(c.(raw := c.raw + used, pending := c.pending + used, ambiguous := "", displayAmbiguous := false),
            false, input[length - |c.pending|..])
  }

  /** The chunk with a rule applied, before the check for results that are empty. */
  function WithEntry(c: Chunk, entry: Entry, used: string, resolved: bool): Chunk {
    var attributes := if c.IsFirstEntry() then entry.attributes else c.attributes;
    var raw := c.raw + used;
    if resolved then
      Chunk(raw, c.conversion + entry.result, entry.pending, "", false, NO_SNAPSHOT, attributes)
    else
      var display := DisplayAmbiguousResult in entry.attributes;
      var snapshot := if display then Snapshot(raw, c.conversion, entry.result, attributes) else NO_SNAPSHOT;
      Chunk(raw, c.conversion, c.pending + used, entry.result, display, snapshot, attributes)
  }

  function Matched(c: Chunk, input: string, entry: Entry, length: nat, fixed: bool): Round
    requires |c.pending| <= length <= |c.pending| + |input|
  {
    var n := length - |c.pending|;
    var rest := input[n..];
    var next := WithEntry(c, entry, input[..n], fixed || rest != "");
    if fixed && rest == "" && next.IsEmptyResult() then
      Round(next.(raw := ""), false, "")
    else
      Round(next, rest != "" && next.pending != "", rest)
  }

  function OneRound(table: Table, c: Chunk, input: string): Round
    requires IsUsable(table, c.pending)
  {
    UsableLookup(table, c.pending, input);
    var lookup := LookUpPrefix(table, c.pending + input);
    match lookup.entry
    case None => Unmatched(table, c, input, lookup.length)
    case Some(entry) => Matched(c, input, entry, lookup.length, lookup.fixed)
  }

  lemma NothingIsUsable(table: Table)
    ensures IsUsable(table, "")
  {}

  /** A pending string stays usable. */
  lemma RoundKeepsUsable(table: Table, c: Chunk, input: string)
    requires IsWellFormed(table) && IsUsable(table, c.pending)
    ensures IsUsable(table, OneRound(table, c, input).chunk.pending)
  {
    hide LookUpPrefix, TrimLeadingSpecialKey;
    NothingIsUsable(table);
    UsableLookup(table, c.pending, input);
    var key := c.pending + input;
    var lookup := LookUpPrefix(table, key);
    WalkedIsUsable(table, key);
    if lookup.length >= |c.pending| {
      assert key[..lookup.length] == c.pending + input[..lookup.length - |c.pending|];
    }
    RuleInTable(table, key);
  }

  lemma RuleInTable(table: Table, key: string)
    requires IsWellFormed(table)
    ensures LookUpPrefix(table, key).entry.Some? ==> IsUsable(table, LookUpPrefix(table, key).entry.value.pending)
  {
    hide IsUsable;
  }

  /** A rule that uses no input leads to a pending string of lower rank. */
  lemma RoundGetsSmaller(table: Table, rank: string -> nat, c: Chunk, input: string)
    requires IsUsable(table, c.pending) && IsWellFounded(table, rank)
    ensures
      var r := OneRound(table, c, input);
      r.loop ==>
        || |r.rest| < |input|
        || (|r.rest| == |input|
            && rank(Normalized(table, r.chunk.pending)) < rank(Normalized(table, c.pending)))
  {
    hide WalkFrom, Normalized, TrimLeadingSpecialKey, IsNode;
    UsableLookup(table, c.pending, input);
    NormalizedPrefix(table, c.pending, input);
    var lookup := LookUpPrefix(table, c.pending + input);
    if lookup.entry.Some? && lookup.length == |c.pending| {
      assert Normalized(table, c.pending) in table.entries;
      assert lookup.entry.value == table.entries[Normalized(table, c.pending)];
      assert input[0..] == input;
    }
  }

  /**
   * No character is lost or made up: what the chunk holds and what is left is what it held and what came in, unless
   * the round removed a special key or dropped a result that is empty and not to be transliterated.
   */
  lemma RoundConserves(table: Table, c: Chunk, input: string)
    requires IsUsable(table, c.pending)
    ensures
      var r := OneRound(table, c, input);
      || r.chunk.raw + r.rest == c.raw + input
      || (r.chunk == c && r.loop && r.rest == TrimLeadingSpecialKey(input) && |r.rest| < |input|)
      || (r.chunk.raw == "" && r.chunk.IsEmptyResult() && !r.loop && r.rest == "")
  {
    hide LookUpPrefix, TrimLeadingSpecialKey, Unmatched, Matched;
    UsableLookup(table, c.pending, input);
    var lookup := LookUpPrefix(table, c.pending + input);
    match lookup.entry
    case None => UnmatchedConserves(table, c, input, lookup.length);
    case Some(entry) => MatchedConserves(c, input, entry, lookup.length, lookup.fixed);
  }

  lemma UsedAndLeft(raw: string, input: string, n: nat)
    requires n <= |input|
    ensures raw + input[..n] + input[n..] == raw + input
  {}

  lemma UnmatchedConserves(table: Table, c: Chunk, input: string, length: nat)
    requires length <= |c.pending| + |input|
    ensures
      var r := Unmatched(table, c, input, length);
      || r.chunk.raw + r.rest == c.raw + input
      || (r.chunk == c && r.loop && r.rest == TrimLeadingSpecialKey(input) && |r.rest| < |input|)
  {
    hide LookUpPrefix, TrimLeadingSpecialKey;
    if length <= |c.pending| && c.HasFallback() {
      var typed := c.raw[|c.snapshot.raw|..];
      assert c.raw == c.snapshot.raw + typed;
      assert c.snapshot.raw + (typed + input) == c.snapshot.raw + typed + input;
    } else if length > |c.pending| {
      UsedAndLeft(c.raw, input, length - |c.pending|);
    } else if input != "" {
      UsedAndLeft(c.raw, input, 1);
    }
  }

  lemma MatchedConserves(c: Chunk, input: string, entry: Entry, length: nat, fixed: bool)
    requires |c.pending| <= length <= |c.pending| + |input|
    ensures
      var r := Matched(c, input, entry, length, fixed);
      || r.chunk.raw + r.rest == c.raw + input
      || (r.chunk.raw == "" && r.chunk.IsEmptyResult() && !r.loop && r.rest == "")
  {
    UsedAndLeft(c.raw, input, length - |c.pending|);
  }

  // What becomes of the text, by what the lookup of the pending string and the input finds.

  /**
   * A rule that no longer one can replace adds its result to what is converted and leaves its pending string; else its
   * result is ambiguous as long as all of the input is pending, and kept to fall back on if it is displayed.
   */
  lemma RoundWithRule(table: Table, c: Chunk, input: string, e: Entry)
    requires IsUsable(table, c.pending) && LookUpPrefix(table, c.pending + input).entry == Some(e)
    ensures
      var key, lookup := c.pending + input, LookUpPrefix(table, c.pending + input);
      var next, rest := OneRound(table, c, input).chunk, OneRound(table, c, input).rest;
      && rest == key[lookup.length..]
      && (OneRound(table, c, input).loop <==> rest != "" && next.pending != "")
      && (if lookup.fixed || lookup.length < |key| then
            && next.conversion == c.conversion + e.result && next.pending == e.pending && next.ambiguous == ""
            && next.snapshot == NO_SNAPSHOT && !next.displayAmbiguous
          else
            && next.conversion == c.conversion && next.pending == key && next.ambiguous == e.result
            && (next.displayAmbiguous <==> DisplayAmbiguousResult in e.attributes)
            && next.snapshot == if next.displayAmbiguous then Snapshot(next.raw, next.conversion, e.result, next.attributes)
                                else NO_SNAPSHOT)
      && next.attributes ==
         (if c.conversion == "" && (c.raw == "" || c.pending == "" || c.raw == c.pending) then e.attributes
          else c.attributes)
  {
    hide LookUpPrefix, TrimLeadingSpecialKey;
    UsableLookup(table, c.pending, input);
    var key, lookup := c.pending + input, LookUpPrefix(table, c.pending + input);
    assert key[lookup.length..] == input[lookup.length - |c.pending|..];
  }

  /** A result that is empty and not to be transliterated drops the raw text, when nothing else is held or to come. */
  lemma RawTextWithRule(table: Table, c: Chunk, input: string, e: Entry)
    requires IsUsable(table, c.pending) && LookUpPrefix(table, c.pending + input).entry == Some(e)
    ensures
      var next, rest := OneRound(table, c, input).chunk, OneRound(table, c, input).rest;
      if LookUpPrefix(table, c.pending + input).fixed && next.conversion == "" && next.pending == "" && rest == ""
         && NoTransliteration in next.attributes
      then next.raw == ""
      else next.raw + rest == c.raw + input
  {
    hide LookUpPrefix, TrimLeadingSpecialKey;
    UsableLookup(table, c.pending, input);
    UsedAndLeft(c.raw, input, LookUpPrefix(table, c.pending + input).length - |c.pending|);
  }

  /** What begins a longer rule is pending, and what begins none is taken as it is. */
  lemma RoundWithoutRule(table: Table, c: Chunk, input: string)
    requires IsUsable(table, c.pending) && LookUpPrefix(table, c.pending + input).entry == None
    requires !FallsBack(table, c, input)
    ensures
      var key, n := c.pending + input, LookUpPrefix(table, c.pending + input).length;
      var r := OneRound(table, c, input);
      if n > |c.pending| then
        && r.chunk.conversion == c.conversion && r.chunk.pending == key[..n] && r.chunk.ambiguous == ""
        && r.chunk.snapshot == c.snapshot && !r.chunk.displayAmbiguous && r.chunk.attributes == c.attributes
        && r.rest == key[n..] && r.chunk.raw + r.rest == c.raw + input && !r.loop
      else if n == 0 && c.pending == "" && input != "" && TrimLeadingSpecialKey(input) == input then
        && r.chunk == c.(raw := c.raw + input[..1], conversion := c.conversion + input[..1])
        && r.rest == input[1..] && !r.loop
      else
        && r.chunk == c
        && (r.rest == if r.loop then TrimLeadingSpecialKey(input) else input)
        && (r.loop <==> TrimLeadingSpecialKey(input) != input
                        && (n == 0 || (n == |c.pending| && LookUpPrefix(table, input).entry == None
                                       && LookUpPrefix(table, input).length == 0)))
  {
    hide LookUpPrefix, TrimLeadingSpecialKey;
    UsableLookup(table, c.pending, input);
    var key, n := c.pending + input, LookUpPrefix(table, c.pending + input).length;
    TrimmedIsShorter(input);
    if n > |c.pending| {
      assert key[..n] == c.pending + input[..n - |c.pending|];
      assert key[n..] == input[n - |c.pending|..];
      UsedAndLeft(c.raw, input, n - |c.pending|);
    }
  }

  lemma TrimmedIsShorter(input: string)
    ensures |TrimLeadingSpecialKey(input)| < |input| || TrimLeadingSpecialKey(input) == input
  {}

  /** All rounds of adding an input: the chunk and the input that is left. */
  ghost function AllRounds(table: Table, rank: string -> nat, c: Chunk, input: string): (Chunk, string)
    requires IsWellFormed(table) && IsWellFounded(table, rank) && IsUsable(table, c.pending)
    decreases |input|, rank(Normalized(table, c.pending))
  {
    RoundKeepsUsable(table, c, input);
    RoundGetsSmaller(table, rank, c, input);
    var r := OneRound(table, c, input);
    if r.loop then AllRounds(table, rank, r.chunk, r.rest) else (r.chunk, r.rest)
  }

  /** No rule of the table forbids transliteration. */
  ghost predicate IsTransliterated(table: Table) {
    forall key | key in table.entries :: NoTransliteration !in table.entries[key].attributes
  }

  ghost predicate IsTransliteratedChunk(c: Chunk) {
    NoTransliteration !in c.attributes && NoTransliteration !in c.snapshot.attributes
  }

  lemma NothingToTrim(input: string)
    requires HasNoSpecialKeys(input)
    ensures TrimLeadingSpecialKey(input) == input
  {}

  lemma RoundStaysTransliterated(table: Table, c: Chunk, input: string)
    requires IsUsable(table, c.pending) && IsTransliterated(table) && IsTransliteratedChunk(c)
    requires HasNoSpecialKeys(input)
    ensures
      var r := OneRound(table, c, input);
      && IsTransliteratedChunk(r.chunk)
      && (r.loop ==> HasNoSpecialKeys(r.rest))
  {
    hide WalkFrom, Normalized, IsNode;
    NothingToTrim(input);
    UsableLookup(table, c.pending, input);
  }

  /** Adding input without special keys by rules that allow transliteration conserves every character. */
  lemma {:induction false} AddingConserves(table: Table, rank: string -> nat, c: Chunk, input: string)
    requires IsWellFormed(table) && IsWellFounded(table, rank) && IsUsable(table, c.pending)
    requires IsTransliterated(table) && IsTransliteratedChunk(c) && HasNoSpecialKeys(input)
    ensures
      var (next, rest) := AllRounds(table, rank, c, input);
      next.raw + rest == c.raw + input && IsTransliteratedChunk(next)
    decreases |input|, rank(Normalized(table, c.pending))
  {
    hide OneRound, TrimLeadingSpecialKey, HasNoSpecialKeys, IsTransliterated, IsWellFormed, IsWellFounded, IsUsable;
    NothingToTrim(input);
    RoundKeepsUsable(table, c, input);
    RoundGetsSmaller(table, rank, c, input);
    RoundConserves(table, c, input);
    RoundStaysTransliterated(table, c, input);
    var r := OneRound(table, c, input);
    if r.loop {
      AddingConserves(table, rank, r.chunk, r.rest);
    }
  }

  // Falling back.

  /** While an ambiguous result is displayed, the snapshot is of the present. */
  predicate IsPresent(table: Table, c: Chunk) {
    c.displayAmbiguous ==>
      && c.snapshot == Snapshot(c.raw, c.conversion, c.ambiguous, c.attributes)
      && (c.pending != "" || "" in table.entries)
  }

  lemma RoundKeepsPresent(table: Table, c: Chunk, input: string)
    requires IsUsable(table, c.pending) && IsPresent(table, c)
    ensures IsPresent(table, OneRound(table, c, input).chunk)
  {
    hide TrimLeadingSpecialKey, WalkFrom, Normalized, IsNode;
    UsableLookup(table, c.pending, input);
    assert Normalized(table, c.pending + input)[..0] == "";
  }

  /** Rules whose ambiguous result is displayed have a result to display. */
  ghost predicate HasResultsToDisplay(table: Table) {
    forall key | key in table.entries && DisplayAmbiguousResult in table.entries[key].attributes ::
      table.entries[key].result != ""
  }

  /** A snapshot that is just taken is of what is displayed, exactly when there is a result to display. */
  lemma SnapshotIsOfDisplay(c: Chunk, entry: Entry, used: string)
    requires DisplayAmbiguousResult in entry.attributes && c.pending + used != ""
    ensures
      var next := WithEntry(c, entry, used, false);
      next.snapshot.conversion + next.snapshot.ambiguous == next.Display() <==> entry.result != ""
  {
    var next := WithEntry(c, entry, used, false);
    if entry.result == "" {
      assert |next.Display()| == |c.conversion| + |next.pending|;
    }
  }

  /** While an ambiguous result is displayed there is one, if the rules have results to display. */
  lemma RoundKeepsResult(table: Table, c: Chunk, input: string)
    requires IsUsable(table, c.pending) && HasResultsToDisplay(table)
    requires c.displayAmbiguous ==> c.ambiguous != ""
    ensures
      var next := OneRound(table, c, input).chunk;
      next.displayAmbiguous ==> next.ambiguous != ""
  {
    hide TrimLeadingSpecialKey, WalkFrom, Normalized, IsNode;
    UsableLookup(table, c.pending, input);
  }

  /** A round that displays no ambiguous result keeps the snapshot or clears it. */
  lemma RoundKeepsSnapshot(table: Table, c: Chunk, input: string)
    requires IsUsable(table, c.pending)
    ensures
      var next := OneRound(table, c, input).chunk;
      next.displayAmbiguous || next.snapshot == c.snapshot || next.snapshot == NO_SNAPSHOT
  {
    hide LookUpPrefix, TrimLeadingSpecialKey;
    UsableLookup(table, c.pending, input);
  }

  /** The chunk after rounds with these inputs, from an empty chunk on. */
  ghost function After(table: Table, rounds: seq<string>): (c: Chunk)
    requires IsWellFormed(table)
    ensures IsUsable(table, c.pending) && IsPresent(table, c)
  {
    if rounds == [] then
      NothingIsUsable(table);
      EMPTY
    else
      var n := |rounds| - 1;
      var before := After(table, rounds[..n]);
      RoundKeepsUsable(table, before, rounds[n]);
      RoundKeepsPresent(table, before, rounds[n]);
      OneRound(table, before, rounds[n]).chunk
  }

  lemma AfterOneMore(table: Table, rounds: seq<string>, input: string)
    requires IsWellFormed(table)
    ensures After(table, rounds + [input]) == OneRound(table, After(table, rounds), input).chunk
  {
    hide OneRound, IsUsable, IsWellFormed;
    assert (rounds + [input])[..|rounds|] == rounds;
  }

  /** The number of rounds up to the last one that displayed an ambiguous result, or 0. */
  ghost function LastDisplayed(table: Table, rounds: seq<string>): (k: nat)
    requires IsWellFormed(table)
    ensures k <= |rounds|
  {
    if rounds == [] then 0
    else if After(table, rounds).displayAmbiguous then |rounds|
    else LastDisplayed(table, rounds[..|rounds| - 1])
  }

  lemma {:induction false} LastDisplayedIsLast(table: Table, rounds: seq<string>)
    requires IsWellFormed(table)
    ensures
      var k := LastDisplayed(table, rounds);
      && (k > 0 ==> After(table, rounds[..k]).displayAmbiguous)
      && forall j | k < j <= |rounds| :: !After(table, rounds[..j]).displayAmbiguous
  {
    hide After, IsWellFormed;
    assert rounds[..|rounds|] == rounds;
    if rounds != [] && !After(table, rounds).displayAmbiguous {
      var before := rounds[..|rounds| - 1];
      LastDisplayedIsLast(table, before);
      assert forall j | 0 <= j < |rounds| :: before[..j] == rounds[..j];
    }
  }

  /** In every run a snapshot is of the chunk after the last round that displayed an ambiguous result. */
  lemma {:induction false} SnapshotIsOfLastDisplayed(table: Table, rounds: seq<string>)
    requires IsWellFormed(table)
    requires After(table, rounds).snapshot != NO_SNAPSHOT
    ensures
      var k := LastDisplayed(table, rounds);
      var last := After(table, rounds[..k]);
      && 0 < k && last.displayAmbiguous
      && After(table, rounds).snapshot == Snapshot(last.raw, last.conversion, last.ambiguous, last.attributes)
  {
    hide OneRound, IsUsable, IsWellFormed;
    assert rounds[..|rounds|] == rounds;
    if rounds != [] && !After(table, rounds).displayAmbiguous {
      var n := |rounds| - 1;
      RoundKeepsSnapshot(table, After(table, rounds[..n]), rounds[n]);
      SnapshotIsOfLastDisplayed(table, rounds[..n]);
      assert rounds[..n][..LastDisplayed(table, rounds[..n])] == rounds[..LastDisplayed(table, rounds)];
    }
  }

  lemma {:induction false} DisplayedIsNotEmpty(table: Table, rounds: seq<string>)
    requires IsWellFormed(table) && HasResultsToDisplay(table)
    ensures After(table, rounds).displayAmbiguous ==> After(table, rounds).ambiguous != ""
  {
    hide OneRound, IsUsable, IsWellFormed, HasResultsToDisplay;
    if rounds != [] {
      var n := |rounds| - 1;
      DisplayedIsNotEmpty(table, rounds[..n]);
      RoundKeepsResult(table, After(table, rounds[..n]), rounds[n]);
    }
  }

  /** A round that falls back: no rule was reached, nothing new used, and there is a snapshot of a shorter input. */
  predicate FallsBack(table: Table, c: Chunk, input: string) {
    var lookup := LookUpPrefix(table, c.pending + input);
    lookup.entry.None? && lookup.length <= |c.pending| && c.HasFallback()
  }

  /**
   * In every run, falling back fixes the ambiguous result that was displayed last, and hands back what was typed
   * since. That is the text that was shown then, exactly unless an empty result stood for a pending string.
   */
  lemma FallingBackFixesWhatWasShown(table: Table, rounds: seq<string>, input: string)
    requires IsWellFormed(table)
    requires FallsBack(table, After(table, rounds), input)
    ensures
      var k := LastDisplayed(table, rounds);
      var last := After(table, rounds[..k]);
      var r := OneRound(table, After(table, rounds), input);
      && 0 < k && last.displayAmbiguous && last.raw < After(table, rounds).raw
      && r.chunk == Chunk(last.raw, last.conversion + last.ambiguous, "", "", false, NO_SNAPSHOT, last.attributes)
      && (r.chunk.Display() == last.Display() <==> last.ambiguous != "" || last.pending == "")
      && (HasResultsToDisplay(table) ==> r.chunk.Display() == last.Display())
      && last.raw + r.rest == After(table, rounds).raw + input
      && !r.loop
  {
    hide LookUpPrefix, TrimLeadingSpecialKey, IsUsable, IsWellFormed, HasResultsToDisplay, After, LastDisplayed;
    var c := After(table, rounds);
    SnapshotIsOfLastDisplayed(table, rounds);
    var last := After(table, rounds[..LastDisplayed(table, rounds)]);
    var typed := c.raw[|last.raw|..];
    assert c.raw == last.raw + typed;
    assert last.raw + (typed + input) == last.raw + typed + input;
    var r := OneRound(table, c, input);
    assert r.chunk.Display() == last.conversion + last.ambiguous;
    if last.ambiguous == "" {
      assert |last.Display()| == |last.conversion| + |last.pending|;
      assert last.pending == "" ==> last.Display() == last.conversion;
    }
    if HasResultsToDisplay(table) {
      DisplayedIsNotEmpty(table, rounds[..LastDisplayed(table, rounds)]);
    }
  }

  /** What the lookup of a round adds to the text that is converted. */
  ghost function Piece(table: Table, c: Chunk, input: string): string {
    var key := c.pending + input;
    var lookup := LookUpPrefix(table, key);
    if lookup.entry.Some? && (lookup.fixed || lookup.length < |key|) then
      lookup.entry.value.result
    else if lookup.entry.None? && key != "" && lookup.length == 0 && c.pending == ""
            && TrimLeadingSpecialKey(input) == input then
      input[..1]
    else
      ""
  }

  /** The pieces of a run together; a round that falls back goes back to the last result that was displayed. */
  ghost function Pieces(table: Table, rounds: seq<string>): string
    requires IsWellFormed(table)
    decreases |rounds|
  {
    if rounds == [] then ""
    else
      var n := |rounds| - 1;
      var before := After(table, rounds[..n]);
      if FallsBack(table, before, rounds[n]) then
        var k := LastDisplayed(table, rounds[..n]);
        Pieces(table, rounds[..k]) + After(table, rounds[..k]).ambiguous
      else
        Pieces(table, rounds[..n]) + Piece(table, before, rounds[n])
  }

  /** In every run the converted text is that of the results that the lookups found, in order. */
  lemma {:induction false} ConversionIsOfResults(table: Table, rounds: seq<string>)
    requires IsWellFormed(table)
    ensures After(table, rounds).conversion == Pieces(table, rounds)
    decreases |rounds|
  {
    hide LookUpPrefix, TrimLeadingSpecialKey, IsWellFormed, IsUsable, FallsBack, LastDisplayed;
    if rounds != [] {
      var n := |rounds| - 1;
      var before, input := After(table, rounds[..n]), rounds[n];
      RoundOfLast(table, rounds);
      if FallsBack(table, before, input) {
        var k := LastDisplayed(table, rounds[..n]);
        FallingBackFixesWhatWasShown(table, rounds[..n], input);
        assert rounds[..n][..k] == rounds[..k];
        ConversionIsOfResults(table, rounds[..k]);
      } else {
        ConversionIsOfResults(table, rounds[..n]);
        RoundAddsPiece(table, before, input);
      }
    }
  }

  lemma RoundOfLast(table: Table, rounds: seq<string>)
    requires IsWellFormed(table) && rounds != []
    ensures
      var n := |rounds| - 1;
      After(table, rounds) == OneRound(table, After(table, rounds[..n]), rounds[n]).chunk
  {
    hide OneRound, IsUsable, IsWellFormed;
  }

  lemma RoundAddsPiece(table: Table, c: Chunk, input: string)
    requires IsUsable(table, c.pending) && !FallsBack(table, c, input)
    ensures OneRound(table, c, input).chunk.conversion == c.conversion + Piece(table, c, input)
  {
    hide LookUpPrefix, TrimLeadingSpecialKey, OneRound, IsUsable;
    var lookup := LookUpPrefix(table, c.pending + input);
    if lookup.entry.Some? {
      RoundWithRule(table, c, input, lookup.entry.value);
    } else {
      RoundWithoutRule(table, c, input);
    }
    assert c.conversion + "" == c.conversion;
  }

  /** The inputs of all rounds of adding an input. */
  ghost function RoundsOf(table: Table, rank: string -> nat, c: Chunk, input: string): seq<string>
    requires IsWellFormed(table) && IsWellFounded(table, rank) && IsUsable(table, c.pending)
    decreases |input|, rank(Normalized(table, c.pending))
  {
    RoundKeepsUsable(table, c, input);
    RoundGetsSmaller(table, rank, c, input);
    var r := OneRound(table, c, input);
    [input] + if r.loop then RoundsOf(table, rank, r.chunk, r.rest) else []
  }

  /** Adding an input is a run of its rounds. */
  lemma {:induction false} AddingIsARun(table: Table, rank: string -> nat, rounds: seq<string>, input: string)
    requires IsWellFormed(table) && IsWellFounded(table, rank)
    ensures
      var c := After(table, rounds);
      After(table, rounds + RoundsOf(table, rank, c, input)) == AllRounds(table, rank, c, input).0
    decreases |input|, rank(Normalized(table, After(table, rounds).pending))
  {
    hide OneRound, IsUsable, IsWellFormed, IsWellFounded, After, AllRounds, RoundsOf;
    var c := After(table, rounds);
    RoundKeepsUsable(table, c, input);
    RoundGetsSmaller(table, rank, c, input);
    AfterOneMore(table, rounds, input);
    FirstRound(table, rank, c, input);
    var r := OneRound(table, c, input);
    if r.loop {
      AddingIsARun(table, rank, rounds + [input], r.rest);
      var later := RoundsOf(table, rank, r.chunk, r.rest);
      assert rounds + [input] + later == rounds + ([input] + later);
    } else {
      assert [input] + [] == [input];
    }
  }

  /** The rounds of adding texts one after the other to an empty chunk. */
  ghost function RoundsOfAll(table: Table, rank: string -> nat, texts: seq<string>): seq<string>
    requires IsWellFormed(table) && IsWellFounded(table, rank)
  {
    if texts == [] then []
    else
      var n := |texts| - 1;
      var before := RoundsOfAll(table, rank, texts[..n]);
      before + RoundsOf(table, rank, After(table, before), texts[n])
  }

  /** Adding texts one after the other is a run. */
  lemma AddingInTurnIsARun(table: Table, rank: string -> nat, texts: seq<string>, text: string)
    requires IsWellFormed(table) && IsWellFounded(table, rank)
    ensures
      var c := After(table, RoundsOfAll(table, rank, texts));
      After(table, RoundsOfAll(table, rank, texts + [text])) == AllRounds(table, rank, c, text).0
  {
    hide OneRound, IsUsable, IsWellFormed, IsWellFounded, After, AllRounds, RoundsOf;
    assert (texts + [text])[..|texts|] == texts;
    AddingIsARun(table, rank, RoundsOfAll(table, rank, texts), text);
  }

  // Progress.

  /** A new chunk uses some of the input, so that filling new chunks with what is left comes to an end. */
  lemma NewChunkUsesInput(table: Table, rank: string -> nat, input: string)
    requires IsWellFormed(table) && IsWellFounded(table, rank)
    requires "" !in table.entries && input != ""
    ensures |AllRounds(table, rank, EMPTY, input).1| < |input|
  {
    hide TrimLeadingSpecialKey, WalkFrom, Normalized, IsNode, AllRounds;
    RoundKeepsUsable(table, EMPTY, input);
    RoundGetsSmaller(table, rank, EMPTY, input);
    UsableLookup(table, "", input);
    var key := "" + input;
    assert Normalized(table, key)[..0] == "";
    var r := OneRound(table, EMPTY, input);
    assert |r.rest| < |input|;
    FirstRound(table, rank, EMPTY, input);
    if r.loop {
      RestGetsNoLonger(table, rank, r.chunk, r.rest);
    }
  }

  lemma FirstRound(table: Table, rank: string -> nat, c: Chunk, input: string)
    requires IsWellFormed(table) && IsWellFounded(table, rank) && IsUsable(table, c.pending)
    ensures
      var r := OneRound(table, c, input);
      IsUsable(table, r.chunk.pending) &&
      AllRounds(table, rank, c, input) == if r.loop then AllRounds(table, rank, r.chunk, r.rest) else (r.chunk, r.rest)
    ensures
      var r := OneRound(table, c, input);
      RoundsOf(table, rank, c, input) == [input] + if r.loop then RoundsOf(table, rank, r.chunk, r.rest) else []
  {
    hide OneRound, IsUsable, IsWellFormed, IsWellFounded;
    RoundKeepsUsable(table, c, input);
  }

  lemma {:induction false} RestGetsNoLonger(table: Table, rank: string -> nat, c: Chunk, input: string)
    requires IsWellFormed(table) && IsWellFounded(table, rank) && IsUsable(table, c.pending)
    requires c.snapshot == NO_SNAPSHOT
    ensures |AllRounds(table, rank, c, input).1| <= |input|
    decreases |input|, rank(Normalized(table, c.pending))
  {
    hide OneRound, IsUsable, IsWellFormed, IsWellFounded, AllRounds;
    RoundKeepsUsable(table, c, input);
    RoundGetsSmaller(table, rank, c, input);
    FirstRound(table, rank, c, input);
    RoundWithoutSnapshot(table, c, input);
    var r := OneRound(table, c, input);
    if r.loop {
      RestGetsNoLonger(table, rank, r.chunk, r.rest);
    }
  }

  lemma RoundWithoutSnapshot(table: Table, c: Chunk, input: string)
    requires IsUsable(table, c.pending) && c.snapshot == NO_SNAPSHOT
    ensures
      var r := OneRound(table, c, input);
      |r.rest| <= |input| && (r.loop ==> r.chunk.snapshot == NO_SNAPSHOT)
  {
    hide LookUpPrefix, TrimLeadingSpecialKey;
    UsableLookup(table, c.pending, input);
  }

  /** No rule has this character, and it is nothing special. */
  ghost predicate IsUnused(table: Table, c: char) {
    && HasNoSpecialKeys([c])
    && forall key | key in table.entries :: Normalized(table, [c])[0] !in key
  }

  lemma {:induction false} WalkStopsAt(table: Table, key: string, n: nat, k: nat)
    requires n <= k < |key| && forall rule | rule in table.entries :: key[k] !in rule
    ensures WalkFrom(table, key, n) <= k
    decreases k - n
  {
    if n < k {
      WalkStopsAt(table, key, n + 1, k);
    } else {
      assert key[..k + 1][k] == key[k];
    }
  }

  /** A character that no rule has is not walked past. */
  lemma UnusedIsNotReached(table: Table, pending: string, c: char)
    requires IsUnused(table, c)
    ensures LookUpPrefix(table, pending + [c]).length <= |pending|
    ensures "" in table.entries && pending == "" ==> LookUpPrefix(table, pending + [c]).entry.Some?
  {
    hide WalkFrom, Normalized, IsNode;
    NormalizedPrefix(table, pending, [c]);
    var key := Normalized(table, pending + [c]);
    assert key[|pending|] == Normalized(table, [c])[0];
    WalkStopsAt(table, key, 0, |pending|);
    assert key[..0] == "";
  }

  /** With a rule whose input is empty, such a character is never used. */
  lemma {:induction false} EmptyRuleUsesNothing(table: Table, rank: string -> nat, c: Chunk, unused: char)
    requires IsWellFormed(table) && IsWellFounded(table, rank) && IsUsable(table, c.pending)
    requires "" in table.entries && IsUnused(table, unused) && c.snapshot == NO_SNAPSHOT
    ensures AllRounds(table, rank, c, [unused]).1 == [unused]
    decreases rank(Normalized(table, c.pending))
  {
    hide LookUpPrefix, IsUnused, IsUsable, IsWellFormed, IsWellFounded, AllRounds, RoundsOf;
    RoundKeepsUsable(table, c, [unused]);
    RoundGetsSmaller(table, rank, c, [unused]);
    FirstRound(table, rank, c, [unused]);
    RoundWithUnused(table, c, unused);
    var r := OneRound(table, c, [unused]);
    if r.loop {
      EmptyRuleUsesNothing(table, rank, r.chunk, unused);
    }
  }

  lemma RoundWithUnused(table: Table, c: Chunk, unused: char)
    requires IsUsable(table, c.pending)
    requires "" in table.entries && IsUnused(table, unused) && c.snapshot == NO_SNAPSHOT
    ensures
      var r := OneRound(table, c, [unused]);
      r.rest == [unused] && r.chunk.snapshot == NO_SNAPSHOT
  {
    hide LookUpPrefix, TrimLeadingSpecialKey;
    UsableLookup(table, c.pending, [unused]);
    UnusedIsNotReached(table, c.pending, unused);
    NothingToTrim([unused]);
  }

  /** New chunks use up every input exactly when no rule has an empty input. */
  lemma NewChunksUseAllInputs(table: Table, rank: string -> nat, unused: char)
    requires IsWellFormed(table) && IsWellFounded(table, rank) && IsUnused(table, unused)
    ensures IsUsable(table, "")
    ensures "" !in table.entries <==>
            forall input | input != "" :: |AllRounds(table, rank, EMPTY, input).1| < |input|
  {
    hide AllRounds, IsUnused, IsWellFormed, IsWellFounded, IsUsable;
    NothingIsUsable(table);
    if "" in table.entries {
      EmptyRuleUsesNothing(table, rank, EMPTY, unused);
    } else {
      forall input | input != ""
        ensures |AllRounds(table, rank, EMPTY, input).1| < |input|
      {
        NewChunkUsesInput(table, rank, input);
      }
    }
  }

  // The chunk itself.

  class CharChunk {
    const table: Table
    var raw: string
    var conversion: string
    var pending: string
    var ambiguous: string
    var displayAmbiguousAsResult: bool
    var displayAmbiguousResultRaw: string
    var displayAmbiguousResultConversion: string
    var displayAmbiguousResultAmbiguous: string
    var displayAmbiguousResultAttributes: set<Attribute>
    var attributes: set<Attribute>
    /** The inputs of all rounds so far. */
    ghost var rounds: seq<string>

    ghost function State(): Chunk
      reads this
    {
      Chunk(raw, conversion, pending, ambiguous, displayAmbiguousAsResult,
            Snapshot(displayAmbiguousResultRaw, displayAmbiguousResultConversion, displayAmbiguousResultAmbiguous,
                     displayAmbiguousResultAttributes),
            attributes)
    }

    /** What every call keeps: the chunk is the one after its rounds. */
    ghost predicate Valid()
      reads this
    {
      && IsWellFormed(table)
      && State() == After(table, rounds)
    }

    constructor (table: Table)
      requires IsWellFormed(table)
      ensures Valid() && State() == EMPTY && this.table == table && rounds == []
    {
      this.table := table;
      raw, conversion, pending, ambiguous := "", "", "", "";
      displayAmbiguousAsResult := false;
      displayAmbiguousResultRaw, displayAmbiguousResultConversion, displayAmbiguousResultAmbiguous := "", "", "";
      displayAmbiguousResultAttributes := {};
      attributes := {};
      rounds := [];
    }

    method GetDisplayConverted() returns (text: string)
      ensures text == State().Display()
    {
      if displayAmbiguousAsResult && ambiguous != "" {
        return conversion + ambiguous;
      }
      return conversion + pending;
    }

    method ClearDisplayAmbiguousResultFallback()
      modifies `displayAmbiguousResultRaw, `displayAmbiguousResultConversion, `displayAmbiguousResultAmbiguous,
        `displayAmbiguousResultAttributes
      ensures State() == old(State()).(snapshot := NO_SNAPSHOT)
    {
      displayAmbiguousResultRaw, displayAmbiguousResultConversion, displayAmbiguousResultAmbiguous := "", "", "";
      displayAmbiguousResultAttributes := {};
    }

    method SaveDisplayAmbiguousResultFallback()
      modifies `displayAmbiguousResultRaw, `displayAmbiguousResultConversion, `displayAmbiguousResultAmbiguous,
        `displayAmbiguousResultAttributes
      ensures State() == old(State()).(snapshot := Snapshot(raw, conversion, ambiguous, attributes))
    {
      displayAmbiguousResultRaw := raw;
      displayAmbiguousResultConversion := conversion;
      displayAmbiguousResultAmbiguous := ambiguous;
      displayAmbiguousResultAttributes := attributes;
    }

    method HasDisplayAmbiguousResultFallback() returns (has: bool)
      ensures has == State().HasFallback()
    {
      return displayAmbiguousResultRaw != "" && |raw| > |displayAmbiguousResultRaw|
             && displayAmbiguousResultRaw <= raw;
    }

    method RestoreDisplayAmbiguousResultFallback(input: string) returns (replayInput: string)
      requires |displayAmbiguousResultRaw| <= |raw|
      modifies `raw, `conversion, `pending, `ambiguous, `displayAmbiguousAsResult, `displayAmbiguousResultRaw,
        `displayAmbiguousResultConversion, `displayAmbiguousResultAmbiguous, `displayAmbiguousResultAttributes,
        `attributes
      ensures State() == old(State()).Restored()
      ensures replayInput == old(raw)[|old(displayAmbiguousResultRaw)|..] + input
    {
      replayInput := raw[|displayAmbiguousResultRaw|..];
      replayInput := replayInput + input;
      raw := displayAmbiguousResultRaw;
      conversion := displayAmbiguousResultConversion + displayAmbiguousResultAmbiguous;
      pending := "";
      ambiguous := "";
      displayAmbiguousAsResult := false;
      attributes := displayAmbiguousResultAttributes;
      ClearDisplayAmbiguousResultFallback();
    }

    method AddInputInternal(inputText: string) returns (loop: bool, rest: string)
      requires IsUsable(table, pending)
      modifies `raw, `conversion, `pending, `ambiguous, `displayAmbiguousAsResult, `displayAmbiguousResultRaw,
        `displayAmbiguousResultConversion, `displayAmbiguousResultAmbiguous, `displayAmbiguousResultAttributes,
        `attributes
      ensures Round(State(), loop, rest) == OneRound(table, old(State()), inputText)
    {
      hide LookUpPrefix, TrimLeadingSpecialKey;
      var input := inputText;
      UsableLookup(table, pending, input);
      var key := pending + input;
      var lookup := LookUpPrefix(table, key);
      var usedKeyLength := lookup.length;
      if lookup.entry.None? {
        loop, rest := AddUnmatched(input, usedKeyLength);
        return;
      }
      loop, rest := AddMatched(input, key, lookup.entry.value, usedKeyLength, lookup.fixed);
    }

    method AddUnmatched(inputText: string, usedKeyLength: nat) returns (loop: bool, rest: string)
      requires usedKeyLength <= |pending| + |inputText|
      modifies `raw, `conversion, `pending, `ambiguous, `displayAmbiguousAsResult, `displayAmbiguousResultRaw,
        `displayAmbiguousResultConversion, `displayAmbiguousResultAmbiguous, `displayAmbiguousResultAttributes,
        `attributes
      ensures Round(State(), loop, rest) == Unmatched(table, old(State()), inputText, usedKeyLength)
    {
      hide LookUpPrefix, TrimLeadingSpecialKey;
      var input := inputText;
      if usedKeyLength <= |pending| {
        var fallback := HasDisplayAmbiguousResultFallback();
        if fallback {
          rest := RestoreDisplayAmbiguousResultFallback(input);
          return false, rest;
        }
      }
      if usedKeyLength == 0 {
        var trimmed := TrimLeadingSpecialKey(input);
        if |trimmed| < |input| {
          return true, trimmed;
        }
        if pending == "" && input != "" {
          raw := raw + input[..1];
          conversion := conversion + input[..1];
          input := input[1..];
        }
        return false, input;
      }
      if usedKeyLength == |pending| {
        var next := LookUpPrefix(table, input);
        var trimmed := TrimLeadingSpecialKey(input);
        if next.entry.None? && next.length == 0 && |trimmed| < |input| {
          return true, trimmed;
        }
        return false, input;
      }
      if usedKeyLength < |pending| {
        return false, input;
      }
      var usedInputLength := usedKeyLength - |pending|;
      var usedInputChars := input[..usedInputLength];
      raw := raw + usedInputChars;
      pending := pending + usedInputChars;
      ambiguous := "";
      displayAmbiguousAsResult := false;
      return false, input[usedInputLength..];
    }

    method ApplyEntry(inputText: string, key: string, entry: Entry, usedKeyLength: nat, fixed: bool)
      returns (rest: string)
      requires key == pending + inputText && |pending| <= usedKeyLength <= |key|
      modifies `raw, `conversion, `pending, `ambiguous, `displayAmbiguousAsResult, `displayAmbiguousResultRaw,
        `displayAmbiguousResultConversion, `displayAmbiguousResultAmbiguous, `displayAmbiguousResultAttributes,
        `attributes
      ensures rest == inputText[usedKeyLength - |old(pending)|..]
      ensures State() == WithEntry(old(State()), entry, inputText[..usedKeyLength - |old(pending)|], fixed || rest != "")
    {
      var isFirstEntry := conversion == "" && (raw == "" || pending == "" || raw == pending);
      if isFirstEntry {
        attributes := entry.attributes;
      }
      var usedInputLength := usedKeyLength - |pending|;
      raw := raw + inputText[..usedInputLength];
      rest := inputText[usedInputLength..];
      if fixed || |key| > usedKeyLength {
        conversion := conversion + entry.result;
        pending := entry.pending;
        ambiguous := "";
        displayAmbiguousAsResult := false;
        ClearDisplayAmbiguousResultFallback();
      } else {
        assert inputText[..usedInputLength] == inputText;
        pending := key;
        ambiguous := entry.result;
        displayAmbiguousAsResult := DisplayAmbiguousResult in entry.attributes;
        if displayAmbiguousAsResult {
          SaveDisplayAmbiguousResultFallback();
        } else {
          ClearDisplayAmbiguousResultFallback();
        }
      }
    }

    method AddMatched(inputText: string, key: string, entry: Entry, usedKeyLength: nat, fixed: bool)
      returns (loop: bool, rest: string)
      requires key == pending + inputText && |pending| <= usedKeyLength <= |key|
      modifies `raw, `conversion, `pending, `ambiguous, `displayAmbiguousAsResult, `displayAmbiguousResultRaw,
        `displayAmbiguousResultConversion, `displayAmbiguousResultAmbiguous, `displayAmbiguousResultAttributes,
        `attributes
      ensures Round(State(), loop, rest) == Matched(old(State()), inputText, entry, usedKeyLength, fixed)
    {
      hide WithEntry;
      var input := ApplyEntry(inputText, key, entry, usedKeyLength, fixed);
      if fixed && input == "" && conversion == "" && pending == "" && NoTransliteration in attributes {
        raw := "";
        return false, input;
      }
      if input == "" || pending == "" {
        return false, input;
      }
      return true, input;
    }

    /** Adds an input round by round. */
    method AddInput(input: string, ghost rank: string -> nat) returns (rest: string)
      requires Valid() && IsWellFounded(table, rank)
      modifies this
      ensures Valid()
      ensures IsUsable(table, old(pending))
      ensures (State(), rest) == AllRounds(table, rank, old(State()), input)
      ensures rounds == old(rounds) + RoundsOf(table, rank, old(State()), input)
    {
      hide OneRound, IsUsable, IsWellFormed, IsWellFounded, IsPresent, After, AllRounds, RoundsOf;
      assert IsUsable(table, pending) by { assert State().pending == pending; }
      var loop := true;
      rest := input;
      while loop
        invariant Valid() && IsUsable(table, State().pending)
        invariant loop ==> AllRounds(table, rank, State(), rest) == AllRounds(table, rank, old(State()), input)
        invariant !loop ==> (State(), rest) == AllRounds(table, rank, old(State()), input)
        invariant
          rounds + (if loop then RoundsOf(table, rank, State(), rest) else [])
          == old(rounds) + RoundsOf(table, rank, old(State()), input)
        decreases if loop then 1 else 0, |rest|, rank(Normalized(table, pending))
      {
        ghost var before, text := State(), rest;
        RoundKeepsUsable(table, before, text);
        RoundGetsSmaller(table, rank, before, text);
        FirstRound(table, rank, before, text);
        AfterOneMore(table, rounds, text);
        loop, rest := AddInputInternal(rest);
        ghost var later := if loop then RoundsOf(table, rank, State(), rest) else [];
        assert rounds + ([text] + later) == rounds + [text] + later;
        rounds := rounds + [text];
      }
    }
  }
}
