/**
 * Conversion rules and how they are looked up: src/composer/table.cc, lines 505 to 528, src/base/container/trie.h,
 * lines 75 to 109, and src/composer/special_key.cc. Strings are sequences of code points.
 */
module CompositionTable {
  import opened Wrappers

  datatype Attribute = NewChunk | NoTransliteration | DirectInput | EndChunk | DisplayAmbiguousResult

  datatype Entry = Entry(result: string, pending: string, attributes: set<Attribute>)

  /** The rules by their inputs. */
  datatype Table = Table(entries: map<string, Entry>, caseSensitive: bool)

  function Lower(c: char): char {
    if 'A' <= c <= 'Z' || 'Ａ' <= c <= 'Ｚ' then (c as int + 0x20) as char else c
  }

  function LowerString(s: string): (lower: string)
    ensures |lower| == |s|
    ensures forall i | 0 <= i < |s| :: lower[i] == Lower(s[i])
  {
    if s == "" then "" else [Lower(s[0])] + LowerString(s[1..])
  }

  function Normalized(table: Table, key: string): (normalized: string)
    ensures |normalized| == |key|
  {
    if table.caseSensitive then key else LowerString(key)
  }

  /** The string leads to some rule in the trie. */
  predicate IsNode(table: Table, prefix: string) {
    prefix == "" || exists key | key in table.entries :: prefix <= key
  }

  /** How far the trie can be walked along a key. */
  function WalkFrom(table: Table, key: string, n: nat): (length: nat)
    requires n <= |key|
    ensures n <= length <= |key|
    decreases |key| - n
  {
    if n < |key| && IsNode(table, key[..n + 1]) then WalkFrom(table, key, n + 1) else n
  }

  datatype Lookup = Lookup(entry: Option<Entry>, length: nat, fixed: bool)

  /** The rule where the walk along the key ends, if there is one, and whether no longer rule goes on from there. */
  function LookUpPrefix(table: Table, key: string): (lookup: Lookup)
    ensures lookup.length <= |key|
  {
    var normalized := Normalized(table, key);
    var length := WalkFrom(table, normalized, 0);
    var prefix := normalized[..length];
    if prefix in table.entries then
      Lookup(Some(table.entries[prefix]), length, !exists longer | longer in table.entries :: prefix < longer)
    else
      Lookup(None, length, true)
  }

  lemma NodesAreClosed(table: Table, prefix: string, n: nat)
    requires IsNode(table, prefix) && n <= |prefix|
    ensures IsNode(table, prefix[..n])
  {}

  lemma NormalizedPrefix(table: Table, a: string, b: string)
    ensures Normalized(table, a + b)[..|a|] == Normalized(table, a)
    ensures Normalized(table, a + b) == Normalized(table, a) + Normalized(table, b)
  {
    assert forall i | 0 <= i < |a| :: (a + b)[i] == a[i];
    assert forall i | 0 <= i < |b| :: (a + b)[|a| + i] == b[i];
  }

  /** The walk along a longer key goes the same way as long as it can. */
  lemma {:induction false} WalkAlongLonger(table: Table, key: string, more: string, n: nat)
    requires n <= |key|
    ensures WalkFrom(table, key + more, n) >= WalkFrom(table, key, n)
    ensures WalkFrom(table, key, n) < |key| ==> WalkFrom(table, key + more, n) == WalkFrom(table, key, n)
    decreases |key| - n
  {
    if n < |key| {
      assert (key + more)[..n + 1] == key[..n + 1];
      if IsNode(table, key[..n + 1]) {
        WalkAlongLonger(table, key, more, n + 1);
      }
    }
  }

  lemma {:induction false} WalkAlongNode(table: Table, key: string, n: nat, end: nat)
    requires n <= end <= |key| && IsNode(table, key[..end])
    ensures WalkFrom(table, key, n) >= end
    decreases end - n
  {
    if n < end {
      assert key[..end][..n + 1] == key[..n + 1];
      NodesAreClosed(table, key[..end], n + 1);
      WalkAlongNode(table, key, n + 1, end);
    }
  }

  lemma {:induction false} WalkEndsAtNode(table: Table, key: string, n: nat)
    requires n <= |key| && IsNode(table, key[..n])
    ensures IsNode(table, key[..WalkFrom(table, key, n)])
    decreases |key| - n
  {
    if n < |key| && IsNode(table, key[..n + 1]) {
      WalkEndsAtNode(table, key, n + 1);
    }
  }

  /**
   * The lookup uses as much of the key as begins some rule, and no more; it finds the rule that is just that, if there
   * is one, and tells whether a longer rule begins with it.
   */
  lemma LookUpIsLongest(table: Table, key: string)
    ensures
      var lookup := LookUpPrefix(table, key);
      var used := Normalized(table, key)[..lookup.length];
      && (forall m | 0 < m <= |key| ::
            m <= lookup.length <==> exists rule | rule in table.entries :: Normalized(table, key)[..m] <= rule)
      && lookup.entry == (if used in table.entries then Some(table.entries[used]) else None)
      && (lookup.entry.Some? ==> (lookup.fixed <==> forall rule | rule in table.entries :: !(used < rule)))
  {
    hide WalkFrom, Normalized;
    var normalized := Normalized(table, key);
    var length := WalkFrom(table, normalized, 0);
    assert normalized[..0] == "";
    WalkEndsAtNode(table, normalized, 0);
    forall m | 0 < m <= |key|
      ensures m <= length <==> IsNode(table, normalized[..m])
    {
      if m <= length {
        assert normalized[..length][..m] == normalized[..m];
        NodesAreClosed(table, normalized[..length], m);
      } else if IsNode(table, normalized[..m]) {
        WalkAlongNode(table, normalized, 0, m);
        assert false;
      }
    }
  }

  /**
   * A pending string on which no lookup can fall short: the walk gets to its end, or stops where there is no rule. The
   * program subtracts the length of the pending string from the length used, and relies on this.
   */
  predicate IsUsable(table: Table, pending: string) {
    var lookup := LookUpPrefix(table, pending);
    lookup.entry.Some? ==> lookup.length == |pending|
  }

  /** A pending string is usable exactly when no continuation finds a rule that uses less than the pending string. */
  lemma UsableMeansNeverShort(table: Table, pending: string)
    ensures IsUsable(table, pending) <==>
            forall input :: LookUpPrefix(table, pending + input).entry.Some? ==>
                              LookUpPrefix(table, pending + input).length >= |pending|
  {
    hide WalkFrom;
    forall input {
      UsableLookup(table, pending, input);
    }
    assert pending + "" == pending;
    assert LookUpPrefix(table, pending + "") == LookUpPrefix(table, pending);
  }

  lemma UsableLookup(table: Table, pending: string, input: string)
    ensures
      var short, long := LookUpPrefix(table, pending), LookUpPrefix(table, pending + input);
      && (short.length < |pending| ==> long.entry == short.entry && long.length == short.length)
      && (short.length == |pending| ==> long.length >= |pending|)
  {
    hide WalkFrom, Normalized;
    NormalizedPrefix(table, pending, input);
    var n := Normalized(table, pending);
    WalkAlongLonger(table, n, Normalized(table, input), 0);
    var length := WalkFrom(table, n, 0);
    assert length <= |pending| && (n + Normalized(table, input))[..length] == n[..length];
  }

  /** A string that was walked to its end is usable. */
  lemma WalkedIsUsable(table: Table, key: string)
    ensures IsUsable(table, key[..LookUpPrefix(table, key).length])
  {
    hide WalkFrom, Normalized;
    var length := LookUpPrefix(table, key).length;
    var front := key[..length];
    assert key == front + key[length..];
    NormalizedPrefix(table, front, key[length..]);
    assert Normalized(table, key)[..0] == "";
    WalkEndsAtNode(table, Normalized(table, key), 0);
    assert Normalized(table, front)[..length] == Normalized(table, front);
    WalkAlongNode(table, Normalized(table, front), 0, length);
  }

  /** Every rule leaves a usable pending string. */
  ghost predicate IsWellFormed(table: Table) {
    forall key | key in table.entries :: IsUsable(table, table.entries[key].pending)
  }

  /** Following rules from pending string to pending string comes to an end: the rank goes down. */
  ghost predicate IsWellFounded(table: Table, rank: string -> nat) {
    forall key | key in table.entries :: rank(Normalized(table, table.entries[key].pending)) < rank(key)
  }

  // Special keys.

  predicate IsSpecialKey(c: char) {
    0xF000 <= c as int <= 0xF8FF
  }

  const SPECIAL_KEY_OPEN: char := '\U{000F}'
  const SPECIAL_KEY_CLOSE: char := '\U{000E}'

  /** Where a character is from an index on, or the end. */
  function Find(s: string, c: char, from: nat): (k: nat)
    requires from <= |s|
    ensures from <= k <= |s|
    decreases |s| - from
  {
    if from == |s| || s[from] == c then from else Find(s, c, from + 1)
  }

  function TrimLeadingSpecialKey(input: string): (trimmed: string)
    ensures |trimmed| <= |input|
  {
    if input == "" then
      input
    else if IsSpecialKey(input[0]) then
      input[1..]
    else if input[0] != SPECIAL_KEY_OPEN || Find(input, SPECIAL_KEY_CLOSE, 1) == |input| then
      input
    else
      input[Find(input, SPECIAL_KEY_CLOSE, 1) + 1..]
  }

  lemma {:induction false} FindIsFirst(s: string, c: char, from: nat)
    requires from <= |s|
    ensures forall i | from <= i < Find(s, c, from) :: s[i] != c
    ensures Find(s, c, from) < |s| ==> s[Find(s, c, from)] == c
    decreases |s| - from
  {
    if from < |s| && s[from] != c {
      FindIsFirst(s, c, from + 1);
    }
  }

  /** A special key in front goes, in one character or in brackets; anything else stays. */
  lemma SpecialKeysGo(c: char, inside: string, rest: string)
    requires SPECIAL_KEY_CLOSE !in inside
    ensures IsSpecialKey(c) ==> TrimLeadingSpecialKey([c] + rest) == rest
    ensures TrimLeadingSpecialKey([SPECIAL_KEY_OPEN] + inside + [SPECIAL_KEY_CLOSE] + rest) == rest
    ensures TrimLeadingSpecialKey([SPECIAL_KEY_OPEN] + inside) == [SPECIAL_KEY_OPEN] + inside
    ensures !IsSpecialKey(c) && c != SPECIAL_KEY_OPEN ==> TrimLeadingSpecialKey([c] + rest) == [c] + rest
    ensures TrimLeadingSpecialKey("") == ""
  {
    hide Find;
    var open := [SPECIAL_KEY_OPEN] + inside;
    var whole := open + [SPECIAL_KEY_CLOSE] + rest;
    FindIsFirst(whole, SPECIAL_KEY_CLOSE, 1);
    FindIsFirst(open, SPECIAL_KEY_CLOSE, 1);
    var k := Find(whole, SPECIAL_KEY_CLOSE, 1);
    assert whole[|open|] == SPECIAL_KEY_CLOSE;
    assert forall i | 1 <= i < |open| :: whole[i] == open[i] == inside[i - 1];
    assert k == |open|;
    assert whole[k + 1..] == rest;
    assert forall i | 1 <= i < |open| :: open[i] == inside[i - 1] && inside[i - 1] in inside;
  }

  predicate HasNoSpecialKeys(input: string) {
    forall i | 0 <= i < |input| :: !IsSpecialKey(input[i]) && input[i] != SPECIAL_KEY_OPEN
  }
}
