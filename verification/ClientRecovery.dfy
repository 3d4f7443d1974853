/** What the client's journal is for: it holds the state of the session. See src/client/client.cc, lines 246 to 276. */
module ClientRecovery {
  import opened Wrappers
  import opened Client

  /** One input at the server: the session's next state and the answer. */
  type Server<!S> = (S, Input) -> (S, Output)

  /**
   * A server whose sessions a journal can restore: it does not care for session ids, an input that it does not
   * consume changes nothing, and a key that yields a result returns the session to its first state.
   */
  ghost predicate IsRestorable<S(!new)>(server: Server<S>, initial: S) {
    && (forall s, input: Input, id :: server(s, input.(id := id)) == server(s, input))
    && (forall s, input :: !IsConsumed(server(s, input).1) ==> server(s, input).0 == s)
    && (forall s, input: Input | input.kind == SendKey ::
          IsConsumed(server(s, input).1) && server(s, input).1.hasResult ==> server(s, input).0 == initial)
  }

  predicate IsConsumed(output: Output) {
    output.consumed == Some(true)
  }

  /** A journal that is full may have missed inputs; it is not played. */
  lemma FullJournalIsNotPlayed(journal: seq<Input>)
    ensures Played(journal) == if |journal| < 512 then journal else []
  {}

  /** The journal takes exactly the consumed inputs, as long as there is room, and forgets all with a result of a key. */
  lemma JournalTakesConsumed(journal: seq<Input>, input: Input, output: Output)
    ensures output.consumed in {None, Some(false)} ==> Journal(journal, input, output) == journal
    ensures output.consumed == Some(true) ==>
              Journal(journal, input, output) ==
              if input.kind == SendKey && output.hasResult then []
              else if |journal| < 512 then journal + [input]
              else journal
  {}

  function StateAfter<S>(server: Server<S>, state: S, inputs: seq<Input>): S
    decreases |inputs|
  {
    if inputs == [] then state else StateAfter(server, server(state, inputs[0]).0, inputs[1..])
  }

  lemma {:induction false} StateAfterMore<S>(server: Server<S>, state: S, inputs: seq<Input>, input: Input)
    ensures StateAfter(server, state, inputs + [input]) == server(StateAfter(server, state, inputs), input).0
    decreases |inputs|
  {
    if inputs == [] {
      assert inputs + [input] == [input];
      assert [input][1..] == [];
    } else {
      assert (inputs + [input])[1..] == inputs[1..] + [input];
      StateAfterMore(server, server(state, inputs[0]).0, inputs[1..], input);
    }
  }

  /** The journal after the answered inputs of one session. */
  function JournalAfter<S>(server: Server<S>, state: S, journal: seq<Input>, inputs: seq<Input>): seq<Input>
    decreases |inputs|
  {
    if inputs == [] then
      journal
    else
      var (next, output) := server(state, inputs[0]);
      JournalAfter(server, next, Journal(journal, inputs[0], output), inputs[1..])
  }

  lemma JournalStep<S(!new)>(server: Server<S>, initial: S, state: S, journal: seq<Input>, input: Input)
    requires IsRestorable(server, initial)
    requires |journal| >= MAX_PLAYBACK_SIZE || StateAfter(server, initial, journal) == state
    ensures
      var (next, output) := server(state, input);
      var longer := Journal(journal, input, output);
      |longer| >= MAX_PLAYBACK_SIZE || StateAfter(server, initial, longer) == next
  {
    StateAfterMore(server, initial, journal, input);
  }

  /**
   * After every run of answered inputs, a journal that is not full restores the state of the session; it does so even
   * if it has been full before.
   */
  lemma {:induction false} JournalHoldsTheState<S(!new)>(
    server: Server<S>, initial: S, state: S, journal: seq<Input>, inputs: seq<Input>)
    requires IsRestorable(server, initial)
    requires |journal| >= MAX_PLAYBACK_SIZE || StateAfter(server, initial, journal) == state
    ensures
      var longer := JournalAfter(server, state, journal, inputs);
      |longer| >= MAX_PLAYBACK_SIZE ||
      StateAfter(server, initial, longer) == StateAfter(server, state, inputs)
    decreases |inputs|
  {
    hide Journal, IsRestorable;
    if inputs != [] {
      JournalStep(server, initial, state, journal, inputs[0]);
      var (next, output) := server(state, inputs[0]);
      JournalHoldsTheState(server, initial, next, Journal(journal, inputs[0], output), inputs[1..]);
    }
  }

  /** The inputs of messages. */
  function Inputs(events: Trace): seq<Input>
    requires forall event | event in events :: event.Sent?
  {
    if events == [] then [] else assert events[0] in events; [events[0].input] + Inputs(events[1..])
  }

  lemma {:induction false} ReplayedState<S(!new)>(
    server: Server<S>, initial: S, state: S, events: Trace, journal: seq<Input>, id: uint64)
    requires IsRestorable(server, initial)
    requires IsReplay(events, journal, id)
    ensures forall event | event in events :: event.Sent?
    ensures StateAfter(server, state, Inputs(events)) == StateAfter(server, state, journal)
    decreases |events|
  {
    if events != [] {
      assert IsReplay(events[1..], journal[1..], id);
      assert Inputs(events)[1..] == Inputs(events[1..]);
      assert server(state, events[0].input) == server(state, journal[0]);
      ReplayedState(server, initial, server(state, journal[0]).0, events[1..], journal[1..], id);
    }
  }

  /**
   * A replay of a journal that holds the state of the lost session, followed by the input, takes a new session to
   * where the lost one would have gone with that input, and gives the same answer.
   */
  lemma LostSessionIsRebuilt<S(!new)>(
    server: Server<S>, initial: S, lost: S, journal: seq<Input>, events: Trace, input: Input, id: uint64)
    requires IsRestorable(server, initial)
    requires StateAfter(server, initial, journal) == lost
    requires IsReplay(events, journal, id)
    ensures forall event | event in events :: event.Sent?
    ensures StateAfter(server, initial, Inputs(events)) == lost
    ensures server(StateAfter(server, initial, Inputs(events)), input.(id := id)) == server(lost, input)
    ensures StateAfter(server, initial, Inputs(events) + [input.(id := id)]) == server(lost, input).0
  {
    ReplayedState(server, initial, initial, events, journal, id);
    StateAfterMore(server, initial, Inputs(events), input.(id := id));
  }

  lemma {:induction false} InputsOfMore(events: Trace, last: Event)
    requires (forall event | event in events :: event.Sent?) && last.Sent?
    ensures forall event | event in events + [last] :: event.Sent?
    ensures Inputs(events + [last]) == Inputs(events) + [last.input]
    decreases |events|
  {
    if events == [] {
      assert events + [last] == [last];
      assert [last][1..] == [];
    } else {
      assert (events + [last])[1..] == events[1..] + [last];
      InputsOfMore(events[1..], last);
    }
  }

  /**
   * What a client's recovered session was sent after the request takes a server that was initial then to where the lost
   * session would have gone with the input, if the journal held the state of the lost session and was not full.
   */
  lemma RecoveredSessionGoesOn<S(!new)>(
    client: Client, server: Server<S>, initial: S, lost: S, journal: seq<Input>, input: Input, output: Output,
    told: bool)
    requires IsRestorable(server, initial)
    requires |journal| < MAX_PLAYBACK_SIZE && StateAfter(server, initial, journal) == lost
    requires client.Received(told, Played(journal), client.Addressed(input), output)
    ensures
      var k := |client.trace| - |journal| - 1;
      && 0 <= k
      && (forall event | event in client.trace[k..] :: event.Sent?)
      && StateAfter(server, initial, Inputs(client.trace[k..])) == server(lost, client.Addressed(input)).0
  {
    hide IsRestorable, StateAfter, Inputs, IsReplay;
    var n := |client.trace| - 1;
    var k := n - |journal|;
    var events := client.trace[k..n];
    var current := client.Addressed(input);
    assert current.(id := client.id) == current;
    LostSessionIsRebuilt(server, initial, lost, journal, events, current, client.id);
    InputsOfMore(events, client.trace[n]);
    assert client.trace[k..] == events + [client.trace[n]];
  }

  // A new session without a replay.

  /** The same input but for the session it is addressed to. */
  predicate IsSame(a: Input, b: Input) {
    a.(id := b.id) == b
  }

  /**
   * The journal is kept although the session is new, and the input is its first one: the journal then holds the state
   * of the new session if it was empty, if the input emptied it, or if nothing in it and nothing new counts.
   */
  predicate IsInStepWithNewSession(journal: seq<Input>, input: Input, output: Output) {
    || journal == []
    || (IsConsumed(output) && input.kind == SendKey && output.hasResult)
    || (!IsConsumed(output) && forall i | 0 <= i < |journal| :: IsSame(journal[i], input))
  }

  lemma {:induction false} NothingCounts<S(!new)>(server: Server<S>, initial: S, journal: seq<Input>, input: Input)
    requires IsRestorable(server, initial) && !IsConsumed(server(initial, input).1)
    requires forall i | 0 <= i < |journal| :: IsSame(journal[i], input)
    ensures StateAfter(server, initial, journal) == initial
    decreases |journal|
  {
    if journal != [] {
      assert server(initial, journal[0]) == server(initial, journal[0].(id := input.id));
      NothingCounts(server, initial, journal[1..], input);
    }
  }

  lemma InStepWithNewSession<S(!new)>(server: Server<S>, initial: S, journal: seq<Input>, input: Input)
    requires IsRestorable(server, initial)
    requires IsInStepWithNewSession(journal, input, server(initial, input).1)
    ensures
      var (next, output) := server(initial, input);
      StateAfter(server, initial, Journal(journal, input, output)) == next
  {
    var (next, output) := server(initial, input);
    if journal == [] {
      assert [input][1..] == [];
      assert [] + [input] == [input];
    } else if !IsConsumed(output) {
      NothingCounts(server, initial, journal, input);
    }
  }

  const CONSUMED := Output(0, true, Some(true), false)

  /** A server that counts every input; it gives the output for the input. */
  function CountingServer(input: Input, output: Output): Server<nat> {
    (count, i) => (count + 1, if IsSame(i, input) then output else CONSUMED)
  }

  /** A server that notices any input but the given one, for which it gives the output. */
  function NoticingServer(input: Input, output: Output): Server<nat> {
    (noticed, i) => if IsSame(i, input) then (noticed, output) else (1, CONSUMED)
  }

  lemma {:induction false} Counted(input: Input, output: Output, start: nat, inputs: seq<Input>)
    ensures StateAfter(CountingServer(input, output), start, inputs) == start + |inputs|
    decreases |inputs|
  {
    if inputs != [] {
      Counted(input, output, start + 1, inputs[1..]);
    }
  }

  lemma {:induction false} Noticed(input: Input, output: Output, start: nat, inputs: seq<Input>)
    requires start <= 1
    ensures StateAfter(NoticingServer(input, output), start, inputs) ==
            if start == 0 && forall i | 0 <= i < |inputs| :: IsSame(inputs[i], input) then 0 else 1
    decreases |inputs|
  {
    if inputs != [] {
      var rest := inputs[1..];
      Noticed(input, output, if IsSame(inputs[0], input) then start else 1, rest);
      assert forall i | 0 <= i < |rest| :: rest[i] == inputs[i + 1];
      assert (forall i | 0 <= i < |inputs| :: IsSame(inputs[i], input)) <==>
             IsSame(inputs[0], input) && forall i | 0 <= i < |rest| :: IsSame(rest[i], input);
    }
  }

  /** Else there is a server with that answer for which it does not. */
  lemma OutOfStepWithNewSession(journal: seq<Input>, input: Input, output: Output) returns (server: Server<nat>)
    requires !IsInStepWithNewSession(journal, input, output)
    ensures IsRestorable(server, 0) && server(0, input).1 == output
    ensures StateAfter(server, 0, Journal(journal, input, output)) != server(0, input).0
  {
    if IsConsumed(output) {
      server := CountingServer(input, output);
      Counted(input, output, 0, Journal(journal, input, output));
    } else {
      server := NoticingServer(input, output);
      Noticed(input, output, 0, journal);
    }
  }

  /** The journal holds the state of a new session without a replay, whatever the server, under this exact condition. */
  lemma JournalOfNewSession(journal: seq<Input>, input: Input, output: Output)
    ensures IsInStepWithNewSession(journal, input, output) <==>
            forall server: Server<nat> | IsRestorable(server, 0) && server(0, input).1 == output ::
              StateAfter(server, 0, Journal(journal, input, output)) == server(0, input).0
  {
    hide IsRestorable, StateAfter, Journal;
    if IsInStepWithNewSession(journal, input, output) {
      forall server: Server<nat> | IsRestorable(server, 0) && server(0, input).1 == output
        ensures StateAfter(server, 0, Journal(journal, input, output)) == server(0, input).0
      {
        InStepWithNewSession(server, 0, journal, input);
      }
    } else {
      var server := OutOfStepWithNewSession(journal, input, output);
    }
  }

  /**
   * A key before the loss and a key after it: the new session got the second one only, and a later recovery will play
   * both. A server that counts keys ends up with another count.
   */
  lemma NewSessionMayBeOutOfStep()
    ensures
      var a, b := Input(1, SendKey, "a", false, None), Input(2, SendKey, "b", false, None);
      var server := CountingServer(b, CONSUMED);
      && IsRestorable(server, 0)
      && StateAfter(server, 0, [a]) == 1
      && Journal([a], b, server(0, b).1) == [a, b]
      && server(0, b).0 == 1
      && StateAfter(server, 0, [a, b]) == 2
  {
    var a, b := Input(1, SendKey, "a", false, None), Input(2, SendKey, "b", false, None);
    Counted(b, CONSUMED, 0, [a]);
    Counted(b, CONSUMED, 0, [a, b]);
    assert [a] + [b] == [a, b];
  }
}
