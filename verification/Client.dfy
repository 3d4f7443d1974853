/**
 * The client of the conversion server: src/client/client.cc, the release build for other systems than macOS.
 *
 * The server, the connection to it and the program that launches it are the environment: they answer as they like.
 * What the client does to them is recorded in a trace.
 */
module Client {
  import opened Wrappers
  import Version

  const IPC_PROTOCOL_VERSION: nat := 3
  const MAX_PLAYBACK_SIZE: nat := 512

  type uint64 = x: nat | x <= 0xFFFF_FFFF_FFFF_FFFF

  datatype ServerStatus =
    | ServerUnknown
    | ServerShutdown
    | ServerInvalidSession
    | ServerOk
    | ServerTimeout
    | ServerVersionMismatch
    | ServerBrokenMessage
    | ServerFatal
  {
    function Order(): nat {
      match this
      case ServerUnknown => 0
      case ServerShutdown => 1
      case ServerInvalidSession => 2
      case ServerOk => 3
      case ServerTimeout => 4
      case ServerVersionMismatch => 5
      case ServerBrokenMessage => 6
      case ServerFatal => 7
    }

    predicate IsFailure() {
      Order() >= ServerTimeout.Order()
    }
  }

  datatype CommandType =
    | CreateSession
    | DeleteSession
    | SendKey
    | TestSendKey
    | SendCommand
    | SetRequest
    | ClearUserHistory
    | ClearUserPrediction
    | ClearUnusedUserPrediction
    | Shutdown
    | SyncData
    | Reload
    | Cleanup
    | NoOperation

  /** A message; the payload is the key, the command, the request or the application's data with their context. */
  datatype Input = Input(id: uint64, kind: CommandType, payload: string, grimodex: bool, config: Option<string>)

  /** An answer; consumed is None when the field is absent. */
  datatype Output = Output(id: uint64, success: bool, consumed: Option<bool>, hasResult: bool)

  const NO_OUTPUT := Output(0, true, None, false)

  /** What the environment makes of an attempt to connect. */
  datatype Channel = NoChannel | Unreachable | Connected(protocolVersion: nat, productVersion: string, processId: nat)

  /** What the environment makes of a message. */
  datatype Outcome = TimedOut | Lost | Garbled | Answered(output: Output)

  /** One choice of the environment: of a connection and of what becomes of a message on it, or of anything else. */
  datatype Choice = Choice(channel: Channel, outcome: Outcome, done: bool)

  /** The message gets to a server of the same protocol. */
  predicate IsConnected(c: Choice) {
    c.channel.Connected? && c.channel.protocolVersion == IPC_PROTOCOL_VERSION
  }

  predicate IsAnswered(c: Choice) {
    IsConnected(c) && c.outcome.Answered?
  }

  /** The protocol version the client takes the server to have. */
  function ProtocolSeen(c: Choice): nat {
    if c.channel.Connected? then c.channel.protocolVersion else IPC_PROTOCOL_VERSION
  }

  function ProductSeen(c: Choice, own: string): string {
    if c.channel.Connected? then c.channel.productVersion else own
  }

  function StatusAfter(status: ServerStatus, c: Choice): ServerStatus {
    match c.channel
    case NoChannel => ServerFatal
    case Unreachable => if status == ServerUnknown then status else ServerShutdown
    case Connected(protocolVersion, _, _) =>
      if protocolVersion != IPC_PROTOCOL_VERSION then
        status
      else
        match c.outcome
        case TimedOut => ServerTimeout
        case Lost => ServerShutdown
        case Garbled => ServerBrokenMessage
        case Answered(_) => status
  }

  /** What each outcome of a message on a connection of the same protocol makes of the status, and what no connection does. */
  lemma StatusByOutcome(status: ServerStatus, product: string, process: nat, output: Output, done: bool)
    ensures
      var on := Connected(3, product, process);
      && StatusAfter(status, Choice(on, TimedOut, done)) == ServerTimeout
      && StatusAfter(status, Choice(on, Lost, done)) == ServerShutdown
      && StatusAfter(status, Choice(on, Garbled, done)) == ServerBrokenMessage
      && StatusAfter(status, Choice(on, Answered(output), done)) == status
    ensures forall o: Outcome ::
              && StatusAfter(status, Choice(NoChannel, o, done)) == ServerFatal
              && (status != ServerUnknown ==> StatusAfter(status, Choice(Unreachable, o, done)) == ServerShutdown)
              && StatusAfter(ServerUnknown, Choice(Unreachable, o, done)) == ServerUnknown
    ensures forall version: nat, o: Outcome | version != 3 ::
              && StatusAfter(status, Choice(Connected(version, product, process), o, done)) == status
              && CheckedStatus(status, Choice(Connected(version, product, process), o, done)) == ServerVersionMismatch
  {}

  /** The status when a wrong protocol version is reported. */
  function CheckedStatus(status: ServerStatus, c: Choice): ServerStatus {
    if ProtocolSeen(c) != IPC_PROTOCOL_VERSION then ServerVersionMismatch else StatusAfter(status, c)
  }

  /** What is on the wire after a message. */
  function TraceAfter(trace: Trace, input: Input, c: Choice): Trace {
    if IsConnected(c) then trace + [Sent(input, c.outcome)] else trace
  }

  /** The session is answered for by the one with the id. */
  predicate IsAnsweredBy(c: Choice, id: uint64) {
    IsAnswered(c) && c.outcome.output.id == id
  }

  /** The session with the id is lost: no server, a message lost with its server, or an answer by another session. */
  predicate IsLoss(c: Choice, id: uint64) {
    || c.channel.Unreachable?
    || (IsConnected(c) && c.outcome.Lost?)
    || (IsAnswered(c) && c.outcome.output.id != id)
  }

  function StatusAfterLoss(c: Choice): ServerStatus {
    if IsAnswered(c) then ServerInvalidSession else ServerShutdown
  }

  /** A server of the right versions answers. */
  predicate IsAccepted(c: Choice, own: string) {
    IsAnswered(c) && !Version.CompareVersion(c.channel.productVersion, own)
  }

  /** A server of the right versions opens a session. */
  predicate IsSessionOpened(c: Choice, own: string) {
    IsAnswered(c) && c.outcome.output.success && !Version.CompareVersion(c.channel.productVersion, own)
  }

  datatype ServerErrorType = TimeoutError | BrokenMessageError | VersionMismatchError | FatalError

  datatype Event =
    | Sent(input: Input, outcome: Outcome)
    | Started(ok: bool)
    | Terminated(ok: bool)
    | Waited(processId: nat, ok: bool)
    | FatalShown(error: ServerErrorType)

  type Trace = seq<Event>

  const VERSION_CHECK := Input(0, NoOperation, "", false, None)

  /** A call of one of the client's public methods. */
  datatype PublicCall =
    | Submit(input: UserInput)
    | Notify(kind: ServiceKind)
    | CheckVersion
    | Stop
    | Delete
    | ResetStatus

  type UserInput = input: Input | IsUserKind(input.kind) witness Input(0, SendKey, "", false, None)
  type ServiceKind = kind: CommandType | !IsUserKind(kind) witness NoOperation

  predicate IsUserKind(kind: CommandType) {
    kind in {SendKey, TestSendKey, SendCommand}
  }

  /** The user's inputs on the wire, in order. */
  function UserSends(trace: Trace): seq<Input> {
    if trace == [] then
      []
    else
      var last := trace[|trace| - 1];
      UserSends(trace[..|trace| - 1]) + if last.Sent? && IsUserKind(last.input.kind) then [last.input] else []
  }

  function Starts(trace: Trace): nat {
    if trace == [] then 0 else Starts(trace[..|trace| - 1]) + if trace[|trace| - 1].Started? then 1 else 0
  }

  predicate IsStop(event: Event) {
    event == Terminated(true) || (event.Waited? && event.ok)
  }

  /** A server was waited for until it stopped or was terminated, and after that one was started. */
  ghost predicate IsStoppedAndStarted(events: Trace) {
    && events != []
    && events[|events| - 1] == Started(true)
    && exists i | 0 <= i < |events| - 1 :: IsStop(events[i])
  }

  /** From here on a server was terminated by force, or not, and if it was another one was started, or not. */
  predicate IsForced(trace: Trace, from: nat, terminated: bool, started: bool) {
    && |trace| > from
    && trace[from] == Terminated(terminated)
    && (terminated ==> |trace| >= from + 3 && trace[from + 2] == Started(started))
  }

  /** How often one input was sent. */
  function SendsOf(trace: Trace, input: Input): nat {
    if trace == [] then
      0
    else
      var last := trace[|trace| - 1];
      SendsOf(trace[..|trace| - 1], input) + if last.Sent? && last.input == input then 1 else 0
  }

  /** Nothing is sent, started, terminated or waited for. */
  predicate IsOnlyShown(events: Trace) {
    forall i | 0 <= i < |events| :: events[i].FatalShown?
  }

  lemma OneMoreEvent(trace: Trace, event: Event)
    ensures UserSends(trace + [event]) ==
            UserSends(trace) + if event.Sent? && IsUserKind(event.input.kind) then [event.input] else []
    ensures Starts(trace + [event]) == Starts(trace) + if event.Started? then 1 else 0
    ensures forall input :: SendsOf(trace + [event], input) ==
                            SendsOf(trace, input) + if event.Sent? && event.input == input then 1 else 0
  {
    assert (trace + [event])[..|trace|] == trace;
  }

  /** The same submission, whatever session it is sent to. */
  predicate SameSubmission(a: Input, b: Input) {
    a.(id := b.id, config := b.config) == b
  }

  /** Nothing is sent in between but the input, and that once or not at all. */
  ghost predicate IsSentOnceOrNot(before: seq<Input>, after: seq<Input>, input: Input) {
    after == before || exists sent: Input :: SameSubmission(sent, input) && after == before + [sent]
  }

  /**
   * From the mark on, every input sent is another one of the submissions, in order; the positions tell which. So none
   * is sent twice, and none that is older than the submissions is sent.
   */
  ghost predicate AtMostOnce(sends: seq<Input>, mark: nat, submitted: seq<Input>, positions: seq<nat>) {
    && |sends| == mark + |positions|
    && (forall i | 0 <= i < |positions| ::
          && positions[i] < |submitted|
          && SameSubmission(sends[mark + i], submitted[positions[i]]))
    && (forall i, j | 0 <= i < j < |positions| :: positions[i] < positions[j])
  }

  /** The same, and the last submission is the given one and has not been sent so far. */
  ghost predicate LastIsUnsent(sends: seq<Input>, mark: nat, submitted: seq<Input>, positions: seq<nat>, input: Input) {
    && submitted != []
    && submitted[|submitted| - 1] == input
    && AtMostOnce(sends, mark, submitted[..|submitted| - 1], positions)
  }

  lemma NothingSent(sends: seq<Input>)
    ensures AtMostOnce(sends, |sends|, [], [])
  {}

  lemma OneMoreSubmission(sends: seq<Input>, mark: nat, submitted: seq<Input>, positions: seq<nat>, input: Input)
    requires AtMostOnce(sends, mark, submitted, positions)
    ensures LastIsUnsent(sends, mark, submitted + [input], positions, input)
    ensures AtMostOnce(sends, mark, submitted + [input], positions)
  {
    assert (submitted + [input])[..|submitted|] == submitted;
  }

  lemma OneMoreSend(sends: seq<Input>, mark: nat, submitted: seq<Input>, positions: seq<nat>, input: Input, sent: Input)
    requires LastIsUnsent(sends, mark, submitted, positions, input) && SameSubmission(sent, input)
    ensures submitted != []
    ensures AtMostOnce(sends, mark, submitted, positions)
    ensures AtMostOnce(sends + [sent], mark, submitted, positions + [|submitted| - 1])
  {}

  predicate IsGrimodex(call: PublicCall) {
    call.Submit? && call.input.grimodex
  }

  /** The first call that submits an input with a Grimodex context, or the number of calls. */
  function FirstGrimodex(calls: seq<PublicCall>): (first: nat)
    ensures first <= |calls|
    ensures forall i | 0 <= i < first :: !IsGrimodex(calls[i])
    ensures first < |calls| ==> IsGrimodex(calls[first])
  {
    if calls == [] || IsGrimodex(calls[0]) then 0 else 1 + FirstGrimodex(calls[1..])
  }

  function SubmittedIn(call: PublicCall): seq<Input> {
    match call
    case Submit(input) => [input]
    case _ => []
  }

  /** The inputs that calls submit, in order. */
  function Submissions(calls: seq<PublicCall>): seq<Input> {
    if calls == [] then [] else Submissions(calls[..|calls| - 1]) + SubmittedIn(calls[|calls| - 1])
  }

  /** What a call in a managed session may send: its own input, once or not at all. */
  ghost predicate IsSentBy(call: PublicCall, before: seq<Input>, after: seq<Input>) {
    match call
    case Submit(input) => IsSentOnceOrNot(before, after, input)
    case _ => after == before
  }

  lemma NoSubmissions()
    ensures Submissions([]) == []
  {}

  lemma OneMoreCall(calls: seq<PublicCall>, first: nat, i: nat)
    requires first <= i < |calls|
    ensures Submissions(calls[first..i + 1]) == Submissions(calls[first..i]) + SubmittedIn(calls[i])
    ensures Submissions(calls[i..i]) == []
  {
    assert calls[first..i + 1][..i - first] == calls[first..i];
  }

  lemma SubmittedBy(before: seq<Input>, more: seq<Input>, call: PublicCall)
    ensures before + more + SubmittedIn(call) == before + (more + SubmittedIn(call))
  {}

  /** So over many calls no input is sent twice, none that is older, and none out of order. */
  lemma {:induction false} SentInOrder(calls: seq<PublicCall>, sends: seq<seq<Input>>) returns (positions: seq<nat>)
    requires |sends| == |calls| + 1
    requires forall i | 0 <= i < |calls| :: IsSentBy(calls[i], sends[i], sends[i + 1])
    ensures AtMostOnce(sends[|calls|], |sends[0]|, Submissions(calls), positions)
    decreases |calls|
  {
    hide AtMostOnce, LastIsUnsent;
    if calls == [] {
      positions := [];
      NothingSent(sends[0]);
    } else {
      var n := |calls| - 1;
      assert forall i | 0 <= i < n :: calls[..n][i] == calls[i] && sends[..n + 1][i] == sends[i];
      var earlier := Submissions(calls[..n]);
      positions := SentInOrder(calls[..n], sends[..n + 1]);
      if sends[n + 1] != sends[n] {
        var input := calls[n].input;
        var sent: Input :| SameSubmission(sent, input) && sends[n + 1] == sends[n] + [sent];
        OneMoreSubmission(sends[n], |sends[0]|, earlier, positions, input);
        OneMoreSend(sends[n], |sends[0]|, earlier + [input], positions, input, sent);
        positions := positions + [|earlier|];
      } else if calls[n].Submit? {
        OneMoreSubmission(sends[n], |sends[0]|, earlier, positions, calls[n].input);
      } else {
        assert earlier + [] == earlier;
      }
    }
  }

  /** The entries of the journal, sent to a session one after the other, all answered. */
  predicate IsReplay(events: Trace, journal: seq<Input>, id: uint64) {
    && |events| == |journal|
    && forall i | 0 <= i < |journal| ::
         events[i].Sent? && events[i].outcome.Answered? && events[i].input == journal[i].(id := id)
  }

  lemma NothingReplayed(events: Trace, id: uint64)
    ensures IsReplay(events[|events|..], [], id)
  {}

  lemma NothingSentInBetween(sends: seq<Input>, input: Input)
    ensures IsSentOnceOrNot(sends, sends, input)
  {}

  lemma ReplayGrows(events: Trace, journal: seq<Input>, i: nat, id: uint64, output: Output)
    requires i < |journal| && IsReplay(events, journal[..i], id)
    ensures IsReplay(events + [Sent(journal[i].(id := id), Answered(output))], journal[..i + 1], id)
  {}

  /** What becomes of the journal after an answered input. */
  function Journal(journal: seq<Input>, input: Input, output: Output): seq<Input> {
    if output.consumed != Some(true) then
      journal
    else if input.kind == SendKey && output.hasResult then
      []
    else if |journal| < MAX_PLAYBACK_SIZE then
      journal + [input]
    else
      journal
  }

  /** The entries of a journal under another session id. */
  function Readdressed(journal: seq<Input>, id: uint64): (readdressed: seq<Input>)
    ensures |readdressed| == |journal|
    ensures forall i | 0 <= i < |journal| :: readdressed[i] == journal[i].(id := id)
  {
    if journal == [] then [] else [journal[0].(id := id)] + Readdressed(journal[1..], id)
  }

  /** What is played back of a journal. */
  function Played(journal: seq<Input>): seq<Input> {
    if |journal| >= MAX_PLAYBACK_SIZE then [] else journal
  }

  lemma NothingPlayed()
    ensures |Played([])| == 0
  {}

  class Client {
    const mozcVersion: string
    const request: Option<string>
    const clientCapability: string
    /** What the environment chooses, and how many of its choices are made. */
    const environment: nat -> Choice
    var tick: nat
    var preferences: Option<string>
    var serverStatus: ServerStatus
    var id: uint64
    var sessionGeneration: uint64
    var serverProtocolVersion: nat
    var serverProductVersion: string
    var serverProcessId: nat
    var historyInputs: seq<Input>
    var grimodexManagedSession: bool

    /** Everything done to the environment so far. */
    ghost var trace: Trace
    /** Where the messages to the current session begin. */
    ghost var sessionStart: nat
    /** Number of user inputs sent before the session became managed. */
    ghost var mark: nat
    /** The inputs submitted since then, and for every one sent which of them it was. */
    ghost var submitted: seq<Input>
    ghost var positions: seq<nat>

    constructor (environment: nat -> Choice, mozcVersion: string, request: Option<string>, clientCapability: string)
      ensures Valid() && SentAtMostOnce()
      ensures this.environment == environment && this.mozcVersion == mozcVersion && this.request == request && tick == 0
      ensures serverProtocolVersion == 0
      ensures serverStatus == ServerUnknown && !grimodexManagedSession && historyInputs == [] && trace == []
    {
      this.environment, tick := environment, 0;
      this.mozcVersion := mozcVersion;
      this.request := request;
      this.clientCapability := clientCapability;
      preferences := None;
      serverStatus := ServerUnknown;
      id, sessionGeneration := 0, 0;
      serverProtocolVersion, serverProductVersion, serverProcessId := 0, "", 0;
      historyInputs := [];
      grimodexManagedSession := false;
      trace, sessionStart, mark, submitted, positions := [], 0, 0, [], [];
    }

    /** What every public call keeps. */
    ghost predicate Valid()
      reads this
    {
      && (serverStatus == ServerOk ==> sessionGeneration != 0)
      && |historyInputs| <= MAX_PLAYBACK_SIZE
      && (grimodexManagedSession ==> historyInputs == [])
    }

    ghost predicate SentAtMostOnce()
      reads `grimodexManagedSession, `trace, `mark, `submitted, `positions
    {
      grimodexManagedSession ==> AtMostOnce(UserSends(trace), mark, submitted, positions)
    }

    ghost predicate ReadyToSend(sends: seq<Input>, input: Input)
      reads `grimodexManagedSession, `mark, `submitted, `positions
    {
      grimodexManagedSession ==> LastIsUnsent(sends, mark, submitted, positions, input)
    }

    // The choices that decide.

    function AnswerAt(choice: nat): Output {
      var outcome := environment(choice).outcome;
      if outcome.Answered? then outcome.output else NO_OUTPUT
    }

    /** The next choice after a restart of the server that begins with this one, if the restart succeeds. */
    function Restarted(first: nat, compatible: bool): Option<nat> {
      if !compatible then
        if environment(first).done && environment(first + 2).done then Some(first + 3) else None
      else if environment(first + 1).done then
        if environment(first + 2).done then Some(first + 3) else None
      else
        if environment(first + 2).done && environment(first + 4).done then Some(first + 5) else None
    }

    /** A choice if that is an answer by a server of the right versions. */
    function Accepted(choice: Option<nat>): Option<nat> {
      if choice.Some? && IsAccepted(environment(choice.value), mozcVersion) then choice else None
    }

    /** The choice that is the answer to an input sent once or, after a restart, twice; none if there is no such answer. */
    function Checked(status: ServerStatus, protocol: nat, first: nat): Option<nat> {
      if status.IsFailure() then
        if protocol < IPC_PROTOCOL_VERSION then Accepted(Restarted(first, false)) else None
      else
        var c := environment(first);
        if IsAccepted(c, mozcVersion) then Some(first)
        else if IsAnswered(c) then Accepted(Restarted(first + 1, true))
        else if ProtocolSeen(c) < IPC_PROTOCOL_VERSION then Accepted(Restarted(first + 1, false))
        else None
    }

    predicate IsStopped(first: nat, compatible: bool) {
      if compatible then environment(first + 1).done || environment(first + 2).done else environment(first).done
    }

    /** The status after the input is sent again. */
    function StatusAfterSecond(c: Choice): ServerStatus {
      if IsAccepted(c, mozcVersion) then ServerInvalidSession
      else if IsAnswered(c) || ProtocolSeen(c) < IPC_PROTOCOL_VERSION then ServerBrokenMessage
      else CheckedStatus(ServerInvalidSession, c)
    }

    /** The status after a restart and that. */
    function StatusAfterRestart(first: nat, compatible: bool): ServerStatus {
      if !IsStopped(first, compatible) then ServerBrokenMessage
      else if Restarted(first, compatible) == None then ServerVersionMismatch
      else StatusAfterSecond(environment(Restarted(first, compatible).value))
    }

    function StatusAfterCheck(status: ServerStatus, protocol: nat, first: nat): ServerStatus {
      if status.IsFailure() then
        if protocol < IPC_PROTOCOL_VERSION then StatusAfterRestart(first, false)
        else if protocol > IPC_PROTOCOL_VERSION then ServerVersionMismatch
        else status
      else
        var c := environment(first);
        if IsAccepted(c, mozcVersion) then status
        else if IsAnswered(c) then StatusAfterRestart(first + 1, true)
        else if ProtocolSeen(c) < IPC_PROTOCOL_VERSION then StatusAfterRestart(first + 1, false)
        else CheckedStatus(status, c)
    }

    /** The choice that is the answer that opens a session, from a status that is in order but for the session. */
    function Created(first: nat): Option<nat> {
      var choice := Checked(ServerInvalidSession, IPC_PROTOCOL_VERSION, first);
      if choice.Some? && AnswerAt(choice.value).success then choice else None
    }

    /** The same from any status without a session. */
    function Opened(status: ServerStatus, first: nat): Option<nat> {
      match status
      case ServerInvalidSession => Created(first)
      case ServerUnknown => if environment(first).done then Created(first + 1) else None
      case ServerShutdown => if environment(first).done then Created(first + 1) else None
      case _ => None
    }

    /** The first choice after a session is opened and got the request. */
    function AfterOpening(choice: nat): nat {
      choice + if request.Some? then 2 else 1
    }

    predicate AreAnswered(first: nat, count: nat) {
      forall i: nat | first <= i < first + count :: IsAnswered(environment(i))
    }

    /** The choice that is the answer to an input sent again in a new session, after a journal, all of that answered. */
    function Retried(status: ServerStatus, first: nat, journal: nat): Option<nat> {
      var choice := Opened(status, first);
      if choice.Some? && AreAnswered(AfterOpening(choice.value), journal + 1) then
        Some(AfterOpening(choice.value) + journal)
      else
        None
    }

    /** The choice that becomes of an input sent to a session, which is opened if there is none, and the id of that. */
    function Sending(status: ServerStatus, first: nat): Option<nat> {
      if status == ServerOk then Some(first)
      else if Opened(status, first).Some? then Some(AfterOpening(Opened(status, first).value))
      else None
    }

    function SessionAt(status: ServerStatus, first: nat, present: uint64): uint64
      requires Sending(status, first).Some?
    {
      if status == ServerOk then present else AnswerAt(Opened(status, first).value).id
    }

    /**
     * What comes of an input that is sent to a session with this choice: it is answered, or given up, or the session
     * is lost. Then a managed session gives it up, and any other one is rebuilt with its journal if all goes well.
     */
    predicate IsOutcome(
      managed: bool, sent: nat, session: uint64, journal: nat,
      ok: bool, output: Output, replayed: Option<nat>, next: nat)
    {
      var c := environment(sent);
      if IsAnsweredBy(c, session) then
        ok && replayed == None && output == AnswerAt(sent) && next == sent + 1
      else if !IsLoss(c, session) then
        !ok && replayed == None && next == sent + 1
      else if managed || Opened(StatusAfterLoss(c), sent + 1) == None then
        !ok && replayed == None
      else
        var again := Retried(StatusAfterLoss(c), sent + 1, journal);
        && (ok && replayed == Some(journal) <==> again.Some?)
        && (again.Some? ==> output == AnswerAt(again.value) && next == again.value + 1)
    }

    // The connection.

    /** One message, unless an earlier failure forbids it. A wrong protocol version is not reported here. */
    method Call(input: Input) returns (ok: bool, output: Output)
      modifies `tick, `serverStatus, `serverProtocolVersion, `serverProductVersion, `serverProcessId, `trace
      ensures old(serverStatus.IsFailure()) ==>
                && !ok
                && tick == old(tick)
                && trace == old(trace)
                && serverStatus == old(serverStatus)
                && serverProtocolVersion == old(serverProtocolVersion)
                && serverProductVersion == old(serverProductVersion)
      ensures !old(serverStatus.IsFailure()) ==>
                var c := environment(old(tick));
                && tick == old(tick) + 1
                && ok == IsAnswered(c)
                && (ok ==> output == c.outcome.output)
                && (if IsConnected(c) then trace == old(trace) + [Sent(input, c.outcome)] else trace == old(trace))
                && serverStatus == StatusAfter(old(serverStatus), c)
                && serverProtocolVersion == ProtocolSeen(c)
                && serverProductVersion == ProductSeen(c, mozcVersion)
      ensures ok ==> trace == old(trace) + [Sent(input, Answered(output))] && serverStatus == old(serverStatus)
      ensures !ok ==>
                trace == old(trace) || exists o: Outcome :: !o.Answered? && trace == old(trace) + [Sent(input, o)]
      ensures !ok ==>
                || serverStatus.IsFailure()
                || serverStatus == ServerShutdown
                || (serverStatus == old(serverStatus)
                    && (serverStatus == ServerUnknown || serverProtocolVersion != IPC_PROTOCOL_VERSION))
      ensures serverStatus != old(serverStatus) ==>
                serverStatus in {ServerShutdown, ServerTimeout, ServerBrokenMessage, ServerFatal}
    {
      output := NO_OUTPUT;
      if serverStatus.IsFailure() {
        return false, output;
      }
      var c := environment(tick);
      tick := tick + 1;
      serverProtocolVersion := IPC_PROTOCOL_VERSION;
      serverProductVersion := mozcVersion;
      serverProcessId := 0;
      match c.channel {
        case NoChannel =>
          serverStatus := ServerFatal;
          return false, output;
        case Unreachable =>
          if serverStatus != ServerUnknown {
            serverStatus := ServerShutdown;
          }
          return false, output;
        case Connected(protocolVersion, productVersion, processId) =>
          serverProtocolVersion := protocolVersion;
          serverProductVersion := productVersion;
          serverProcessId := processId;
      }
      if serverProtocolVersion != IPC_PROTOCOL_VERSION {
        return false, output;
      }
      trace := trace + [Sent(input, c.outcome)];
      match c.outcome {
        case TimedOut =>
          serverStatus := ServerTimeout;
          return false, output;
        case Lost =>
          serverStatus := ServerShutdown;
          return false, output;
        case Garbled =>
          serverStatus := ServerBrokenMessage;
          return false, output;
        case Answered(answer) =>
          assert serverStatus in {ServerOk, ServerInvalidSession, ServerShutdown, ServerUnknown};
          return true, answer;
      }
    }

    method CallAndCheckVersion(input: Input) returns (ok: bool, output: Output)
      requires serverStatus == ServerOk || serverStatus == ServerShutdown || serverStatus.IsFailure()
      modifies `tick, `serverStatus, `serverProtocolVersion, `serverProductVersion, `serverProcessId, `trace
      ensures old(serverStatus.IsFailure()) ==> !ok && trace == old(trace) && serverStatus.IsFailure()
      ensures !old(serverStatus.IsFailure()) ==>
                var c := environment(old(tick));
                && tick == old(tick) + 1
                && ok == IsAnswered(c)
                && (ok ==> output == c.outcome.output)
                && trace == TraceAfter(old(trace), input, c)
                && serverStatus == CheckedStatus(old(serverStatus), c)
      ensures ok ==>
                && trace == old(trace) + [Sent(input, Answered(output))]
                && serverStatus == old(serverStatus)
      ensures !ok ==>
                trace == old(trace) || exists o: Outcome :: !o.Answered? && trace == old(trace) + [Sent(input, o)]
      ensures !ok ==> serverStatus.IsFailure() || serverStatus == ServerShutdown
    {
      hide StatusAfter;
      ok, output := Call(input);
      if !ok && serverProtocolVersion != IPC_PROTOCOL_VERSION {
        serverStatus := ServerVersionMismatch;
      }
    }

    method OnFatal(error: ServerErrorType)
      modifies `trace
      ensures trace == old(trace) + [FatalShown(error)]
    {
      trace := trace + [FatalShown(error)];
    }

    /** The environment's next choice of something that is done or fails. */
    method Ask() returns (ok: bool)
      modifies `tick
      ensures tick == old(tick) + 1 && ok == environment(old(tick)).done
    {
      ok := environment(tick).done;
      tick := tick + 1;
    }

    method StartServer() returns (ok: bool)
      modifies `tick, `trace
      ensures tick == old(tick) + 1 && ok == environment(old(tick)).done
      ensures trace == old(trace) + [Started(ok)]
    {
      ok := Ask();
      trace := trace + [Started(ok)];
    }

    /** A server is running, or the client has given up for good; a server is started only if none was known. */
    method EnsureConnection() returns (ok: bool)
      modifies `tick, `serverStatus, `trace
      ensures ok <==> serverStatus == ServerOk || serverStatus == ServerInvalidSession
      ensures !ok ==> serverStatus == ServerFatal
      ensures old(serverStatus) in {ServerOk, ServerInvalidSession, ServerFatal} ==>
                serverStatus == old(serverStatus) && trace == old(trace)
      ensures serverStatus == ServerOk ==> old(serverStatus) == ServerOk
      ensures old(serverStatus) in {ServerUnknown, ServerShutdown} ==>
                && tick == old(tick) + 1
                && ok == environment(old(tick)).done
                && trace == old(trace) + (if ok then [Started(true)] else [Started(false), FatalShown(FatalError)])
      ensures !(old(serverStatus) in {ServerUnknown, ServerShutdown}) ==> tick == old(tick)
      ensures old(serverStatus).IsFailure() ==> !ok
      ensures old(serverStatus) == ServerTimeout ==> trace == old(trace) + [FatalShown(TimeoutError)]
      ensures old(serverStatus) == ServerBrokenMessage ==> trace == old(trace) + [FatalShown(BrokenMessageError)]
      ensures old(serverStatus) == ServerVersionMismatch ==> trace == old(trace) + [FatalShown(VersionMismatchError)]
      ensures UserSends(trace) == old(UserSends(trace))
      ensures Starts(trace) <= old(Starts(trace)) + if old(serverStatus) in {ServerUnknown, ServerShutdown} then 1 else 0
      ensures forall input :: SendsOf(trace, input) == old(SendsOf(trace, input))
      ensures old(trace) <= trace
    {
      hide UserSends, Starts, SendsOf;
      match serverStatus {
        case ServerOk | ServerInvalidSession =>
          return true;
        case ServerFatal =>
          return false;
        case ServerTimeout =>
          OneMoreEvent(trace, FatalShown(TimeoutError));
          OnFatal(TimeoutError);
          serverStatus := ServerFatal;
          return false;
        case ServerBrokenMessage =>
          OneMoreEvent(trace, FatalShown(BrokenMessageError));
          OnFatal(BrokenMessageError);
          serverStatus := ServerFatal;
          return false;
        case ServerVersionMismatch =>
          OneMoreEvent(trace, FatalShown(VersionMismatchError));
          OnFatal(VersionMismatchError);
          serverStatus := ServerFatal;
          return false;
        case ServerShutdown | ServerUnknown =>
          OneMoreEvent(trace, Started(true));
          OneMoreEvent(trace, Started(false));
          OneMoreEvent(trace + [Started(false)], FatalShown(FatalError));
          ok := StartServer();
          if ok {
            serverStatus := ServerInvalidSession;
            return true;
          } else {
            OnFatal(FatalError);
            serverStatus := ServerFatal;
            return false;
          }
      }
    }

    // Sessions.

    function Addressed(input: Input): Input
      reads `id, `preferences
    {
      input.(id := id, config := if preferences.Some? then preferences else input.config)
    }

    /** Only the session and, where the client has preferences, the configuration are set. */
    lemma AddressedInput(input: Input)
      ensures SameSubmission(Addressed(input), input) && Addressed(input).id == id
      ensures preferences.Some? ==> Addressed(input).config == preferences
      ensures preferences.None? ==> Addressed(input) == input.(id := id)
    {}

    function Command(kind: CommandType): Input
      reads `id, `preferences
    {
      Addressed(Input(0, kind, "", false, None))
    }

    method CallCommand(kind: CommandType) returns (ok: bool)
      requires !IsUserKind(kind)
      modifies `tick, `serverStatus, `serverProtocolVersion, `serverProductVersion, `serverProcessId, `trace
      ensures ok ==>
                && serverStatus == old(serverStatus)
                && exists o: Output :: trace == old(trace) + [Sent(Command(kind), Answered(o))]
      ensures !ok ==>
                || trace == old(trace)
                || exists o: Outcome :: !o.Answered? && trace == old(trace) + [Sent(Command(kind), o)]
      ensures UserSends(trace) == old(UserSends(trace))
      ensures Starts(trace) == old(Starts(trace))
      ensures forall input: Input | input.kind != kind :: SendsOf(trace, input) == old(SendsOf(trace, input))
      ensures old(trace) <= trace
      ensures serverStatus == ServerOk ==> old(serverStatus) == ServerOk
      ensures old(serverStatus) == ServerFatal ==> serverStatus == ServerFatal && trace == old(trace)
      ensures old(Valid()) ==> Valid()
      ensures old(SentAtMostOnce()) ==> SentAtMostOnce()
      ensures ok == (!old(serverStatus).IsFailure() && IsAnswered(environment(old(tick))))
      ensures tick == old(tick) + if old(serverStatus).IsFailure() then 0 else 1
    {
      hide UserSends, Starts, SendsOf, StatusAfter, IsConnected, IsAnswered, ProtocolSeen, ProductSeen;
      var output;
      forall o: Outcome {
        OneMoreEvent(trace, Sent(Command(kind), o));
      }
      ok, output := Call(Command(kind));
    }

    method WaitServer() returns (ok: bool)
      modifies `tick, `trace
      ensures tick == old(tick) + 1 && ok == environment(old(tick)).done
      ensures trace == old(trace) + [Waited(serverProcessId, ok)]
    {
      ok := Ask();
      trace := trace + [Waited(serverProcessId, ok)];
    }

    method ForceTerminateServer() returns (ok: bool)
      modifies `tick, `trace
      ensures tick == old(tick) + 1 && ok == environment(old(tick)).done
      ensures trace == old(trace) + [Terminated(ok)]
    {
      ok := Ask();
      trace := trace + [Terminated(ok)];
    }

    /** Asks the server to stop and waits for it. */
    method Shutdown() returns (ok: bool)
      modifies `tick, `serverStatus, `serverProtocolVersion, `serverProductVersion, `serverProcessId, `trace
      ensures |trace| > |old(trace)| && trace[|trace| - 1] == Waited(serverProcessId, ok)
      ensures UserSends(trace) == old(UserSends(trace))
      ensures Starts(trace) == old(Starts(trace))
      ensures forall input: Input | input.kind != CommandType.Shutdown :: SendsOf(trace, input) == old(SendsOf(trace, input))
      ensures old(trace) <= trace
      ensures serverStatus == ServerOk ==> old(serverStatus) == ServerOk
      ensures old(Valid()) ==> Valid()
      ensures old(SentAtMostOnce()) ==> SentAtMostOnce()
      ensures tick == old(tick) + if old(serverStatus).IsFailure() then 1 else 2
      ensures ok == environment(tick - 1).done
    {
      hide UserSends, Starts, SendsOf, IsAnswered;
      var called := CallCommand(CommandType.Shutdown);
      OneMoreEvent(trace, Waited(serverProcessId, true));
      OneMoreEvent(trace, Waited(serverProcessId, false));
      ok := WaitServer();
    }

    /** Stops the server, by a message if it understands the protocol and else by force; fails only if force does. */
    method StopServer(compatible: bool) returns (ok: bool)
      modifies `tick, `serverStatus, `serverProtocolVersion, `serverProductVersion, `serverProcessId, `trace
      ensures old(trace) <= trace
      ensures UserSends(trace) == old(UserSends(trace)) && Starts(trace) == old(Starts(trace))
      ensures forall input: Input | input.kind != CommandType.Shutdown ::
                SendsOf(trace, input) == old(SendsOf(trace, input))
      ensures ok ==> exists i | |old(trace)| <= i < |trace| :: IsStop(trace[i])
      ensures !compatible ==>
                && ok == environment(old(tick)).done
                && |trace| == |old(trace)| + (if ok then 2 else 1)
                && tick == old(tick) + (if ok then 2 else 1)
                && trace[|old(trace)|] == Terminated(ok)
      ensures compatible && !old(serverStatus).IsFailure() ==>
                if environment(old(tick) + 1).done then
                  ok && tick == old(tick) + 2
                else
                  ok == environment(old(tick) + 2).done && (ok ==> tick == old(tick) + 4)
    {
      hide UserSends, Starts, SendsOf, StatusAfter, IsConnected, IsAnswered, ProtocolSeen, ProductSeen;
      ok := true;
      if compatible {
        ok := Shutdown();
        assert ok ==> IsStop(trace[|trace| - 1]);
      }
      if !ok || !compatible {
        OneMoreEvent(trace, Terminated(true));
        OneMoreEvent(trace, Terminated(false));
        ok := ForceTerminateServer();
        if !ok {
          return;
        }
        ghost var stop := |trace| - 1;
        OneMoreEvent(trace, Waited(serverProcessId, true));
        OneMoreEvent(trace, Waited(serverProcessId, false));
        var waited := WaitServer();
        assert IsStop(trace[stop]);
      }
    }

    /** Stops the server and connects anew. */
    method RebootServer(compatible: bool) returns (ok: bool)
      modifies `tick, `serverStatus, `serverProtocolVersion, `serverProductVersion, `serverProcessId, `trace
      ensures old(trace) <= trace
      ensures UserSends(trace) == old(UserSends(trace))
      ensures forall input: Input | input.kind != CommandType.Shutdown ::
                SendsOf(trace, input) == old(SendsOf(trace, input))
      ensures Starts(trace) <= old(Starts(trace)) + 1
      ensures ok ==> serverStatus == ServerInvalidSession
      ensures ok ==> IsStoppedAndStarted(trace[|old(trace)|..])
      ensures !ok ==> serverStatus == ServerBrokenMessage || serverStatus == ServerVersionMismatch
      ensures !compatible ==>
                IsForced(trace, |old(trace)|, environment(old(tick)).done, environment(old(tick) + 2).done)
      ensures !compatible || !old(serverStatus).IsFailure() ==>
                && ok == Restarted(old(tick), compatible).Some?
                && (ok ==> tick == Restarted(old(tick), compatible).value)
                && (if ok then StatusAfterSecond(environment(tick)) else serverStatus) ==
                   StatusAfterRestart(old(tick), compatible)
    {
      hide UserSends, Starts, SendsOf, IsStop, StatusAfterSecond;
      ok := StopServer(compatible);
      if !ok {
        serverStatus := ServerBrokenMessage;
        return;
      }
      ghost var stopped := trace;
      serverStatus := ServerUnknown;
      ok := EnsureConnection();
      if !ok {
        serverStatus := ServerVersionMismatch;
        return;
      }
      ghost var stop :| |old(trace)| <= stop < |stopped| && IsStop(stopped[stop]);
      assert trace[|old(trace)|..][stop - |old(trace)|] == stopped[stop];
    }

    /**
     * Sends the input at most twice, with at most one restart of the server in between. It succeeds only if the last
     * message was the input, answered by a server of the same protocol and of no older a product version.
     */
    method CheckVersionOrRestartServerInternal(input: Input) returns (ok: bool, output: Output)
      requires input.kind in {CommandType.CreateSession, NoOperation}
      modifies `tick, `serverStatus, `serverProtocolVersion, `serverProductVersion, `serverProcessId, `trace
      ensures old(trace) <= trace
      ensures UserSends(trace) == old(UserSends(trace))
      ensures SendsOf(trace, input) <= old(SendsOf(trace, input)) + 2
      ensures Starts(trace) <= old(Starts(trace)) + 1
      ensures ok ==>
                && |trace| > |old(trace)|
                && trace[|trace| - 1] == Sent(input, Answered(output))
                && serverProtocolVersion == IPC_PROTOCOL_VERSION
                && !Version.CompareVersion(serverProductVersion, mozcVersion)
                && (serverStatus == old(serverStatus) || serverStatus in {ServerInvalidSession, ServerOk})
                && !serverStatus.IsFailure()
      ensures serverStatus == ServerOk ==> old(serverStatus) == ServerOk
      ensures old(serverStatus) == ServerFatal ==> (trace == old(trace) <==> old(serverProtocolVersion) >= IPC_PROTOCOL_VERSION)
      ensures old(serverStatus) == ServerFatal && old(serverProtocolVersion) >= IPC_PROTOCOL_VERSION ==>
                !ok && serverStatus == if old(serverProtocolVersion) == IPC_PROTOCOL_VERSION then ServerFatal
                                       else ServerVersionMismatch
      ensures old(serverStatus).IsFailure() && old(serverProtocolVersion) < IPC_PROTOCOL_VERSION ==>
                IsForced(trace, |old(trace)|, environment(old(tick)).done, environment(old(tick) + 2).done)
      ensures !old(serverStatus).IsFailure() && IsSessionOpened(environment(old(tick)), mozcVersion) ==>
                && ok && output == environment(old(tick)).outcome.output
                && tick == old(tick) + 1
                && trace == old(trace) + [Sent(input, environment(old(tick)).outcome)]
      ensures
        var choice := Checked(old(serverStatus), old(serverProtocolVersion), old(tick));
        && ok == choice.Some?
        && (ok ==> output == AnswerAt(choice.value) && tick == choice.value + 1)
        && serverStatus == StatusAfterCheck(old(serverStatus), old(serverProtocolVersion), old(tick))
    {
      hide Version.CompareVersion, UserSends, Starts, SendsOf, Restarted, IsStopped, StatusAfterRestart;
      ghost var choice := Checked(serverStatus, serverProtocolVersion, tick);
      output := NO_OUTPUT;
      for trial := 0 to 2
        invariant old(trace) <= trace
        invariant UserSends(trace) == old(UserSends(trace))
        invariant SendsOf(trace, input) <= old(SendsOf(trace, input)) + trial
        invariant Starts(trace) <= old(Starts(trace)) + trial
        invariant trial == 0 ==> serverStatus == old(serverStatus) && trace == old(trace)
        invariant trial == 0 ==> serverProtocolVersion == old(serverProtocolVersion)
        invariant trial == 1 ==> serverStatus == ServerInvalidSession
        invariant serverStatus == ServerOk ==> old(serverStatus) == ServerOk
        invariant trial == 0 ==> tick == old(tick)
        invariant trial == 1 ==> !(!old(serverStatus).IsFailure() && IsSessionOpened(environment(old(tick)), mozcVersion))
        invariant trial == 1 && old(serverStatus).IsFailure() ==>
                    && old(serverProtocolVersion) < IPC_PROTOCOL_VERSION
                    && IsForced(trace, |old(trace)|, environment(old(tick)).done, environment(old(tick) + 2).done)
        invariant trial == 1 ==> choice == Accepted(Some(tick))
        invariant trial == 1 ==>
                    StatusAfterSecond(environment(tick)) ==
                    StatusAfterCheck(old(serverStatus), old(serverProtocolVersion), old(tick))
        invariant trial < 2
      {
        OneMoreEvent(trace, Sent(input, environment(tick).outcome));
        var callResult;
        callResult, output := Call(input);
        if !callResult && serverProtocolVersion > IPC_PROTOCOL_VERSION {
          serverStatus := ServerVersionMismatch;
          return false, output;
        }
        var versionUpgraded := Version.CompareVersion(serverProductVersion, mozcVersion);
        if (callResult && versionUpgraded) || (!callResult && serverProtocolVersion < IPC_PROTOCOL_VERSION) {
          if trial > 0 {
            serverStatus := ServerBrokenMessage;
            return false, output;
          }
          var rebooted := RebootServer(callResult);
          if !rebooted {
            return false, output;
          }
          continue;
        }
        if !callResult {
          return false, output;
        }
        return true, output;
      }
      return false, output;
    }

    /** Asks for a session. The messages to it begin right after the answer, which holds its id. */
    method CreateSession() returns (ok: bool)
      requires serverStatus == ServerInvalidSession
      modifies `tick, `serverStatus, `serverProtocolVersion, `serverProductVersion, `serverProcessId, `trace, `id, `sessionStart
      ensures old(trace) <= trace
      ensures UserSends(trace) == old(UserSends(trace))
      ensures ok ==>
                && serverStatus == ServerInvalidSession
                && |old(trace)| < |trace| == sessionStart
                && trace[sessionStart - 1].Sent?
                && trace[sessionStart - 1].input == Input(0, CommandType.CreateSession, clientCapability, false, None)
                && trace[sessionStart - 1].outcome.Answered?
                && trace[sessionStart - 1].outcome.output.id == id
      ensures !ok ==> id == 0
      ensures IsSessionOpened(environment(old(tick)), mozcVersion) ==> ok && tick == old(tick) + 1
      ensures serverStatus != ServerOk
      ensures ok == Created(old(tick)).Some?
      ensures ok ==>
                && tick == Created(old(tick)).value + 1
                && id == AnswerAt(Created(old(tick)).value).id
    {
      hide UserSends, Starts, SendsOf, StatusAfterCheck, Restarted;
      id := 0;
      var input := Input(0, CommandType.CreateSession, clientCapability, false, None);
      var output;
      ok, output := CheckVersionOrRestartServerInternal(input);
      if !ok {
        return;
      }
      if !output.success {
        serverStatus := ServerInvalidSession;
        return false;
      }
      id := output.id;
      sessionStart := |trace|;
    }

    function NextGeneration(): (next: uint64)
      reads `sessionGeneration
      ensures next != 0 && next != sessionGeneration
      ensures next < sessionGeneration ==> next == 1 && sessionGeneration == 0xFFFF_FFFF_FFFF_FFFF
      ensures next > sessionGeneration ==> next == sessionGeneration + 1
    {
      if sessionGeneration == 0xFFFF_FFFF_FFFF_FFFF then 1 else sessionGeneration + 1
    }

    function RequestInput(): Input
      reads `id
      requires request.Some?
    {
      Input(id, SetRequest, request.value, false, None)
    }

    /** All that a new session has got so far: the request, if there is one, and it has answered that. */
    ghost predicate IsRequestTold(events: Trace)
      reads `id
    {
      if request.None? then
        events == []
      else
        && |events| == 1
        && events[0].Sent?
        && events[0].input == RequestInput()
        && events[0].outcome.Answered?
    }

    /** There is a request, but it was not sent, or not answered. The client does not mind. */
    ghost predicate IsRequestLost(events: Trace)
      reads `id
    {
      && request.Some?
      && (events == [] ||
          (|events| == 1 && events[0].Sent? && events[0].input == RequestInput() && !events[0].outcome.Answered?))
    }

    /** What a new session got first, by whether it was told the request. */
    ghost predicate IsBegun(events: Trace, told: bool)
      reads `id
    {
      if told then IsRequestTold(events) else IsRequestLost(events)
    }

    /** The messages to the session begin after those that were sent before, right after the answer that has its id. */
    ghost predicate IsNewSession(sentBefore: nat)
      reads `id, `trace, `sessionStart
    {
      && sentBefore < sessionStart <= |trace|
      && trace[sessionStart - 1].Sent?
      && trace[sessionStart - 1].input.kind == CommandType.CreateSession
      && trace[sessionStart - 1].outcome.Answered?
      && trace[sessionStart - 1].outcome.output.id == id
    }

    /** Choices of the environment that lead to a session from a status. */
    predicate OpensSession(status: ServerStatus, first: nat) {
      if status == ServerInvalidSession then
        IsSessionOpened(environment(first), mozcVersion)
      else
        && (status == ServerUnknown || status == ServerShutdown)
        && environment(first).done
        && IsSessionOpened(environment(first + 1), mozcVersion)
    }

    /** A new session, which then gets the request. */
    method OpenSession() returns (ok: bool, ghost told: bool)
      requires Valid() && serverStatus == ServerInvalidSession
      modifies `tick, `serverStatus, `serverProtocolVersion, `serverProductVersion, `serverProcessId, `trace, `id,
        `sessionStart, `sessionGeneration
      ensures Valid()
      ensures old(trace) <= trace
      ensures UserSends(trace) == old(UserSends(trace))
      ensures if ok then serverStatus == ServerOk else serverStatus != ServerOk
      ensures sessionGeneration == if ok then old(NextGeneration()) else old(sessionGeneration)
      ensures ok ==>
                && IsNewSession(|old(trace)|)
                && IsBegun(trace[sessionStart..], told)
                && (told <==> request.None? || (tick > 0 && IsAnswered(environment(tick - 1))))
      ensures IsSessionOpened(environment(old(tick)), mozcVersion) ==>
                ok && tick == old(tick) + 1 + (if request.Some? then 1 else 0)
      ensures ok == Created(old(tick)).Some?
      ensures ok ==>
                && tick == AfterOpening(Created(old(tick)).value)
                && id == AnswerAt(Created(old(tick)).value).id
    {
      hide UserSends, Starts, SendsOf, StatusAfter, IsConnected, IsAnswered, ProtocolSeen, ProductSeen, IsSessionOpened,
        Created;
      told := true;
      ok := CreateSession();
      if !ok {
        var connected := EnsureConnection();
        return;
      }
      sessionGeneration := NextGeneration();
      assert trace[sessionStart..] == [];
      if request.Some? {
        var called, output;
        forall o: Outcome {
          OneMoreEvent(trace, Sent(RequestInput(), o));
        }
        called, output := Call(RequestInput());
        told := called;
      }
      serverStatus := ServerOk;
    }

    /**
     * A session with a generation other than zero, the present one or a new one. A new one has got the request and
     * nothing else; it was told the request exactly if there is none or its message was answered, which was the last
     * choice of the environment.
     */
    method EnsureSession() returns (ok: bool, ghost told: bool)
      requires Valid()
      modifies `tick, `serverStatus, `serverProtocolVersion, `serverProductVersion, `serverProcessId, `trace, `id,
        `sessionStart, `sessionGeneration
      ensures Valid()
      ensures old(trace) <= trace
      ensures UserSends(trace) == old(UserSends(trace))
      ensures ok ==> serverStatus == ServerOk && sessionGeneration != 0
      ensures !ok ==> serverStatus != ServerOk
      ensures old(serverStatus) == ServerOk ==> ok && trace == old(trace) && id == old(id) && sessionStart == old(sessionStart)
      ensures old(serverStatus) == ServerFatal ==> !ok && serverStatus == ServerFatal && trace == old(trace)
      ensures ok && old(serverStatus) != ServerOk ==>
                && sessionGeneration == old(NextGeneration())
                && IsNewSession(|old(trace)|)
                && IsBegun(trace[sessionStart..], told)
                && (told <==> request.None? || (tick > 0 && IsAnswered(environment(tick - 1))))
      ensures request.None? && ok ==> told
      ensures OpensSession(old(serverStatus), old(tick)) ==>
                ok && tick == old(tick) + (if old(serverStatus) == ServerInvalidSession then 1 else 2)
                              + (if request.Some? then 1 else 0)
      ensures !ok || old(serverStatus) == ServerOk ==> sessionGeneration == old(sessionGeneration)
      ensures old(serverStatus) == ServerOk ==> tick == old(tick)
      ensures old(serverStatus) != ServerOk ==>
                var choice := Opened(old(serverStatus), old(tick));
                && ok == choice.Some?
                && (ok ==> tick == AfterOpening(choice.value) && id == AnswerAt(choice.value).id)
    {
      hide UserSends, Starts, SendsOf, IsAnswered, IsSessionOpened, IsBegun, Created, AfterOpening;
      told := true;
      ok := EnsureConnection();
      if !ok {
        return;
      }
      if serverStatus == ServerOk {
        return;
      }
      assert serverStatus == ServerInvalidSession;
      ok, told := OpenSession();
    }

    // The journal.

    method ResetHistory()
      modifies `historyInputs
      ensures historyInputs == []
    {
      historyInputs := [];
    }

    method DumpQueryOfDeath()
      modifies `historyInputs
      ensures historyInputs == []
    {
      ResetHistory();
    }

    /** Sends the entries of the journal one by one under the present id until one fails. */
    method SendJournal() returns (ghost played: nat)
      requires serverStatus == ServerOk
      modifies `tick, `serverStatus, `serverProtocolVersion, `serverProductVersion, `serverProcessId, `trace, `historyInputs
      ensures |historyInputs| == |old(historyInputs)| && played <= |historyInputs|
      ensures old(trace) <= trace && |old(trace)| + played <= |trace| <= |old(trace)| + played + 1
      ensures IsReplay(trace[|old(trace)|..|old(trace)| + played], old(historyInputs)[..played], id)
      ensures played == |historyInputs| ==>
                && |trace| == |old(trace)| + played
                && historyInputs == Readdressed(old(historyInputs), id)
                && serverStatus == ServerOk
      ensures serverStatus == ServerOk || serverStatus == ServerShutdown || serverStatus.IsFailure()
      ensures AreAnswered(old(tick), played)
      ensures if played < |historyInputs| then !IsAnswered(environment(old(tick) + played)) else tick == old(tick) + played
    {
      hide StatusAfter, IsConnected, IsAnswered, ProtocolSeen, ProductSeen, IsReplay;
      played := 0;
      ghost var start := |trace|;
      ghost var journal := historyInputs;
      NothingReplayed(trace, id);
      assert journal[..0] == [];
      for i := 0 to |historyInputs|
        invariant |historyInputs| == |journal|
        invariant old(trace) <= trace && |trace| == start + i && played == i
        invariant tick == old(tick) + i && AreAnswered(old(tick), i)
        invariant IsReplay(trace[start..], journal[..i], id)
        invariant forall j | 0 <= j < i :: historyInputs[j] == journal[j].(id := id)
        invariant forall j | i <= j < |journal| :: historyInputs[j] == journal[j]
        invariant serverStatus == ServerOk
      {
        historyInputs := historyInputs[i := historyInputs[i].(id := id)];
        ghost var before := trace;
        var ok, output := Call(historyInputs[i]);
        if !ok {
          assert trace[start..start + played] == before[start..];
          break;
        }
        ReplayGrows(before[start..], journal, i, id, output);
        assert trace[start..] == before[start..] + [Sent(historyInputs[i], Answered(output))];
        played := played + 1;
      }
      assert played == |journal| ==> trace[start..start + played] == trace[start..];
    }

    /** Plays the journal back, unless it is full or the session is managed. */
    method PlaybackHistory() returns (ghost played: nat)
      requires Valid() && serverStatus == ServerOk
      modifies `tick, `serverStatus, `serverProtocolVersion, `serverProductVersion, `serverProcessId, `trace, `historyInputs
      ensures Valid()
      ensures old(trace) <= trace
      ensures grimodexManagedSession ==> trace == old(trace) && historyInputs == []
      ensures !grimodexManagedSession ==>
                && played <= |Played(old(historyInputs))|
                && |old(trace)| + played <= |trace| <= |old(trace)| + played + 1
                && IsReplay(trace[|old(trace)|..|old(trace)| + played], Played(old(historyInputs))[..played], id)
      ensures !grimodexManagedSession && played == |Played(old(historyInputs))| ==>
                && |trace| == |old(trace)| + played
                && historyInputs == Readdressed(Played(old(historyInputs)), id)
                && serverStatus == ServerOk
      ensures serverStatus == ServerOk || serverStatus == ServerShutdown || serverStatus.IsFailure()
      ensures !grimodexManagedSession ==>
                var n := |Played(old(historyInputs))|;
                && AreAnswered(old(tick), played)
                && (if played < n then !IsAnswered(environment(old(tick) + played)) else tick == old(tick) + n)
    {
      hide IsReplay, IsAnswered;
      played := 0;
      if grimodexManagedSession {
        historyInputs := [];
        return;
      }
      if |historyInputs| >= MAX_PLAYBACK_SIZE {
        ResetHistory();
        NothingReplayed(trace, id);
        assert trace[|trace|..|trace| + played] == trace[|trace|..];
        return;
      }
      played := SendJournal();
    }

    /** Keeps a consumed input, unless it ends the composition or the session is managed. */
    method PushHistory(input: Input, output: Output)
      requires Valid()
      modifies `historyInputs
      ensures Valid()
      ensures historyInputs == if grimodexManagedSession then [] else Journal(old(historyInputs), input, output)
    {
      if output.consumed != Some(true) {
        return;
      }
      if grimodexManagedSession {
        historyInputs := [];
        return;
      }
      if |historyInputs| < MAX_PLAYBACK_SIZE {
        historyInputs := historyInputs + [input];
      }
      if input.kind == SendKey && output.hasResult {
        ResetHistory();
      }
    }

    /** From the first input with a Grimodex context on, the session is managed and keeps no journal. */
    method PrepareGrimodexManagedInput(input: Input)
      requires Valid() && SentAtMostOnce()
      modifies `grimodexManagedSession, `historyInputs, `mark, `submitted, `positions
      ensures Valid() && SentAtMostOnce() && ReadyToSend(UserSends(trace), input)
      ensures grimodexManagedSession == (old(grimodexManagedSession) || input.grimodex)
      ensures grimodexManagedSession ==>
                && historyInputs == []
                && submitted == (if old(grimodexManagedSession) then old(submitted) else []) + [input]
                && mark == (if old(grimodexManagedSession) then old(mark) else |UserSends(trace)|)
      ensures !grimodexManagedSession ==> historyInputs == old(historyInputs)
    {
      hide UserSends, AtMostOnce;
      if input.grimodex {
        if !grimodexManagedSession {
          mark, submitted, positions := |UserSends(trace)|, [], [];
          NothingSent(UserSends(trace));
        }
        grimodexManagedSession := true;
        historyInputs := [];
      }
      if grimodexManagedSession {
        OneMoreSubmission(UserSends(trace), mark, submitted, positions, input);
        submitted := submitted + [input];
      }
    }

    /** All that the current session got: the request, told or not, a journal in order, one more input, now answered. */
    ghost predicate Received(told: bool, journal: seq<Input>, input: Input, output: Output)
      reads `id, `trace, `sessionStart
    {
      var k := |trace| - |journal| - 1;
      && sessionStart <= k
      && IsBegun(trace[sessionStart..k], told)
      && IsReplay(trace[k..|trace| - 1], journal, id)
      && trace[|trace| - 1] == Sent(input, Answered(output))
    }

    lemma JustReceived(
      before: Trace, middle: Trace, told: bool, journal: seq<Input>, input: Input, output: Output)
      requires sessionStart <= |before| && before <= middle
      requires IsBegun(before[sessionStart..], told)
      requires IsReplay(middle[|before|..], journal, id)
      requires trace == middle + [Sent(input, Answered(output))]
      ensures Received(told, journal, input, output)
    {
      assert trace[sessionStart..|before|] == before[sessionStart..];
      assert trace[|before|..|trace| - 1] == middle[|before|..];
    }

    /** Notes which submission was sent, if it was. */
    ghost method NoteSend(before: Trace, input: Input, sent: Input)
      requires SameSubmission(sent, input) && IsUserKind(input.kind)
      requires ReadyToSend(UserSends(before), input)
      requires trace == before || exists o: Outcome :: trace == before + [Sent(sent, o)]
      modifies `positions
      ensures SentAtMostOnce()
      ensures IsSentOnceOrNot(UserSends(before), UserSends(trace), input)
    {
      hide UserSends, AtMostOnce, LastIsUnsent;
      forall o: Outcome {
        OneMoreEvent(before, Sent(sent, o));
      }
      if grimodexManagedSession {
        OneMoreSend(UserSends(before), mark, submitted, positions, input, sent);
        if trace != before {
          var position: nat := |submitted| - 1;
          positions := positions + [position];
        }
      }
    }

    /** Rebuilds the state of the session that was lost, then sends the input again. */
    method SecondTrial(input: Input, ghost told: bool) returns (ghost replayed: Option<nat>, ok: bool, output: Output)
      requires Valid() && !grimodexManagedSession
      requires serverStatus == ServerOk && sessionStart <= |trace| && IsBegun(trace[sessionStart..], told)
      modifies `tick, `serverStatus, `serverProtocolVersion, `serverProductVersion, `serverProcessId, `trace, `historyInputs
      ensures Valid() && old(trace) <= trace
      ensures replayed != None
      ensures !ok ==> historyInputs == []
      ensures ok && replayed == Some(|Played(old(historyInputs))|) ==>
                && Received(told, Played(old(historyInputs)), Addressed(input), output)
                && historyInputs == Journal(Readdressed(Played(old(historyInputs)), id), Addressed(input), output)
      ensures
        var n := |Played(old(historyInputs))|;
        && (ok && replayed == Some(n) <==> AreAnswered(old(tick), n + 1))
        && (AreAnswered(old(tick), n + 1) ==>
            output == AnswerAt(old(tick) + n) && tick == old(tick) + n + 1)
    {
      hide UserSends, Starts, SendsOf, IsReplay, Played, Readdressed, Journal, IsBegun;
      ghost var before := trace;
      ghost var played := PlaybackHistory();
      replayed := Some(played);
      ghost var middle := trace;
      var current := Addressed(input);
      ok, output := CallAndCheckVersion(current);
      if !ok {
        historyInputs := historyInputs + [current];
        DumpQueryOfDeath();
        return;
      }
      if played == |Played(old(historyInputs))| {
        assert middle[|before|..|before| + played] == middle[|before|..];
        assert Played(old(historyInputs))[..played] == Played(old(historyInputs));
        JustReceived(before, middle, told, Played(old(historyInputs)), current, output);
      }
      PushHistory(current, output);
    }

    /** Sends the input once; the status tells whether that worked and the session was the right one. */
    method FirstTrial(input: Input, current: Input) returns (ok: bool, output: Output)
      requires Valid() && serverStatus == ServerOk
      requires ReadyToSend(UserSends(trace), input) && SameSubmission(current, input) && IsUserKind(input.kind)
      modifies `tick, `serverStatus, `serverProtocolVersion, `serverProductVersion, `serverProcessId, `trace, `positions
      ensures Valid() && SentAtMostOnce() && old(trace) <= trace
      ensures IsSentOnceOrNot(old(UserSends(trace)), UserSends(trace), input)
      ensures serverStatus == ServerOk ==>
                ok && output.id == current.id && trace == old(trace) + [Sent(current, Answered(output))]
      ensures serverStatus in {ServerOk, ServerShutdown, ServerInvalidSession} || serverStatus.IsFailure()
      ensures
        var c := environment(old(tick));
        && tick == old(tick) + 1
        && ok == IsAnswered(c)
        && (ok ==> output == AnswerAt(old(tick)))
        && trace == TraceAfter(old(trace), current, c)
        && (serverStatus == ServerOk <==> IsAnsweredBy(c, current.id))
        && (serverStatus in {ServerShutdown, ServerInvalidSession} <==> IsLoss(c, current.id))
        && (IsLoss(c, current.id) ==> serverStatus == StatusAfterLoss(c))
    {
      hide UserSends, AtMostOnce, LastIsUnsent, IsSentOnceOrNot, TraceAfter;
      ghost var before := trace;
      ok, output := CallAndCheckVersion(current);
      NoteSend(before, input, current);
      if ok && output.id != current.id {
        serverStatus := ServerInvalidSession;
      }
    }

    /** Makes a new session and, unless it is managed, tries again. */
    method Recover(input: Input)
      returns (ghost replayed: Option<nat>, ghost told: bool, ok: bool, output: Output)
      requires Valid() && serverStatus in {ServerShutdown, ServerInvalidSession}
      modifies `tick, `serverStatus, `serverProtocolVersion, `serverProductVersion, `serverProcessId, `trace, `id, `sessionStart,
        `sessionGeneration, `historyInputs
      ensures Valid() && old(trace) <= trace
      ensures grimodexManagedSession ==> !ok && replayed == None && UserSends(trace) == old(UserSends(trace))
      ensures ok ==> replayed != None
      ensures !ok ==> historyInputs == if replayed == None then old(historyInputs) else []
      ensures request.None? && ok ==> told
      ensures ok && replayed == Some(|Played(old(historyInputs))|) ==>
                && IsNewSession(|old(trace)|)
                && Received(told, Played(old(historyInputs)), Addressed(input), output)
                && historyInputs == Journal(Readdressed(Played(old(historyInputs)), id), Addressed(input), output)
      ensures
        var n := |Played(old(historyInputs))|;
        var choice := Retried(old(serverStatus), old(tick), n);
        && (Opened(old(serverStatus), old(tick)) == None ==> !ok && replayed == None)
        && (!grimodexManagedSession ==> (ok && replayed == Some(n) <==> choice.Some?))
        && (!grimodexManagedSession && choice.Some? ==>
            output == AnswerAt(choice.value) && tick == choice.value + 1)
    {
      hide UserSends, Starts, SendsOf, IsReplay, Played, Readdressed, Journal, IsBegun, Opened, AfterOpening, AreAnswered,
        IsAnswered, AnswerAt;
      replayed, output := None, NO_OUTPUT;
      ok, told := EnsureSession();
      if !ok {
        return;
      }
      if grimodexManagedSession {
        historyInputs := [];
        return None, told, false, output;
      }
      ghost var sentBefore := |old(trace)|;
      replayed, ok, output := SecondTrial(input, told);
    }

    /** Sends the input to a session, which may be new, and recovers if that is lost. */
    method CallInSession(input: Input, ghost begun: bool, ghost sentBefore: nat, ghost isNew: bool)
      returns (ok: bool, output: Output, ghost replayed: Option<nat>, ghost told: bool)
      requires Valid() && serverStatus == ServerOk && ReadyToSend(UserSends(trace), input) && IsUserKind(input.kind)
      requires sentBefore <= |trace| && (request.None? ==> begun)
      requires isNew ==> IsNewSession(sentBefore) && IsBegun(trace[sessionStart..], begun)
      modifies `tick, `serverStatus, `serverProtocolVersion, `serverProductVersion, `serverProcessId, `trace, `id,
        `sessionStart, `sessionGeneration, `historyInputs, `positions
      ensures Valid() && SentAtMostOnce()
      ensures old(trace) <= trace
      ensures grimodexManagedSession ==>
                replayed == None && IsSentOnceOrNot(old(UserSends(trace)), UserSends(trace), input)
      ensures !ok ==> historyInputs == if grimodexManagedSession || replayed != None then [] else old(historyInputs)
      ensures request.None? && ok ==> told
      ensures ok && replayed == None ==>
                && output.id == id == old(id) && serverStatus == ServerOk && sessionGeneration != 0
                && trace == old(trace) + [Sent(Addressed(input), Answered(output))]
                && (!grimodexManagedSession ==>
                    historyInputs == Journal(old(historyInputs), Addressed(input), output))
                && (isNew ==> IsNewSession(sentBefore) && Received(told, [], Addressed(input), output))
      ensures ok && replayed == Some(|Played(old(historyInputs))|) ==>
                && !grimodexManagedSession
                && IsNewSession(sentBefore)
                && Received(told, Played(old(historyInputs)), Addressed(input), output)
                && historyInputs == Journal(Readdressed(Played(old(historyInputs)), id), Addressed(input), output)
      ensures
        IsOutcome(grimodexManagedSession, old(tick), old(id), |Played(old(historyInputs))|, ok, output, replayed, tick)
    {
      hide UserSends, Starts, SendsOf, IsReplay, Played, Readdressed, Journal, AtMostOnce, LastIsUnsent, IsSentOnceOrNot,
        IsBegun, Retried, Opened, TraceAfter, IsAnswered, IsLoss, StatusAfterLoss, AnswerAt, IsAnsweredBy, Received;
      replayed, told := None, begun;
      ghost var before := trace;
      var current := Addressed(input);
      ok, output := FirstTrial(input, current);
      if serverStatus.IsFailure() {
        return false, output, None, told;
      }
      if serverStatus == ServerShutdown || serverStatus == ServerInvalidSession {
        replayed, told, ok, output := Recover(input);
        return;
      }
      if isNew {
        NothingReplayed(before, id);
        JustReceived(before, before, told, [], current, output);
      }
      PushHistory(current, output);
    }

    /**
     * Sends an input, in a new session if the present one is lost.
     *
     * When the loss shows in the answer to the input itself, a session that is not managed is rebuilt: `replayed` then
     * is the number of journal entries that were answered before the input was sent again. A managed session is never
     * rebuilt, and its input is not sent again.
     */
    method EnsureCallCommand(input: Input)
      returns (ok: bool, output: Output, ghost replayed: Option<nat>, ghost told: bool)
      requires Valid() && SentAtMostOnce() && IsUserKind(input.kind)
      modifies this
      ensures Valid() && SentAtMostOnce()
      ensures old(trace) <= trace && preferences == old(preferences)
      ensures old(serverStatus) == ServerFatal ==> !ok && serverStatus == ServerFatal && trace == old(trace)
      ensures grimodexManagedSession == (old(grimodexManagedSession) || input.grimodex)
      ensures grimodexManagedSession ==>
                && submitted == (if old(grimodexManagedSession) then old(submitted) else []) + [input]
                && mark == (if old(grimodexManagedSession) then old(mark) else |old(UserSends(trace))|)
                && IsSentOnceOrNot(old(UserSends(trace)), UserSends(trace), input)
                && replayed == None
      ensures !ok ==> historyInputs == if grimodexManagedSession || replayed != None then [] else old(historyInputs)
      ensures request.None? && ok ==> told
      ensures ok && replayed == None ==>
                && output.id == id && serverStatus == ServerOk && sessionGeneration != 0
                && (!grimodexManagedSession ==>
                    historyInputs == Journal(old(historyInputs), Addressed(input), output))
      ensures ok && replayed == None && old(serverStatus) == ServerOk ==>
                trace == old(trace) + [Sent(Addressed(input), Answered(output))] && id == old(id)
      ensures ok && replayed == None && old(serverStatus) != ServerOk ==>
                IsNewSession(|old(trace)|) && Received(told, [], Addressed(input), output)
      ensures ok && replayed == Some(|Played(old(historyInputs))|) ==>
                && !grimodexManagedSession
                && IsNewSession(|old(trace)|)
                && Received(told, Played(old(historyInputs)), Addressed(input), output)
                && historyInputs == Journal(Readdressed(Played(old(historyInputs)), id), Addressed(input), output)
      ensures
        var sending := Sending(old(serverStatus), old(tick));
        var n := if grimodexManagedSession then 0 else |Played(old(historyInputs))|;
        if sending == None then
          !ok && replayed == None
        else
          var session := SessionAt(old(serverStatus), old(tick), old(id));
          && IsOutcome(grimodexManagedSession, sending.value, session, n, ok, output, replayed, tick)
          && (ok && replayed == None ==> id == session)
    {
      hide UserSends, Starts, SendsOf, IsReplay, Played, Readdressed, Journal, AtMostOnce, LastIsUnsent, IsSentOnceOrNot,
        IsBegun, Opened, AfterOpening, IsOutcome;
      output, replayed, told := NO_OUTPUT, None, true;
      PrepareGrimodexManagedInput(input);
      NothingPlayed();
      ok, told := EnsureSession();
      if !ok {
        NothingSentInBetween(UserSends(trace), input);
        return;
      }
      ok, output, replayed, told := CallInSession(input, told, |old(trace)|, old(serverStatus) != ServerOk);
    }

    // The other public calls.

    /** Makes sure that a server of the right version is running. */
    method CheckVersionOrRestartServer() returns (ok: bool)
      requires Valid() && SentAtMostOnce()
      modifies `tick, `serverStatus, `serverProtocolVersion, `serverProductVersion, `serverProcessId, `trace
      ensures Valid() && SentAtMostOnce() && old(trace) <= trace
      ensures UserSends(trace) == old(UserSends(trace))
      ensures ok ==> !serverStatus.IsFailure()
      ensures !ok ==> serverStatus == ServerFatal
      ensures
        var choice := Checked(old(serverStatus), old(serverProtocolVersion), old(tick));
        var status := StatusAfterCheck(old(serverStatus), old(serverProtocolVersion), old(tick));
        && (choice.Some? ==> ok && tick == choice.value + 1 && serverStatus == status)
        && (choice == None && status.IsFailure() ==> !ok)
      ensures SendsOf(trace, VERSION_CHECK) <= old(SendsOf(trace, VERSION_CHECK)) + 2
      ensures Starts(trace) <= old(Starts(trace)) + 2
      ensures old(serverStatus) == ServerFatal ==>
                (IsOnlyShown(trace[|old(trace)|..]) <==> old(serverProtocolVersion) >= IPC_PROTOCOL_VERSION)
      ensures old(serverStatus) == ServerFatal && old(serverProtocolVersion) < IPC_PROTOCOL_VERSION ==>
                IsForced(trace, |old(trace)|, environment(old(tick)).done, environment(old(tick) + 2).done)
    {
      hide UserSends, Starts, SendsOf, AtMostOnce, IsSessionOpened, Checked, StatusAfterCheck;
      var output;
      ok, output := CheckVersionOrRestartServerInternal(VERSION_CHECK);
      assert old(serverStatus) == ServerFatal && trace != old(trace) ==> !trace[|old(trace)|].FatalShown?;
      if !ok {
        ok := EnsureConnection();
      }
    }

    method DeleteSession() returns (ok: bool)
      requires Valid() && SentAtMostOnce()
      modifies `tick, `serverStatus, `serverProtocolVersion, `serverProductVersion, `serverProcessId, `trace, `id
      ensures Valid() && SentAtMostOnce() && old(trace) <= trace
      ensures UserSends(trace) == old(UserSends(trace))
      ensures ok ==> id == 0
      ensures !ok ==> id == old(id)
      ensures old(id) == 0 ==> ok && trace == old(trace)
      ensures ok && old(id) != 0 ==>
                exists o: Output :: trace == old(trace) + [Sent(old(Command(CommandType.DeleteSession)), Answered(o))]
      ensures old(id) != 0 ==> ok == (!old(serverStatus).IsFailure() && IsAnswered(environment(old(tick))))
    {
      hide UserSends, Starts, SendsOf, AtMostOnce;
      if id == 0 {
        return true;
      }
      ok := CallCommand(CommandType.DeleteSession);
      if !ok {
        return;
      }
      id := 0;
    }

    method Reset()
      requires Valid() && SentAtMostOnce()
      modifies `tick, `serverStatus, `serverProtocolVersion, `serverProcessId
      ensures Valid() && SentAtMostOnce()
      ensures serverStatus == ServerUnknown && serverProtocolVersion == 0 && serverProcessId == 0
    {
      serverStatus := ServerUnknown;
      serverProtocolVersion := 0;
      serverProcessId := 0;
    }

    // Runs.

    /**
     * Any public calls, one after the other, and what holds after all of them. `sends` is what was sent of the user's
     * inputs before every call, and at last after all of them. From the first input with a Grimodex context on, or from
     * the beginning if there was one before, every call sends its own input once or not at all, and no other one.
     */
    method Run(calls: seq<PublicCall>) returns (ghost sends: seq<seq<Input>>)
      requires Valid() && SentAtMostOnce()
      modifies this
      ensures Valid() && SentAtMostOnce() && old(trace) <= trace
      ensures |sends| == |calls| + 1 && sends[0] == old(UserSends(trace)) && sends[|calls|] == UserSends(trace)
      ensures grimodexManagedSession == (old(grimodexManagedSession) || FirstGrimodex(calls) < |calls|)
      ensures grimodexManagedSession ==> historyInputs == []
      ensures
        var first := if old(grimodexManagedSession) then 0 else FirstGrimodex(calls);
        forall i | first <= i < |calls| :: IsSentBy(calls[i], sends[i], sends[i + 1])
      ensures
        var first := if old(grimodexManagedSession) then 0 else FirstGrimodex(calls);
        exists positions :: AtMostOnce(UserSends(trace), |sends[first]|, Submissions(calls[first..]), positions)
      ensures old(grimodexManagedSession) ==> submitted == old(submitted) + Submissions(calls) && mark == old(mark)
      ensures !old(grimodexManagedSession) && grimodexManagedSession ==>
                && submitted == Submissions(calls[FirstGrimodex(calls)..])
                && mark == |sends[FirstGrimodex(calls)]|
      ensures old(serverStatus) == ServerFatal && (forall call | call in calls :: call.Submit?) ==>
                serverStatus == ServerFatal && trace == old(trace)
    {
      hide UserSends, Starts, SendsOf, AtMostOnce, Journal, Readdressed, Played, IsReplay, IsSentOnceOrNot, IsBegun,
        FirstGrimodex, Submissions, IsNewSession, IsOnlyShown, IsForced;
      ghost var first := if old(grimodexManagedSession) then 0 else FirstGrimodex(calls);
      sends := [UserSends(trace)];
      NoSubmissions();
      for i := 0 to |calls|
        invariant Valid() && SentAtMostOnce() && old(trace) <= trace
        invariant |sends| == i + 1 && sends[0] == old(UserSends(trace)) && sends[i] == UserSends(trace)
        invariant grimodexManagedSession == (old(grimodexManagedSession) || first < i)
        invariant forall j | first <= j < i :: IsSentBy(calls[j], sends[j], sends[j + 1])
        invariant old(grimodexManagedSession) ==>
                    submitted == old(submitted) + Submissions(calls[..i]) && mark == old(mark)
        invariant !old(grimodexManagedSession) && first < i ==>
                    submitted == Submissions(calls[first..i]) && mark == |sends[first]|
        invariant old(serverStatus) == ServerFatal && (forall call | call in calls :: call.Submit?) ==>
                    serverStatus == ServerFatal && trace == old(trace)
      {
        assert calls[i] in calls;
        OneMoreCall(calls, 0, i);
        if first <= i {
          OneMoreCall(calls, first, i);
        }
        ghost var before := submitted;
        RunCall(calls[i]);
        if old(grimodexManagedSession) {
          SubmittedBy(old(submitted), Submissions(calls[..i]), calls[i]);
        }
        sends := sends + [UserSends(trace)];
      }
      assert calls[..|calls|] == calls && calls[first..|calls|] == calls[first..];
      ghost var positions := SentInOrder(calls[first..], sends[first..]);
    }

    method RunCall(call: PublicCall)
      requires Valid() && SentAtMostOnce()
      modifies this
      ensures Valid() && SentAtMostOnce() && old(trace) <= trace
      ensures grimodexManagedSession == (old(grimodexManagedSession) || IsGrimodex(call))
      ensures old(grimodexManagedSession) ==> submitted == old(submitted) + SubmittedIn(call) && mark == old(mark)
      ensures !old(grimodexManagedSession) && IsGrimodex(call) ==>
                submitted == SubmittedIn(call) && mark == |old(UserSends(trace))|
      ensures grimodexManagedSession ==> IsSentBy(call, old(UserSends(trace)), UserSends(trace))
      ensures old(serverStatus) == ServerFatal && call.Submit? ==> serverStatus == ServerFatal && trace == old(trace)
    {
      hide UserSends, Starts, SendsOf, AtMostOnce, Journal, Readdressed, Played, IsReplay, IsSentOnceOrNot, IsBegun,
        IsNewSession, IsOnlyShown, IsForced;
      var ok;
      match call {
        case Submit(input) =>
          var output;
          ghost var replayed, told;
          ok, output, replayed, told := EnsureCallCommand(input);
        case Notify(kind) =>
          ok := CallCommand(kind);
        case CheckVersion =>
          ok := CheckVersionOrRestartServer();
        case Stop =>
          ok := Shutdown();
        case Delete =>
          ok := DeleteSession();
        case ResetStatus =>
          Reset();
      }
    }
  }
}
