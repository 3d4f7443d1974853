/** Runs of the client with a certain environment, where it does not do what one might expect of it. */
module ClientExamples {
  import opened Wrappers
  import opened Client

  const OWN_VERSION := "2.29"

  const REACHED := Connected(IPC_PROTOCOL_VERSION, OWN_VERSION, 1)

  /** The server starts and opens a session, then it is lost with the request. */
  function LosesRequest(n: nat): Choice {
    if n == 0 then Choice(Unreachable, Lost, true)
    else if n == 1 then Choice(REACHED, Answered(Output(7, true, None, false)), true)
    else Choice(REACHED, Lost, true)
  }

  /** A session is taken to be in order although the server never answered its request. */
  method RequestMayBeLost() returns (client: Client, ghost told: bool)
    ensures client.serverStatus == ServerOk && client.request.Some? && !told
    ensures client.sessionStart <= |client.trace| && client.IsRequestLost(client.trace[client.sessionStart..])
  {
    client := new Client(LosesRequest, OWN_VERSION, Some("request"), "");
    var ok;
    ok, told := client.EnsureSession();
  }

  /** The first start fails, everything after that is done. */
  function FailsOnce(n: nat): Choice {
    Choice(Unreachable, Lost, n > 0)
  }

  /** From the fatal status, a version check terminates a server and starts one. */
  method FatalIsNotTheEnd() returns (client: Client, ghost status: ServerStatus, ghost before: Trace)
    ensures status == ServerFatal && before == [Started(false), FatalShown(FatalError)]
    ensures before <= client.trace && IsForced(client.trace, |before|, true, true)
  {
    client := new Client(FailsOnce, OWN_VERSION, None, "");
    var ok := client.EnsureConnection();
    status, before := client.serverStatus, client.trace;
    ok := client.CheckVersionOrRestartServer();
  }
}
