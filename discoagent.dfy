/** The discovery agent's side of the protocol (main/discoagent.go): the
    port it listens on, the request it broadcasts and how its server loop is
    configured. */
module DiscoAgent {
  import opened Errors
  import opened GoLib
  import opened DiscoModel
  import opened Security
  import opened Platform

  /** DEFAULT_TIMEOUT: thirty seconds, as a time.Duration (nanoseconds). */
  const DefaultTimeout: int := 30 * 1_000_000_000

  const RequestErrorHeader: string := "Error while encrypting Discovery Request:"

  /** The listening port once handleMissingDiscoveryServerPort has run. */
  function DefaultedPort(port: Bytes): (r: Bytes)
    ensures r != []
    ensures port != [] ==> r == port
  {
    if port == [] then DiscoveryPort else port
  }

  /** Filling in the default port a second time changes nothing. */
  lemma DefaultedPortIdempotent(port: Bytes)
    ensures DefaultedPort(DefaultedPort(port)) == DefaultedPort(port)
    ensures port == [] ==> Atoi(DefaultedPort(port)) == Ok(6666)
  {
    if port == [] {
      DiscoveryPortIs6666();
    }
  }

  /** BuildEncryptedDefaultDiscoveryRequest for a given listening port: a
      REQUEST carrying the day's token and the agent's address, each sealed,
      or a report of every step that failed.  The token is encrypted even
      when its generation failed (as the empty string). */
  function EncryptedDefaultRequest(env: Env, discoServerIp: Bytes, port: Bytes): (r: Result<DiscoveryPkg>)
    ensures r.Ok? <==> ValidKeySize(|env.codec.key|) && DayToken(env).Ok?
    ensures r.Ok? ==> r.value == DiscoveryPkg(DiscoveryRequest,
                                   Sealed(env.codec, DayToken(env).value),
                                   [], [],
                                   Sealed(env.codec, discoServerIp),
                                   Sealed(env.codec, port),
                                   [])
    ensures r.Err? ==> r.error.Report? && r.error.header == RequestErrorHeader
    // One entry for a failed token, three for an unusable key.
    ensures r.Err? ==>
              && r.error.Report?
              && |r.error.entries| == (if DayToken(env).Err? then 1 else 0) + (if ValidKeySize(|env.codec.key|) then 0 else 3)
  {
    var codec := env.codec;
    var token := DayToken(env);
    var validation := Encrypt(codec, token.GetOr([]));
    var requesterIp := Encrypt(codec, discoServerIp);
    var requesterPort := Encrypt(codec, port);
    var steps := [Step("Token Generate error", token.Failure()),
                  Step("Package validation error", validation.Failure()),
                  Step("Public Requester Ip error", requesterIp.Failure()),
                  Step("Public Requester Port error", requesterPort.Failure())];
    NoFailuresOfFour(steps[0], steps[1], steps[2], steps[3]);
    FailureCountOfFour(steps[0], steps[1], steps[2], steps[3]);
    assert steps == [steps[0], steps[1], steps[2], steps[3]];
    var failures := Failures(steps);
    if failures != [] then
      Err(Report(RequestErrorHeader, failures))
    else
      Ok(DiscoveryPkg(DiscoveryRequest,
                      HideLength(validation.value, |token.value|),
                      [], [],
                      HideLength(requesterIp.value, |discoServerIp|),
                      HideLength(requesterPort.value, |port|),
                      []))
  }

  /** How StartDiscoveryServer runs: not at all when the socket could not be
      opened, forever without a stop channel, or with a read deadline of
      `timeout` nanoseconds between checks of the stop channel. */
  datatype ServerRun = NotStarted(error: Error) | Forever | UntilStopped(timeout: int)

  class DiscoveryAgent {
    var discoveryServerPort: Bytes
    /** Whether a stop channel was supplied (StopDiscoveryServer != nil). */
    var stopDiscoveryServer: bool
    /** ServerTimeout, in nanoseconds. */
    var serverTimeout: int

    constructor (discoveryServerPort: Bytes, stopDiscoveryServer: bool, serverTimeout: int)
      ensures this.discoveryServerPort == discoveryServerPort
      ensures this.stopDiscoveryServer == stopDiscoveryServer
      ensures this.serverTimeout == serverTimeout
    {
      this.discoveryServerPort := discoveryServerPort;
      this.stopDiscoveryServer := stopDiscoveryServer;
      this.serverTimeout := serverTimeout;
    }

    /** handleMissingDiscoveryServerPort */
    method HandleMissingDiscoveryServerPort()
      modifies this
      ensures discoveryServerPort == DefaultedPort(old(discoveryServerPort))
      ensures old(discoveryServerPort) == [] ==> discoveryServerPort == DiscoveryPort
      ensures stopDiscoveryServer == old(stopDiscoveryServer) && serverTimeout == old(serverTimeout)
    {
      if discoveryServerPort == [] {
        discoveryServerPort := DiscoveryPort;
      }
    }

    /** BuildEncryptedDefaultDiscoveryRequest: fills in the port, then seals
        the token, the given address and the port. */
    method BuildEncryptedDefaultDiscoveryRequest(env: Env, discoServerIp: Bytes) returns (r: Result<DiscoveryPkg>)
      modifies this
      ensures discoveryServerPort == DefaultedPort(old(discoveryServerPort))
      ensures stopDiscoveryServer == old(stopDiscoveryServer) && serverTimeout == old(serverTimeout)
      ensures r == EncryptedDefaultRequest(env, discoServerIp, discoveryServerPort)
    {
      HandleMissingDiscoveryServerPort();
      var codec := env.codec;
      var token := NewDayToken(env);
      var encrPkgValidation := EncryptCFB(codec, token.GetOr([]));
      var encrLocalRequesterIp := EncryptCFB(codec, discoServerIp);
      var encrLocalRequesterPort := EncryptCFB(codec, discoveryServerPort);
      var steps := [Step("Token Generate error", token.Failure()),
                    Step("Package validation error", encrPkgValidation.Failure()),
                    Step("Public Requester Ip error", encrLocalRequesterIp.Failure()),
                    Step("Public Requester Port error", encrLocalRequesterPort.Failure())];
      NoFailuresOfFour(steps[0], steps[1], steps[2], steps[3]);
      assert steps == [steps[0], steps[1], steps[2], steps[3]];
      var failures := Failures(steps);
      if failures != [] {
        return Err(Report(RequestErrorHeader, failures));
      }
      return Ok(DiscoveryPkg(DiscoveryRequest,
                             HideLength(encrPkgValidation.value, |token.value|),
                             [], [],
                             HideLength(encrLocalRequesterIp.value, |discoServerIp|),
                             HideLength(encrLocalRequesterPort.value, |discoveryServerPort|),
                             []));
    }

    /** StartDiscoveryServer up to its receive loop.  `listen(port)` is the
        outcome of resolving ":port" and listening on it; the port is filled
        in first whatever that outcome.  With a stop channel, a zero timeout
        becomes thirty seconds, so the loop never sets a deadline of "now". */
    method StartDiscoveryServer(listen: Bytes -> Option<Error>) returns (run: ServerRun)
      modifies this
      ensures discoveryServerPort == DefaultedPort(old(discoveryServerPort))
      ensures stopDiscoveryServer == old(stopDiscoveryServer)
      ensures run.NotStarted? <==> listen(discoveryServerPort).Some?
      ensures run.NotStarted? ==> run.error == listen(discoveryServerPort).value && serverTimeout == old(serverTimeout)
      ensures run.Forever? <==> listen(discoveryServerPort).None? && !stopDiscoveryServer
      ensures run.Forever? ==> serverTimeout == old(serverTimeout)
      ensures run.UntilStopped? ==>
                && serverTimeout == (if old(serverTimeout) == 0 then DefaultTimeout else old(serverTimeout))
                && run.timeout == serverTimeout && run.timeout != 0
    {
      HandleMissingDiscoveryServerPort();
      var e := listen(discoveryServerPort);
      if e.Some? {
        return NotStarted(e.value);
      }
      if !stopDiscoveryServer {
        return Forever;
      }
      if serverTimeout == 0 {
        serverTimeout := DefaultTimeout;
      }
      return UntilStopped(serverTimeout);
    }
  }
}
