/** The protocol end to end: what a discovery agent broadcasts, what a peer's
    handler makes of it, and what the agent's own handler makes of the
    answer.  Both sides share the codec, the calendar and the generator. */
module Protocol {
  import opened Errors
  import opened GoLib
  import opened DiscoModel
  import opened Security
  import opened Platform
  import opened DiscoHandler
  import opened DiscoAgent

  /** The plaintext an agent's request carries. */
  function PlainRequest(token: Bytes, ip: Bytes, port: Bytes): DiscoveryPkg {
    DiscoveryPkg(DiscoveryRequest, token, [], [], ip, port, [])
  }

  /** The plaintext a handler's response carries. */
  function PlainResponse(token: Bytes, appIp: Bytes, appPort: Bytes, hostname: Bytes): DiscoveryPkg {
    DiscoveryPkg(DiscoveryPackage, token, appIp, appPort, [], [], hostname)
  }

  /** Every field of a request seals cleanly: the key is usable, the token
      exists and none of the ciphertexts contains a '/'. */
  predicate RequestSealsCleanly(env: Env, ip: Bytes, port: Bytes) {
    && DayToken(env).Ok?
    && SealsCleanly(env.codec, DayToken(env).value)
    && SealsCleanly(env.codec, ip)
    && SealsCleanly(env.codec, port)
  }

  predicate ResponseSealsCleanly(env: Env, appIp: Bytes, appPort: Bytes) {
    && DayToken(env).Ok? && env.hostname.Ok?
    && SealsCleanly(env.codec, DayToken(env).value)
    && SealsCleanly(env.codec, appIp)
    && SealsCleanly(env.codec, appPort)
    && SealsCleanly(env.codec, env.hostname.value)
  }

  /** A request that seals cleanly decrypts, field by field, to what the
      agent put in it; the fields it left empty decrypt to "". */
  lemma RequestRoundTrip(env: Env, ip: Bytes, port: Bytes)
    requires RequestSealsCleanly(env, ip, port)
    ensures EncryptedDefaultRequest(env, ip, port).Ok?
    ensures var req := EncryptedDefaultRequest(env, ip, port).value;
            && PkgDecodeSafe(env.codec, req)
            && DecryptedPkg(env.codec, req) == Ok(PlainRequest(DayToken(env).value, ip, port))
  {
    var codec := env.codec;
    DecryptSealed(codec, DayToken(env).value);
    DecryptSealed(codec, ip);
    DecryptSealed(codec, port);
    DecryptEmptyField(codec);
  }

  /** A response that seals cleanly decrypts to what the handler put in it. */
  lemma ResponseRoundTrip(env: Env, appIp: Bytes, appPort: Bytes)
    requires ResponseSealsCleanly(env, appIp, appPort)
    ensures BuildDefaultEncryptedDiscoveryResponse(env, appIp, appPort).Ok?
    ensures var resp := BuildDefaultEncryptedDiscoveryResponse(env, appIp, appPort).value;
            && PkgDecodeSafe(env.codec, resp)
            && DecryptedPkg(env.codec, resp) == Ok(PlainResponse(DayToken(env).value, appIp, appPort, env.hostname.value))
  {
    var codec := env.codec;
    DecryptSealed(codec, DayToken(env).value);
    DecryptSealed(codec, appIp);
    DecryptSealed(codec, appPort);
    DecryptSealed(codec, env.hostname.value);
    DecryptEmptyField(codec);
  }

  /** A peer's handler answers an agent's request sent the same day, to the
      address and port the request names, unless the request is its own. */
  lemma RequestAnsweredByPeer(env: Env, peer: DiscoveryHandler, ip: Bytes, port: Bytes)
    requires RequestSealsCleanly(env, ip, port)
    requires peer.appIp != []
    ensures EncryptedDefaultRequest(env, ip, port).Ok?
    ensures var req := EncryptedDefaultRequest(env, ip, port).value;
            && PkgDecodeSafe(env.codec, req)
            && peer.Decide(DecryptedPkg(env.codec, req), DayToken(env)) ==
                 (if ip != peer.appIp then Respond(PlainRequest(DayToken(env).value, ip, port)) else Drop)
  {
    RequestRoundTrip(env, ip, port);
  }

  /** The agent's handler records the peer that answered, at the address,
      port and host name the answer carries; an answer whose port is not a
      number is refused. */
  lemma ResponseRecordedByAgent(env: Env, agent: DiscoveryHandler, appIp: Bytes, appPort: Bytes)
    requires ResponseSealsCleanly(env, appIp, appPort)
    requires agent.appIp != []
    ensures BuildDefaultEncryptedDiscoveryResponse(env, appIp, appPort).Ok?
    ensures var resp := BuildDefaultEncryptedDiscoveryResponse(env, appIp, appPort).value;
            && PkgDecodeSafe(env.codec, resp)
            && agent.Decide(DecryptedPkg(env.codec, resp), DayToken(env)) ==
                 match Atoi(appPort)
                 case Ok(port) => Enqueue(DiscoveredTarget(0, appIp, port, env.hostname.value, []))
                 case Err(e) => Fail(PortNotInt(e))
  {
    ResponseRoundTrip(env, appIp, appPort);
  }

  /** A request sealed on January 11 is still answered on November 1 of the
      same year: the two days share their seed, hence their token. */
  lemma RequestReplayedAcrossAmbiguousDays(sender: Env, receiver: Env, peer: DiscoveryHandler,
                                           ip: Bytes, port: Bytes, y: int)
    requires sender.codec == receiver.codec && sender.prng == receiver.prng
    requires sender.dateAt(0) == Date(1, 11, y) && receiver.dateAt(0) == Date(11, 1, y)
    requires RequestSealsCleanly(sender, ip, port)
    requires peer.appIp != [] && ip != peer.appIp
    ensures var req := EncryptedDefaultRequest(sender, ip, port).value;
            && PkgDecodeSafe(receiver.codec, req)
            && peer.Decide(DecryptedPkg(receiver.codec, req), DayToken(receiver)).Respond?
  {
    SeedAmbiguous(y);
    assert DayToken(sender) == DayToken(receiver);
    RequestRoundTrip(sender, ip, port);
  }

  /** With a generator that maps distinct seeds to distinct outputs, a
      request sealed one day is dropped the next. */
  lemma StaleRequestDropped(sender: Env, receiver: Env, peer: DiscoveryHandler, ip: Bytes, port: Bytes)
    requires sender.codec == receiver.codec && sender.prng == receiver.prng
    requires forall a, b :: sender.prng(a) == sender.prng(b) ==> a == b
    requires ValidDate(sender.dateAt(0)) && receiver.dateAt(0) == NextDay(sender.dateAt(0))
    requires RequestSealsCleanly(sender, ip, port) && DayToken(receiver).Ok?
    requires peer.appIp != []
    ensures var req := EncryptedDefaultRequest(sender, ip, port).value;
            && PkgDecodeSafe(receiver.codec, req)
            && peer.Decide(DecryptedPkg(receiver.codec, req), DayToken(receiver)) == Drop
  {
    var d := sender.dateAt(0);
    ConsecutiveDaysDiffer(d);
    assert Seed(d).Ok? && Seed(NextDay(d)).Ok?;
    ItoaInjective(sender.prng(Seed(d).value), sender.prng(Seed(NextDay(d)).value));
    assert DayToken(sender) != DayToken(receiver);
    RequestRoundTrip(sender, ip, port);
  }
}
