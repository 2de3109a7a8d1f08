/** The default discovery handler (impl/discohandlerimpl.go): it decrypts a
    received package field by field, checks its token against the day's, and
    answers a peer's request, records a peer's package, or drops it. */
module DiscoHandler {
  import opened Errors
  import opened GoLib
  import opened DiscoModel
  import opened Security
  import opened Platform

  // ===========================================================================
  // decryptCFBString

  /** The marker decryptCFBString finds ("" when there is none), the
      ciphertext with that marker removed, and the length the marker spells. */
  datatype Unframed = Unframed(hiddenLength: Bytes, cleanEncrypted: Bytes, cleanLength: int)

  /** The three framing steps of decryptCFBString.  Their errors are
      overwritten before anyone reads them, so a failed step shows only
      through the value Go returns beside its error. */
  function Unframe(encrypted: Bytes): (u: Unframed)
    ensures FindLength(encrypted).Err? ==> u == Unframed([], encrypted, 0)
  {
    var hiddenLength := FindLength(encrypted).GetOr([]);
    var cleanLength := AtoiValue(RemovePatternAttrsFromLength(hiddenLength));
    Unframed(hiddenLength, RemoveLength(encrypted, hiddenLength), cleanLength)
  }

  /** decryptCFBString on this field does not panic in DecryptCFB. */
  predicate DecodeSafe(codec: Codec, encrypted: Bytes) {
    var u := Unframe(encrypted);
    DecryptWillNotPanic(codec, u.cleanEncrypted, u.cleanLength)
  }

  /** decryptCFBString: unframe, then decrypt with the parsed length.  Only
      DecryptCFB's error comes back, so the result fails exactly when the key
      is unusable, whatever the framing. */
  function DecryptCfbString(codec: Codec, encrypted: Bytes): (r: Result<Bytes>)
    requires DecodeSafe(codec, encrypted)
    ensures r.Ok? <==> ValidKeySize(|codec.key|)
    ensures r.Err? ==> r.error == InvalidKeySize(|codec.key|)
  {
    var u := Unframe(encrypted);
    Decrypt(codec, u.cleanEncrypted, u.cleanLength)
  }

  /** decryptCFBString inverts the builders' sealing of a field whose
      ciphertext holds no '/'. */
  lemma DecryptSealed(codec: Codec, plain: Bytes)
    requires SealsCleanly(codec, plain)
    ensures DecodeSafe(codec, Sealed(codec, plain))
    ensures DecryptCfbString(codec, Sealed(codec, plain)) == Ok(plain)
  {
    var c := Encrypt(codec, plain).value;
    FramingRoundTrip(c, |plain|);
    EncryptDecryptRoundTrip(codec, plain);
  }

  /** A field the builder left empty decodes to "" without an error: the
      missing marker is forgotten and the parsed length is 0. */
  lemma DecryptEmptyField(codec: Codec)
    requires ValidKeySize(|codec.key|)
    ensures DecodeSafe(codec, []) && DecryptCfbString(codec, []) == Ok([])
  {
    assert FindLength([]).Err?;
    assert Unframe([]) == Unframed([], [], 0);
    assert Cfb(codec, CommonIV, [], true) == [];
  }

  /** A field with no marker at all is decodable only when it is empty; any
      other unmarked field makes DecryptCFB panic on a zero length. */
  lemma UnmarkedFieldDecodableOnlyIfEmpty(codec: Codec, encrypted: Bytes)
    requires ValidKeySize(|codec.key|) && FindLength(encrypted).Err?
    ensures DecodeSafe(codec, encrypted) <==> encrypted == []
  {
  }

  /** A ciphertext that spells a marker itself is misread: "//99//AAAAAA"
      sealed with its length 12 decodes to 99 bytes. */
  lemma CollidingFieldDecodesWrongLength(codec: Codec)
    requires ValidKeySize(|codec.key|)
    ensures var c := LengthMarker(99) + seq(6, _ => 65 as bv8);
            var framed := HideLength(c, |c|);
            DecodeSafe(codec, framed) && |DecryptCfbString(codec, framed).value| == 99 != |c|
  {
    var c := LengthMarker(99) + seq(6, _ => 65 as bv8);
    var framed := HideLength(c, |c|);
    var m := LengthMarker(99);
    CollidingCiphertextMisframes();
    RemovePatternOfLengthMarker(99);
    assert OccursAt(framed, m, 0) by {
      assert framed[..6] == m;
    }
    assert FirstOccurrence(framed, m, 0);
    assert |RemoveLength(framed, m)| == |framed| - |m|;
  }

  /** A ciphertext of four '/' sealed with its length: the leftmost marker is
      "////" itself, which parses to nothing (length 0), so DecryptCFB would
      panic on the five bytes left. */
  lemma SlashRunFieldPanics(codec: Codec)
    requires ValidKeySize(|codec.key|)
    ensures !DecodeSafe(codec, HideLength(seq(4, _ => Slash), 4))
  {
    var c := seq(4, _ => Slash);
    var framed := HideLength(c, 4);
    assert |Itoa(4)| == 1;
    var m := framed[0..4];
    assert m == c;
    assert IsMarker(m);
    assert MarkerEndAt(framed, 0) == Some(4);
    assert FindFrom(framed, 0) == Some((0, 4));
    assert FindLength(framed) == Ok(m);
    RemovePatternOfMarker(m);
    assert m[2..2] == [];
    assert AtoiValue(RemovePatternAttrsFromLength(m)) == 0;
    assert FirstOccurrence(framed, m, 0);
    assert |RemoveLength(framed, m)| == 5;
  }

  /** A field framed with a length above MaxAlloc makes DecryptCFB panic in
      `make`, even though the marker parses: "//281474976710657//" alone is
      such a field. */
  lemma OversizedLengthPanics(codec: Codec, n: int)
    requires ValidKeySize(|codec.key|) && MaxAlloc < n <= MaxInt
    ensures !DecodeSafe(codec, HideLength([], n))
  {
    FramingRoundTrip([], n);
  }

  // ===========================================================================
  // decryptDiscoveryPkg

  /** Every field of the package can be handed to decryptCFBString. */
  predicate PkgDecodeSafe(codec: Codec, p: DiscoveryPkg) {
    && DecodeSafe(codec, p.pkgValidation)
    && DecodeSafe(codec, p.appServerIp)
    && DecodeSafe(codec, p.appServerPort)
    && DecodeSafe(codec, p.requesterIp)
    && DecodeSafe(codec, p.requesterPort)
    && DecodeSafe(codec, p.alias)
  }

  /** The six decryptions in the source's order, labelled as in its report. */
  function DecryptSteps(serverPort: Result<Bytes>, serverIp: Result<Bytes>, validation: Result<Bytes>,
                        requesterIp: Result<Bytes>, requesterPort: Result<Bytes>, alias: Result<Bytes>): (r: seq<Step>)
    ensures |r| == 6
  {
    [Step("Server Port error", serverPort.Failure()),
     Step("Local Server Ip error", serverIp.Failure()),
     Step("Package validation error", validation.Failure()),
     Step("Local Requester Ip error", requesterIp.Failure()),
     Step("Local Requester Port error", requesterPort.Failure()),
     Step("Alias error", alias.Failure())]
  }

  /** Six steps that all succeed or all fail with the same error: the report
      lists nothing, or all six in order. */
  lemma UniformDecryptSteps(serverPort: Result<Bytes>, serverIp: Result<Bytes>, validation: Result<Bytes>,
                            requesterIp: Result<Bytes>, requesterPort: Result<Bytes>, alias: Result<Bytes>,
                            ok: bool, err: Error)
    requires serverPort.Ok? == ok && serverIp.Ok? == ok && validation.Ok? == ok
    requires requesterIp.Ok? == ok && requesterPort.Ok? == ok && alias.Ok? == ok
    requires !ok ==> serverPort.error == err && serverIp.error == err && validation.error == err
    requires !ok ==> requesterIp.error == err && requesterPort.error == err && alias.error == err
    ensures ok ==> Failures(DecryptSteps(serverPort, serverIp, validation, requesterIp, requesterPort, alias)) == []
    ensures !ok ==> Failures(DecryptSteps(serverPort, serverIp, validation, requesterIp, requesterPort, alias)) ==
                      [Entry("Server Port error", err), Entry("Local Server Ip error", err),
                       Entry("Package validation error", err), Entry("Local Requester Ip error", err),
                       Entry("Local Requester Port error", err), Entry("Alias error", err)]
  {
    var a, b, c := Step("Server Port error", serverPort.Failure()),
                   Step("Local Server Ip error", serverIp.Failure()),
                   Step("Package validation error", validation.Failure());
    var d, e, f := Step("Local Requester Ip error", requesterIp.Failure()),
                   Step("Local Requester Port error", requesterPort.Failure()),
                   Step("Alias error", alias.Failure());
    assert DecryptSteps(serverPort, serverIp, validation, requesterIp, requesterPort, alias) == [a, b, c, d, e, f];
    if ok {
      NoFailuresOfSix(a, b, c, d, e, f);
    } else {
      AllFailedOfSix(a, b, c, d, e, f);
    }
  }

  /** What decryptDiscoveryPkg leaves in the package: every string field
      replaced by its own decryption and the kind untouched, or, when any
      decryption fails, a report of each failure. */
  function DecryptedPkg(codec: Codec, p: DiscoveryPkg): (r: Result<DiscoveryPkg>)
    requires PkgDecodeSafe(codec, p)
    ensures r.Ok? <==> ValidKeySize(|codec.key|)
    ensures r.Ok? ==> r.value.typ == p.typ
    ensures r.Ok? ==>
              && r.value.pkgValidation == DecryptCfbString(codec, p.pkgValidation).value
              && r.value.appServerIp == DecryptCfbString(codec, p.appServerIp).value
              && r.value.appServerPort == DecryptCfbString(codec, p.appServerPort).value
              && r.value.requesterIp == DecryptCfbString(codec, p.requesterIp).value
              && r.value.requesterPort == DecryptCfbString(codec, p.requesterPort).value
              && r.value.alias == DecryptCfbString(codec, p.alias).value
    ensures r.Err? ==> r.error.Report? && |r.error.entries| == 6
  {
    var decrSerPort := DecryptCfbString(codec, p.appServerPort);
    var decrLocAppServerIp := DecryptCfbString(codec, p.appServerIp);
    var decrPkgVal := DecryptCfbString(codec, p.pkgValidation);
    var decrLocReqIp := DecryptCfbString(codec, p.requesterIp);
    var decrLocReqPort := DecryptCfbString(codec, p.requesterPort);
    var decrAlias := DecryptCfbString(codec, p.alias);
    UniformDecryptSteps(decrSerPort, decrLocAppServerIp, decrPkgVal, decrLocReqIp, decrLocReqPort, decrAlias,
                        ValidKeySize(|codec.key|), InvalidKeySize(|codec.key|));
    var failures := Failures(DecryptSteps(decrSerPort, decrLocAppServerIp, decrPkgVal,
                                          decrLocReqIp, decrLocReqPort, decrAlias));
    if failures != [] then
      Err(Report("Error while decrypting Discovery Data:", failures))
    else
      Ok(p.(pkgValidation := decrPkgVal.value,
            appServerIp := decrLocAppServerIp.value,
            appServerPort := decrSerPort.value,
            requesterIp := decrLocReqIp.value,
            requesterPort := decrLocReqPort.value,
            alias := decrAlias.value))
  }

  /** With an unusable key every field fails, and the report names all six
      in the source's order. */
  lemma DecryptFailureReportsEveryField(codec: Codec, p: DiscoveryPkg)
    requires PkgDecodeSafe(codec, p) && !ValidKeySize(|codec.key|)
    ensures DecryptedPkg(codec, p) == Err(Report("Error while decrypting Discovery Data:", [
              Entry("Server Port error", InvalidKeySize(|codec.key|)),
              Entry("Local Server Ip error", InvalidKeySize(|codec.key|)),
              Entry("Package validation error", InvalidKeySize(|codec.key|)),
              Entry("Local Requester Ip error", InvalidKeySize(|codec.key|)),
              Entry("Local Requester Port error", InvalidKeySize(|codec.key|)),
              Entry("Alias error", InvalidKeySize(|codec.key|))]))
  {
    UniformDecryptSteps(DecryptCfbString(codec, p.appServerPort), DecryptCfbString(codec, p.appServerIp),
                        DecryptCfbString(codec, p.pkgValidation), DecryptCfbString(codec, p.requesterIp),
                        DecryptCfbString(codec, p.requesterPort), DecryptCfbString(codec, p.alias),
                        false, InvalidKeySize(|codec.key|));
  }

  /** The received package, shared by pointer with the caller. */
  class ReceivedPkg {
    var data: DiscoveryPkg

    constructor (data: DiscoveryPkg)
      ensures this.data == data
    {
      this.data := data;
    }
  }

  /** decryptDiscoveryPkg: decrypts the six fields and, only if all succeed,
      writes them back in place. */
  method DecryptDiscoveryPkg(codec: Codec, data: ReceivedPkg) returns (err: Option<Error>)
    requires PkgDecodeSafe(codec, data.data)
    modifies data
    ensures err == DecryptedPkg(codec, old(data.data)).Failure()
    ensures data.data == DecryptedPkg(codec, old(data.data)).GetOr(old(data.data))
  {
    var decrSerPort := DecryptCfbString(codec, data.data.appServerPort);
    var decrLocAppServerIp := DecryptCfbString(codec, data.data.appServerIp);
    var decrPkgVal := DecryptCfbString(codec, data.data.pkgValidation);
    var decrLocReqIp := DecryptCfbString(codec, data.data.requesterIp);
    var decrLocReqPort := DecryptCfbString(codec, data.data.requesterPort);
    var decrAlias := DecryptCfbString(codec, data.data.alias);
    var failures := Failures(DecryptSteps(decrSerPort, decrLocAppServerIp, decrPkgVal,
                                          decrLocReqIp, decrLocReqPort, decrAlias));
    if failures != [] {
      return Some(Report("Error while decrypting Discovery Data:", failures));
    }
    data.data := data.data.(pkgValidation := decrPkgVal.value);
    data.data := data.data.(appServerIp := decrLocAppServerIp.value);
    data.data := data.data.(appServerPort := decrSerPort.value);
    data.data := data.data.(requesterIp := decrLocReqIp.value);
    data.data := data.data.(requesterPort := decrLocReqPort.value);
    data.data := data.data.(alias := decrAlias.value);
    return None;
  }

  // ===========================================================================
  // The response

  const ResponseErrorHeader: string := "Error while encryption Discovery Response:"

  /** BuildDefaultEncryptedDiscoveryResponse: a PACKAGE carrying the day's
      token, the application's address and the host name, each sealed, or a
      report of every step that failed. */
  function BuildDefaultEncryptedDiscoveryResponse(env: Env, appIp: Bytes, appPort: Bytes): (r: Result<DiscoveryPkg>)
    ensures r.Ok? <==> ValidKeySize(|env.codec.key|) && DayToken(env).Ok? && env.hostname.Ok?
    ensures r.Ok? ==> r.value == DiscoveryPkg(DiscoveryPackage,
                                   Sealed(env.codec, DayToken(env).value),
                                   Sealed(env.codec, appIp),
                                   Sealed(env.codec, appPort),
                                   [], [],
                                   Sealed(env.codec, env.hostname.value))
    ensures r.Err? ==> r.error.Report? && r.error.header == ResponseErrorHeader
    // One entry for a failed token, one for a missing host name, four for an
    // unusable key.
    ensures r.Err? ==>
              && r.error.Report?
              && |r.error.entries| == (if DayToken(env).Err? then 1 else 0) + (if env.hostname.Err? then 1 else 0)
                                      + (if ValidKeySize(|env.codec.key|) then 0 else 4)
  {
    var codec := env.codec;
    var appServerIp := Encrypt(codec, appIp);
    var port := Encrypt(codec, appPort);
    var token := DayToken(env);
    var validation := Encrypt(codec, token.GetOr([]));
    var hostname := env.hostname;
    var alias := Encrypt(codec, hostname.GetOr([]));
    var steps := [Step("Server Ip error", appServerIp.Failure()),
                  Step("Server Port error", port.Failure()),
                  Step("Token Generate error", token.Failure()),
                  Step("Package Validation error", validation.Failure()),
                  Step("Hostname error", hostname.Failure()),
                  Step("Alias error", alias.Failure())];
    NoFailuresOfSix(steps[0], steps[1], steps[2], steps[3], steps[4], steps[5]);
    FailureCountOfSix(steps[0], steps[1], steps[2], steps[3], steps[4], steps[5]);
    assert steps == [steps[0], steps[1], steps[2], steps[3], steps[4], steps[5]];
    var failures := Failures(steps);
    if failures != [] then
      Err(Report(ResponseErrorHeader, failures))
    else
      Ok(DiscoveryPkg(DiscoveryPackage,
                      HideLength(validation.value, |token.value|),
                      HideLength(appServerIp.value, |appIp|),
                      HideLength(port.value, |appPort|),
                      [], [],
                      HideLength(alias.value, |hostname.value|)))
  }

  /** Where and what the handler sends. */
  datatype Datagram = Datagram(ip: Bytes, port: Bytes, data: DiscoveryPkg)

  /** The network: dialling a UDP address (resolution and dial errors
      included) and the send over the connection. */
  datatype Network = Network(dial: (Bytes, Bytes) -> Option<Error>, send: Datagram -> Option<Error>)

  /** The error of delivering a datagram, wrapped as handleDiscoveryResponse
      wraps it. */
  function Transmit(net: Network, dg: Datagram): (r: Option<Error>)
    // Delivered exactly when both the dial and the send succeed.
    ensures r.None? <==> net.dial(dg.ip, dg.port).None? && net.send(dg).None?
    // A dial error wins over any send error; each is wrapped in its own way.
    ensures net.dial(dg.ip, dg.port).Some? ==> r == Some(ConnectionFailed(net.dial(dg.ip, dg.port).value))
    ensures net.dial(dg.ip, dg.port).None? && net.send(dg).Some? ==> r == Some(SendFailed(net.send(dg).value))
  {
    match net.dial(dg.ip, dg.port)
    case Some(e) => Some(ConnectionFailed(e))
    case None =>
      match net.send(dg)
      case Some(e) => Some(SendFailed(e))
      case None => None
  }

  // ===========================================================================
  // The handler

  /** What handleDiscoveryRequest does with a package. */
  datatype Outcome =
    | Respond(request: DiscoveryPkg)      // a peer's validated REQUEST: answer it
    | Enqueue(target: DiscoveredTarget)   // a peer's validated PACKAGE: report the peer
    | Drop                                // unvalidated, unrecognised, or our own REQUEST
    | Fail(error: Error)

  /** The results channel, as the sequence of targets pushed onto it. */
  class TargetQueue {
    var items: seq<DiscoveredTarget>

    constructor ()
      ensures items == []
    {
      items := [];
    }

    method Push(t: DiscoveredTarget)
      modifies this
      ensures items == old(items) + [t]
    {
      items := items + [t];
    }
  }

  /** DefaultDiscoveryHandler: the application's address and the optional
      results channel. */
  class DiscoveryHandler {
    const appIp: Bytes
    const appPort: Bytes
    const discoveredTargets: TargetQueue?

    constructor (appIp: Bytes, appPort: Bytes, discoveredTargets: TargetQueue?)
      ensures this.appIp == appIp && this.appPort == appPort
      ensures this.discoveredTargets == discoveredTargets
    {
      this.appIp := appIp;
      this.appPort := appPort;
      this.discoveredTargets := discoveredTargets;
    }

    /** handleMissingAppPort */
    function HandleMissingAppPort(): (r: Option<Error>)
      ensures r.Some? <==> appPort == []
      ensures r.Some? ==> r.value == AppPortNotSet
    {
      if appPort == [] then Some(AppPortNotSet) else None
    }

    /** handleMissingAppIp */
    function HandleMissingAppIp(): (r: Option<Error>)
      ensures r.Some? <==> appIp == []
      ensures r.Some? ==> r.value == AppIpNotSet
    {
      if appIp == [] then Some(AppIpNotSet) else None
    }

    /** handleDiscoveryHandlerStruct: both the address and the port must be
      set; the report has one entry per missing one. */
    function HandleDiscoveryHandlerStruct(): (r: Option<Error>)
      ensures r.None? <==> appIp != [] && appPort != []
      ensures r.Some? ==> r.value.Report?
      ensures r.Some? ==> |r.value.entries| == (if appIp == [] then 1 else 0) + (if appPort == [] then 1 else 0)
    {
      var steps := [Step("App ip was not set", HandleMissingAppIp()),
                    Step("App port was not set", HandleMissingAppPort())];
      var failures := Failures(steps);
      assert Failures(steps[1..]) == Failures([steps[1]]);
      if failures != [] then Some(Report("Error while checking Discovery Agent struct:", failures))
      else None
    }

    /** handleDiscoveryResponse up to the network: the handler must be fully
      configured and the response must build; it goes back to the
      requester's address. */
    function ResponseTo(env: Env, request: DiscoveryPkg): (r: Result<Datagram>)
      ensures r.Ok? <==> appIp != [] && appPort != [] && BuildDefaultEncryptedDiscoveryResponse(env, appIp, appPort).Ok?
      ensures r.Ok? ==> r.value == Datagram(request.requesterIp, request.requesterPort,
                                            BuildDefaultEncryptedDiscoveryResponse(env, appIp, appPort).value)
      // The configuration report comes first; a builder failure is wrapped.
      ensures r.Err? && (appIp == [] || appPort == []) ==> r.error == HandleDiscoveryHandlerStruct().value
      ensures r.Err? && appIp != [] && appPort != [] ==>
                r.error == ResponseNotBuilt(BuildDefaultEncryptedDiscoveryResponse(env, appIp, appPort).error)
    {
      match HandleDiscoveryHandlerStruct()
      case Some(e) => Err(e)
      case None =>
        match BuildDefaultEncryptedDiscoveryResponse(env, appIp, appPort)
        case Err(e) => Err(ResponseNotBuilt(e))
        case Ok(discoveryResponse) => Ok(Datagram(request.requesterIp, request.requesterPort, discoveryResponse))
    }

    /** The decision handleDiscoveryRequest takes, given the outcome of
      decrypting the received package and of generating the day's token. */
    function Decide(decrypted: Result<DiscoveryPkg>, expectedToken: Result<Bytes>): (o: Outcome)
      // Nothing happens to a package that does not decrypt, on a day without
      // a token, or on a handler without an address, in that order.
      ensures decrypted.Err? ==> o == Fail(decrypted.error)
      ensures decrypted.Ok? && expectedToken.Err? ==> o == Fail(expectedToken.error)
      ensures decrypted.Ok? && expectedToken.Ok? && appIp == [] ==> o == Fail(AppIpNotSet)
      // A REQUEST carrying the day's token is answered exactly when it comes
      // from another address.
      ensures o.Respond? <==>
                && decrypted.Ok? && expectedToken.Ok? && appIp != []
                && decrypted.value.typ == DiscoveryRequest
                && decrypted.value.pkgValidation == expectedToken.value
                && decrypted.value.requesterIp != appIp
      ensures o.Respond? ==> o.request == decrypted.value
      // Everything else that decrypts on a configured handler is dropped: a
      // stale or forged token, an unknown kind, or its own request.
      ensures o.Drop? <==>
                && decrypted.Ok? && expectedToken.Ok? && appIp != []
                && !(&& decrypted.value.typ == DiscoveryRequest
                     && decrypted.value.pkgValidation == expectedToken.value
                     && decrypted.value.requesterIp != appIp)
                && !(&& decrypted.value.typ == DiscoveryPackage
                     && decrypted.value.pkgValidation == expectedToken.value)
      // Only a PACKAGE carrying the day's token is recorded, as the peer it names.
      ensures o.Enqueue? ==>
                && decrypted.Ok? && expectedToken.Ok?
                && decrypted.value.typ == DiscoveryPackage
                && decrypted.value.pkgValidation == expectedToken.value
                && Atoi(decrypted.value.appServerPort) == Ok(o.target.port)
                && o.target == DiscoveredTarget(0, decrypted.value.appServerIp, o.target.port, decrypted.value.alias, [])
      // Such a PACKAGE is recorded when its port parses, and fails otherwise.
      ensures && decrypted.Ok? && expectedToken.Ok? && appIp != []
              && decrypted.value.typ == DiscoveryPackage
              && decrypted.value.pkgValidation == expectedToken.value
              ==> if Atoi(decrypted.value.appServerPort).Ok? then o.Enqueue?
                  else o == Fail(PortNotInt(Atoi(decrypted.value.appServerPort).error))
    {
      match decrypted
      case Err(e) => Fail(e)
      case Ok(p) =>
        match expectedToken
        case Err(e) => Fail(e)
        case Ok(token) =>
          match HandleMissingAppIp()
          case Some(e) => Fail(e)
          case None =>
            if p.typ == DiscoveryRequest && p.pkgValidation == token then
              if p.requesterIp != appIp then Respond(p) else Drop
            else if p.typ == DiscoveryPackage && p.pkgValidation == token then
              match Atoi(p.appServerPort)
              case Err(e) => Fail(PortNotInt(e))
              case Ok(port) => Enqueue(DiscoveredTarget(0, p.appServerIp, port, p.alias, []))
            else Drop
    }

    /** What an outcome adds to the queue of discovered targets. */
    function Enqueued(o: Outcome): seq<DiscoveredTarget> {
      if o.Enqueue? then [o.target] else []
    }

    /** The error returned and the datagram sent are the ones outcome `o`
        calls for. */
    predicate Carries(env: Env, net: Network, o: Outcome, err: Option<Error>, sent: Option<Datagram>) {
      && (o.Fail? ==> err == Some(o.error) && sent == None)
      && (o.Respond? ==> (err, sent) == Answer(env, net, o.request))
      && (o.Enqueue? || o.Drop? ==> err == None && sent == None)
    }

    /** What handleDiscoveryResponse reports and what it delivers. */
    function Answer(env: Env, net: Network, request: DiscoveryPkg): (r: (Option<Error>, Option<Datagram>))
      // Either an error is reported or a datagram is delivered, never both.
      ensures r.0.None? <==> r.1.Some?
      // Delivered exactly when the response builds and reaches the requester.
      ensures r.1.Some? <==> ResponseTo(env, request).Ok? && Transmit(net, ResponseTo(env, request).value).None?
      ensures r.1.Some? ==> r.1.value == ResponseTo(env, request).value
      ensures r.1.Some? ==> r.1.value.ip == request.requesterIp && r.1.value.port == request.requesterPort
      ensures ResponseTo(env, request).Err? ==> r.0 == Some(ResponseTo(env, request).error)
      ensures ResponseTo(env, request).Ok? ==> r.0 == Transmit(net, ResponseTo(env, request).value)
    {
      match ResponseTo(env, request)
      case Err(e) => (Some(e), None)
      case Ok(dg) =>
        var e := Transmit(net, dg);
        (e, if e.None? then Some(dg) else None)
    }

    /** handleDiscoveryResponse: checks the configuration, builds the
      response and sends it to the requester. */
    method HandleDiscoveryResponse(env: Env, net: Network, receivedData: DiscoveryPkg)
      returns (err: Option<Error>, sent: Option<Datagram>)
      ensures (err, sent) == Answer(env, net, receivedData)
    {
      var e := HandleDiscoveryHandlerStruct();
      if e.Some? {
        return e, None;
      }
      var discoveryResponse := BuildDefaultEncryptedDiscoveryResponse(env, appIp, appPort);
      if discoveryResponse.Err? {
        return Some(ResponseNotBuilt(discoveryResponse.error)), None;
      }
      var dg := Datagram(receivedData.requesterIp, receivedData.requesterPort, discoveryResponse.value);
      var e2 := net.dial(dg.ip, dg.port);
      if e2.Some? {
        return Some(ConnectionFailed(e2.value)), None;
      }
      var e3 := net.send(dg);
      if e3.Some? {
        return Some(SendFailed(e3.value)), None;
      }
      return None, Some(dg);
    }

    /** The part of handleDiscoveryRequest after decryption: the decryption
        error, the token, the checks and the action on a decrypted package. */
    method React(env: Env, net: Network, decrypted: Result<DiscoveryPkg>, ghost o: Outcome)
      returns (err: Option<Error>, sent: Option<Datagram>)
      requires o == Decide(decrypted, DayToken(env))
      modifies discoveredTargets
      ensures Carries(env, net, o, err, sent)
      ensures discoveredTargets != null ==>
                discoveredTargets.items == old(discoveredTargets.items) + Enqueued(o)
    {
      if decrypted.Err? {
        return Some(decrypted.error), None;
      }
      var d := decrypted.value;
      var token := NewDayToken(env);
      if token.Err? {
        return Some(token.error), None;
      }
      var expectedToken := token.value;
      var appIpErr := HandleMissingAppIp();
      if appIpErr.Some? {
        return appIpErr, None;
      }
      if d.typ == DiscoveryRequest && d.pkgValidation == expectedToken {
        if d.requesterIp != appIp {
          err, sent := HandleDiscoveryResponse(env, net, d);
          return;
        }
      } else if d.typ == DiscoveryPackage && d.pkgValidation == expectedToken {
        var port := Atoi(d.appServerPort);
        if port.Err? {
          return Some(PortNotInt(port.error)), None;
        }
        if discoveredTargets != null {
          discoveredTargets.Push(DiscoveredTarget(0, d.appServerIp, port.value, d.alias, []));
        }
      }
      return None, None;
    }

    /** handleDiscoveryRequest: decrypts the package in place, then answers,
      records or drops it as Decide says.  Only a delivered answer is sent,
      and only a recorded peer is pushed, once, onto a channel that exists. */
    method HandleDiscoveryRequest(env: Env, net: Network, receivedData: ReceivedPkg)
      returns (err: Option<Error>, sent: Option<Datagram>)
      requires PkgDecodeSafe(env.codec, receivedData.data)
      modifies receivedData, discoveredTargets
      ensures receivedData.data == DecryptedPkg(env.codec, old(receivedData.data)).GetOr(old(receivedData.data))
      ensures var o := Decide(DecryptedPkg(env.codec, old(receivedData.data)), DayToken(env));
              && Carries(env, net, o, err, sent)
              && (discoveredTargets != null ==>
                    discoveredTargets.items == old(discoveredTargets.items) + Enqueued(o))
    {
      assert discoveredTargets as object? != receivedData;
      ghost var o := Decide(DecryptedPkg(env.codec, receivedData.data), DayToken(env));
      var decrErr := DecryptDiscoveryPkg(env.codec, receivedData);
      var decrypted := if decrErr.Some? then Err(decrErr.value) else Ok(receivedData.data);
      err, sent := React(env, net, decrypted, o);
    }
  }
}
