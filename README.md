# Discovery protocol core, modelled in Dafny

This project models the protocol engine of a local-network service discovery library written in Go.
A discovery agent broadcasts an encrypted REQUEST over UDP.
A peer's discovery handler decrypts it, checks its day token and answers with an encrypted PACKAGE naming its own address and host name.
The agent's handler turns that answer into a discovered target.

The model covers four source files.

- `security/encrdecr.go` is modelled in module `Security` (`security.dfy`).
  - AES-CFB over the fixed IV `0x00..0x0f` is modelled with 128-bit segments, the ciphertext block being the feedback. It is written as a specification function `Cfb` and as the in-place methods `XorKeyStream`, `EncryptCFB` and `DecryptCFB`, which are proved against it. The block cipher and the key are parameters (`Codec`).
  - The length framing is modelled on byte strings: `HideLength` splices `//<n>//` into the ciphertext, `FindLength` finds the leftmost `//[0-9]*//`, `RemovePatternAttrsFromLength` parses the marker and `RemoveLength` deletes it.
  - The day seed and the token are modelled as functions of a calendar date (`Seed`, `Token`). `class Security` holds the zone label and the offset that `generateDiscoReqTokenSeed` reads and updates.
- `impl/discohandlerimpl.go` is modelled in module `DiscoHandler` (`discohandler.dfy`).
  - `decryptCFBString` is modelled as written: only DecryptCFB's error survives.
  - `decryptDiscoveryPkg` is an in-place, all-or-nothing update of a received package (`ReceivedPkg`).
  - The handler's decision rule is `Decide`. `HandleDiscoveryRequest` is proved against it. `HandleDiscoveryResponse` is proved against `Answer`, which is what `Decide`'s `Respond` outcome calls for.
  - The response builder is `BuildDefaultEncryptedDiscoveryResponse`.
  - The result channel is modelled as `TargetQueue`, a sequence that the handler appends to.
- `main/discoagent.go` is modelled in module `DiscoAgent` (`discoagent.dfy`). It covers the port defaulting, the request builder and the set-up of the server loop, including the timeout default.
- `model/discomodel.go` and `model/discotarget.go` are modelled in module `DiscoModel` (`discomodel.dfy`): the wire record, the constants and the discovered-target record.

Support modules:

- `Errors` holds `Result`/`Option` and the aggregated error reports that the source builds line by line into a `bytes.Buffer`.
- `GoLib` holds the parts of Go's standard library the core relies on: `strings.Index`, `strings.Replace`, `strconv.Itoa` and `strconv.Atoi` over 64-bit `int`.
- `Platform` holds the environment: the codec, the calendar, the random generator and the host name.
- `Protocol` proves end-to-end properties that cross agent and handler:
  - a request built by an agent decrypts to what it carries when its ciphertexts hold no '/', and is then answered by a configured peer unless it comes from the peer's own ip;
  - a peer's response whose ciphertexts hold no '/' is recorded by the agent, or fails there when its port does not parse;
  - a request from the previous day is dropped, when its ciphertexts hold no '/', the receiving day has a token and the random generator is injective on seeds;
  - a request is replayed across two days whose seeds coincide (January 11 and November 1 of a year), when its ciphertexts hold no '/'.

Go strings are byte sequences (`seq<bv8>`). Integers follow Go's 64-bit `int`: `Atoi` reports out-of-range input as an error, as `strconv.Atoi` does.

Behaviours of the code worth knowing:

- A PACKAGE with a matching token whose port does not parse makes `handleDiscoveryRequest` return an error. It is not dropped silently.
- A field whose length marker is missing or unparsable does not fail decryption. `decryptCFBString` overwrites those errors, so the field decodes with length 0 when no marker is found or the marker has no digits (`////`), and with MaxInt64 when its digits overflow (`AtoiValueOfAtoi`). With length 0, DecryptCFB panics on any non-empty ciphertext (`SlashRunFieldPanics`). With MaxInt64 it always panics, in `make` (`OversizedLengthPanics`).
- The handler checks that its own IP is set before it looks at the message kind.
- The framing round trip `parse(find(hide(c, n))) == n` holds for every ciphertext without a `/` byte (`FramingRoundTrip`). Ciphertexts with a `/` may still satisfy it, but not all do: `CollidingCiphertextMisframes` exhibits one for which it fails.
- `strconv.Atoi` scans left to right, so a digit run that overflows is reported as out of range even when a non-digit follows it.

## Model

| member | source | states |
|---|---|---|
| Errors.Failures | impl/discohandlerimpl.go:118-147 | the aggregated report has at most one entry per step, and it is empty exactly when no step failed |
| Errors.FailuresComeFromSteps | impl/discohandlerimpl.go:118-147 | every entry of a report is a step that failed, carrying that step's label and error |
| Errors.FailuresOfFailedSteps | impl/discohandlerimpl.go:118-147 | when every step fails, the report lists each of them, in order, with its own label and error |
| Errors.NoFailuresOfSix | impl/discohandlerimpl.go:118 | the six-way error guard: there is no report exactly when none of the six steps failed |
| Errors.NoFailuresOfFour | main/discoagent.go:86 | the four-way error guard: there is no report exactly when none of the four steps failed |
| Errors.FailureCountOfFour | main/discoagent.go:86-107 | a four-step report has one line per failed step |
| Errors.FailureCountOfSix | impl/discohandlerimpl.go:265-290 | a six-step report has one line per failed step |
| Errors.AllFailedOfSix | impl/discohandlerimpl.go:118-147 | six failed steps give six entries in the source's order |
| GoLib.Index | security/encrdecr.go:95 | the position found is an occurrence with no earlier occurrence, and no position is found only when there is no occurrence |
| GoLib.Replace | security/encrdecr.go:88 | replacing a pattern by one of the same length keeps the length, and deleting it never lengthens the string |
| GoLib.ReplaceOnceAt | security/encrdecr.go:100-102 | a single replacement substitutes the leftmost occurrence of the pattern and keeps the rest |
| GoLib.ReplacePrefixOnce | security/encrdecr.go:94-95 | replacing a prefix by a longer string puts the replacement at the front, followed by the rest of the input |
| GoLib.ReplaceAtFront | security/encrdecr.go:88 | replacing up to n occurrences when the input starts with the pattern replaces that one and up to n-1 in the rest |
| GoLib.ReplaceAbsent | security/encrdecr.go:100-102 | a string without the pattern comes back unchanged |
| GoLib.Atoi | impl/discohandlerimpl.go:200 | a parsed value is within the 64-bit int range and the input is digits with an optional sign; empty input is a syntax error, and every error is a syntax error or a range error clamped to MinInt64 or MaxInt64 |
| GoLib.ParseDecimal | security/encrdecr.go:88 | a parsed unsigned body is a non-empty digit string and its value is in the 64-bit range; an empty body is a syntax error |
| GoLib.ParseDigits | security/encrdecr.go:88 | a digit string whose value (negated or not) fits in 64 bits parses to that value |
| GoLib.AtoiOverflowBeforeSyntax | security/encrdecr.go:88 | digits exceeding the uint64 range followed by a non-digit are a range error clamped to MaxInt64, not a syntax error |
| GoLib.AtoiValueOfAtoi | security/encrdecr.go:87-90 | the int that Atoi returns beside its error (`AtoiValue`) is always in range: 0 after a syntax error, MinInt64 or MaxInt64 after a range error |
| GoLib.Itoa | security/encrdecr.go:119-121 | the decimal spelling is non-empty, all digits for a non-negative value and led by '-' for a negative one |
| GoLib.AtoiItoa | security/encrdecr.go:119-122 | Atoi inverts Itoa on the whole 64-bit range |
| GoLib.AtoiOfDigits | security/encrdecr.go:88 | a non-empty digit string within range parses to its decimal value |
| GoLib.AtoiOfNegativeDigits | security/encrdecr.go:88 | '-' followed by digits within range parses to the negated decimal value |
| GoLib.DigitsValueOfNatDigits | security/encrdecr.go:119-121 | the decimal value of Itoa's digits is the number spelled |
| GoLib.NatDigitsOfDigitsValue | security/encrdecr.go:122 | a digit string without a leading zero is the spelling of its own value |
| GoLib.DigitsInjective | security/encrdecr.go:122 | two digit strings without leading zeros and with the same value are equal |
| GoLib.ItoaInjective | security/encrdecr.go:119-121 | distinct naturals have distinct decimal spellings |
| DiscoModel.KindsDistinct | model/discomodel.go:7-10 | PACKAGE (10) and REQUEST (11) differ, and neither is the zero-valued package's kind |
| DiscoModel.DiscoveryPortIs6666 | model/discomodel.go:14 | the default port "6666" is Itoa(6666) and parses back to 6666 |
| Security.SourceKeyIsValid | security/encrdecr.go:36-43 | the hard-coded key has 32 bytes, so aes.NewCipher accepts it |
| Security.XorBytesTwice | security/encrdecr.go:47 | XORing a segment with the same keystream block twice gives the segment back |
| Security.Cfb | security/encrdecr.go:45-47 | the CFB transform keeps the input's length; CfbDecryptEncrypt and CfbEncryptDecrypt state that its two directions invert each other |
| Security.CfbDecryptEncrypt | security/encrdecr.go:45-47 | CFB decryption inverts CFB encryption under the same cipher, key and IV |
| Security.CfbEncryptDecrypt | security/encrdecr.go:68-70 | CFB encryption inverts CFB decryption |
| Security.Encrypt | security/encrdecr.go:35-49 | encryption succeeds exactly when the key size is valid, and the ciphertext is as long as the plaintext |
| Security.Decrypt | security/encrdecr.go:58-72 | decryption succeeds exactly when the key size is valid; the output has dataLen bytes, the CFB decryption of the ciphertext followed by zero bytes |
| Security.EncryptDecryptRoundTrip | security/encrdecr.go:35-72 | DecryptCFB(EncryptCFB(p), len(p)) == p |
| Security.DecryptEncryptRoundTrip | security/encrdecr.go:35-72 | EncryptCFB(DecryptCFB(c, len(c))) == c |
| Security.XorInto | security/encrdecr.go:47 | XORs one keystream block into the buffer at a position and leaves every other byte unchanged |
| Security.XorBlock | security/encrdecr.go:47 | one step of XORKeyStream writes the next segment and keeps the rest of the buffer and the feedback in step with the CFB specification |
| Security.XorKeyStream | security/encrdecr.go:45-47 | the buffer's first len(src) bytes become the CFB transform of src and the rest are unchanged |
| Security.EncryptCFB | security/encrdecr.go:35-49 | the method's result is the specification's encryption, an error for an invalid key size |
| Security.DecryptCFB | security/encrdecr.go:58-72 | the method's result is the specification's decryption into a dataLen-byte buffer |
| Security.FindFrom | security/encrdecr.go:75-84 | the scan finds a marker with none starting earlier, or reports that no marker starts from that position on |
| Security.FindLength | security/encrdecr.go:75-84 | the result is the leftmost `//digits//` substring; an error is returned exactly when no marker occurs |
| Security.HideLength | security/encrdecr.go:93-97 | the result is c[..len/2] + "//" + n + "//" + c[len/2..], with the marker at the front when len(c) <= 1 |
| Security.ReplaceHalf | security/encrdecr.go:94-95 | replacing the first half by itself plus a marker inserts the marker at the floor midpoint |
| Security.RemoveLength | security/encrdecr.go:100-102 | only the first occurrence of the marker is deleted; an absent or empty marker leaves the string unchanged |
| Security.RemovePatternAttrsFromLength | security/encrdecr.go:87-90 | a parsed length lies in the 64-bit int range, and an empty marker is a syntax error |
| Security.RemovePatternOfMarker | security/encrdecr.go:87-90 | deleting the first two "//" from a marker leaves its digits, which are then parsed |
| Security.RemovePatternOfLengthMarker | security/encrdecr.go:87-90 | the marker for n parses back to n, as "//5//" gives 5 |
| Security.RemovePatternWithoutDelimiters | security/encrdecr.go:87-90 | a string without "//" is parsed as it is, so "hello world" is an error |
| Security.FindLengthOfHidden | security/encrdecr.go:75-97 | in a '/'-free ciphertext with a length hidden in it, the marker found is the one inserted |
| Security.RemoveHiddenLength | security/encrdecr.go:93-102 | removing the inserted marker restores the '/'-free ciphertext |
| Security.FramingRoundTrip | security/encrdecr.go:75-102 | the framing round trip: find gives the inserted marker, parsing it gives n, and removing it gives the ciphertext back |
| Security.CollidingCiphertextMisframes | security/encrdecr.go:75-97 | a ciphertext that spells "//99//" before the midpoint makes FindLength return that marker instead of the inserted one |
| Security.Sealed | security/encrdecr.go:93-97 | a sealed field is the ciphertext plus the length marker, one byte per plaintext byte |
| Security.Seed | security/encrdecr.go:104-125 | a seed that parses lies in the 64-bit int range |
| Security.Token | security/encrdecr.go:127-136 | a token is a non-empty decimal string, and token generation fails exactly when the seed fails to parse |
| Security.SeedAmbiguous | security/encrdecr.go:119-122 | January 11 and November 1 of a year have the same seed text and the same seed |
| Security.SeedInjective | security/encrdecr.go:119-122 | two dates with the same parsed seed have the same seed text |
| Security.ConsecutiveDaysDiffer | security/security2_test.go:13-25 | consecutive calendar days have different seed texts, and different seeds whenever both parse |
| Security.Security.constructor | security/encrdecr.go:17-20 | new(Security) has an empty zone label and offset 0 |
| Security.Security.WithZone | security/encrdecr.go:17-20 | a Security holding the given zone label and offset |
| Security.Security.GenerateDiscoReqTokenSeed | security/encrdecr.go:104-125 | an empty label is set to "GMT", the offset is kept, and the seed is the date's seed at that offset whatever the label |
| Security.Security.GenerateDiscoReqToken | security/encrdecr.go:127-136 | the same label update; the token is the generator's output for the date's seed, or an error when the seed fails |
| Platform.DayToken | impl/discohandlerimpl.go:175-177 | the day's token is a non-empty decimal string, and it fails exactly when the day's seed does not parse |
| Platform.NewDayToken | impl/discohandlerimpl.go:175-177 | a fresh Security's token is the day's token at offset 0 |
| DiscoHandler.Unframe | impl/discohandlerimpl.go:333-340 | when no marker is found, the field is decrypted whole with length 0 |
| DiscoHandler.DecryptCfbString | impl/discohandlerimpl.go:333-343 | decryptCFBString fails exactly when the key size is invalid, with that error, whatever the framing |
| DiscoHandler.DecryptSealed | impl/discohandlerimpl.go:333-343 | decryptCFBString inverts HideLength∘EncryptCFB for a ciphertext without '/' |
| DiscoHandler.DecryptEmptyField | impl/discohandlerimpl.go:335-342 | an empty field decodes to "" with no error |
| DiscoHandler.UnmarkedFieldDecodableOnlyIfEmpty | impl/discohandlerimpl.go:335-342 | a field without a marker decodes without a panic exactly when it is empty |
| DiscoHandler.CollidingFieldDecodesWrongLength | impl/discohandlerimpl.go:333-343 | a field whose ciphertext spells a marker decodes to the wrong length |
| DiscoHandler.SlashRunFieldPanics | impl/discohandlerimpl.go:333-343 | a ciphertext of '/' bytes framed by HideLength makes DecryptCFB panic |
| DiscoHandler.OversizedLengthPanics | security/encrdecr.go:58-72 | a field whose marker parses to a length above 2^48 makes DecryptCFB's `make` panic, even with an empty ciphertext |
| DiscoHandler.ReceivedPkg.constructor | impl/discohandlerimpl.go:167 | the received package handed to the handler by pointer holds the given fields |
| DiscoHandler.DecryptSteps | impl/discohandlerimpl.go:111-116 | the six field decryptions, one step each |
| DiscoHandler.UniformDecryptSteps | impl/discohandlerimpl.go:118-147 | when the six decryptions succeed or fail together, the report is empty or names all six fields in the source's order |
| DiscoHandler.DecryptedPkg | impl/discohandlerimpl.go:105-158 | all or nothing: on success each string field is replaced by its own decryption and Type is kept; otherwise a report of the six fields |
| DiscoHandler.DecryptFailureReportsEveryField | impl/discohandlerimpl.go:118-147 | with an invalid key, the report lists the six fields with the key-size error |
| DiscoHandler.DecryptDiscoveryPkg | impl/discohandlerimpl.go:105-158 | the received package is updated in place to its decryption, or left untouched when the error is returned |
| DiscoHandler.BuildDefaultEncryptedDiscoveryResponse | impl/discohandlerimpl.go:255-301 | success exactly when the key, the token and the host name are available; then a PACKAGE with the token, ip, port and host name sealed and the requester fields empty; otherwise a report under the source's header with one line for a failed token, one for a missing host name and four for an unusable key |
| DiscoHandler.Transmit | impl/discohandlerimpl.go:232-244 | delivery succeeds exactly when both the dial and the send succeed; a dial error wins and is wrapped as a connection error, a send error after a good dial as a send error |
| DiscoHandler.TargetQueue.constructor | impl/discohandlerimpl.go:21 | a new results channel holds nothing |
| DiscoHandler.TargetQueue.Push | impl/discohandlerimpl.go:208 | a push appends exactly one target to the channel |
| DiscoHandler.DiscoveryHandler.constructor | impl/discohandlerimpl.go:18-22 | a handler holding the given ip, port and channel |
| DiscoHandler.DiscoveryHandler.HandleMissingAppPort | impl/discohandlerimpl.go:31-36 | an error exactly when AppPort is empty |
| DiscoHandler.DiscoveryHandler.HandleMissingAppIp | impl/discohandlerimpl.go:39-44 | an error exactly when AppIp is empty |
| DiscoHandler.DiscoveryHandler.HandleDiscoveryHandlerStruct | impl/discohandlerimpl.go:72-90 | no error exactly when both AppIp and AppPort are set; otherwise one report line per missing value |
| DiscoHandler.DiscoveryHandler.ResponseTo | impl/discohandlerimpl.go:219-232 | a response exists exactly when the handler is configured and the response builds; it goes to the requester's ip and port; otherwise the error is the configuration report or, on a configured handler, the builder's error wrapped |
| DiscoHandler.DiscoveryHandler.Decide | impl/discohandlerimpl.go:167-215 | the decision table: failures in decryption, token or AppIp come first; a validated REQUEST is answered exactly when it is not a loopback; a validated PACKAGE is recorded with its parsed port, or fails when the port does not parse; everything else is dropped |
| DiscoHandler.DiscoveryHandler.Answer | impl/discohandlerimpl.go:219-248 | an error is reported exactly when nothing is delivered; a datagram is delivered exactly when the response builds and both dial and send succeed, and it goes to the requester's ip and port; the error is the response's own error, or Transmit's wrapped dial or send error |
| DiscoHandler.DiscoveryHandler.HandleDiscoveryResponse | impl/discohandlerimpl.go:219-248 | the error reported and the datagram sent are those of the configuration check, the builder, the dial and the send, in that order |
| DiscoHandler.DiscoveryHandler.React | impl/discohandlerimpl.go:169-214 | after decryption the error is returned, or the package is answered, recorded, dropped or failed as decided; the channel grows by exactly the recorded target |
| DiscoHandler.DiscoveryHandler.HandleDiscoveryRequest | impl/discohandlerimpl.go:167-215 | decrypts in place, then does what the decision table says: error with nothing sent or recorded, a response, one pushed target, or nothing |
| DiscoAgent.DefaultedPort | main/discoagent.go:41-45 | the defaulted port is never empty and a set port is kept |
| DiscoAgent.DefaultedPortIdempotent | main/discoagent.go:41-45 | defaulting twice is defaulting once, and an unset port becomes one that parses as 6666 |
| DiscoAgent.EncryptedDefaultRequest | main/discoagent.go:77-117 | success exactly when the key and the token are available; then a REQUEST with the token, ip and port sealed and the other fields empty; otherwise a report with one line for the token and three for a bad key |
| DiscoAgent.DiscoveryAgent.constructor | main/discoagent.go:27-31 | an agent holding the given port, stop channel and timeout |
| DiscoAgent.DiscoveryAgent.HandleMissingDiscoveryServerPort | main/discoagent.go:41-45 | an empty port becomes "6666", a set port is kept, and nothing else changes |
| DiscoAgent.DiscoveryAgent.BuildEncryptedDefaultDiscoveryRequest | main/discoagent.go:77-117 | the port default is applied first, then the request is built for the resulting port |
| DiscoAgent.DiscoveryAgent.StartDiscoveryServer | main/discoagent.go:125-158 | the port is defaulted; a listen failure stops it; without a stop channel it loops forever; with one, a zero timeout becomes 30 s and a non-zero one is kept |
| Protocol.RequestRoundTrip | main/discoagent.go:109-116 | a request whose ciphertexts hold no '/' decrypts to the day's token, the agent's ip and its port |
| Protocol.ResponseRoundTrip | impl/discohandlerimpl.go:296-300 | a response whose ciphertexts hold no '/' decrypts to the day's token, ip, port and host name |
| Protocol.RequestAnsweredByPeer | impl/discohandlerimpl.go:190-197 | a peer on the same day answers an agent's request, unless it comes from the peer's own ip |
| Protocol.ResponseRecordedByAgent | impl/discohandlerimpl.go:198-209 | the agent records the responder's ip, parsed port and host name, or fails when the port does not parse |
| Protocol.RequestReplayedAcrossAmbiguousDays | impl/discohandlerimpl.go:175-197 | a request from January 11 is still answered on November 1 of the same year, because the two days share a seed |
| Protocol.StaleRequestDropped | impl/discohandlerimpl.go:175-212 | a request from the previous day is dropped when the generator is injective on seeds |

## Left out

- Sockets and wire transport are out of scope: GetResponseUdpConnection (impl/discohandlerimpl.go:305-330), GetServerUdpConnection and BroadcastDiscoveryMessage (main/discoagent.go:64-74, 168-194), and gob encoding in SendDataToConnection and ReceiveDataFromConnection (impl/discohandlerimpl.go:46-69). The handler's dial and send are the parameter `Network`. The agent's resolve-and-listen is the parameter `listen`.
- Concurrency is out of scope: the goroutine per datagram in handleDiscoveryData (impl/discohandlerimpl.go:66, 93-101), channel backpressure, and the receive loops with read deadlines (main/discoagent.go:48-61, 143-155). `StartDiscoveryServer` models the server up to the loop it would run.
- AES is a parameter of `Codec`, so the test vector for "test" (security/security1_test.go:15-35) is not reproduced. The round trip and length preservation are proved instead.
- The clock, the time zone arithmetic and `math/rand` are parameters: `dateAt(offset)` gives the calendar date, and `prng(seed)` gives the first output after seeding. The test that a one-day offset yields a different token (security/security1_test.go:109-116) depends on them and is not proved. Its calendar part is `ConsecutiveDaysDiffer`.
- `os.Hostname` is the input `Env.hostname`.
- Go's panics in DecryptCFB are a precondition (`DecryptWillNotPanic`, `DecodeSafe`): `make` refusing a length above 2^48 (the runtime's maxAlloc on linux/amd64), and `XORKeyStream` finding the output buffer shorter than the input. `SlashRunFieldPanics` and `OversizedLengthPanics` show inputs that reach them. Running out of memory below 2^48 bytes is not modelled.
- The zero-valued `DiscoveryPkg` returned beside an error is not modelled: the builders return `Err`.
- Error messages are structured `Error` values with the source's labels, not concatenated strings.
- GoLib.Replace: an empty pattern with n >= 2 is not modelled as Go's rune-by-rune insertion; the core never calls it so.
- DiscoHandler.DecryptCfbString: its contract says only when an error is returned. Its value is given by `DecryptSealed`, `DecryptEmptyField` and `CollidingFieldDecodesWrongLength`, since the framing errors the source discards leave no other guarantee.
- `utils/utils.go`, `interface/discohandler.go`, the `String()` formatters and all logging are not part of this model.
- The two tests that assert nothing (security/security1_test.go:37-55) are not stated as properties.
