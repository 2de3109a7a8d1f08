/** The discovery wire message and the discovered-target record, with the
    protocol's constants (model/discomodel.go, model/discotarget.go). */
module DiscoModel {
  import opened Errors
  import opened GoLib

  /** Message kinds, numbered from 10 by iota. */
  const DiscoveryPackage: int := 10
  const DiscoveryRequest: int := 11

  const ConnectionTypeUdp: Bytes := Ascii("udp")
  const DiscoveryPort: Bytes := Ascii("6666")
  const BroadcastIp: Bytes := Ascii("255.255.255.255")
  const DefaultLocalBroadcastConnectionString: Bytes := Ascii(":0")
  const DefaultSeedValue: Bytes := Ascii("GMT")

  /** The message sent over the wire.  Every string field travels encrypted
      and framed with its plaintext length; which of the ip/port pairs is
      meaningful depends on `typ`. */
  datatype DiscoveryPkg = DiscoveryPkg(
    typ: int,
    pkgValidation: Bytes,
    appServerIp: Bytes,
    appServerPort: Bytes,
    requesterIp: Bytes,
    requesterPort: Bytes,
    alias: Bytes)

  /** Go's zero value `DiscoveryPkg{}`. */
  const EmptyPkg: DiscoveryPkg := DiscoveryPkg(0, [], [], [], [], [], [])

  /** A peer found by discovery; `id` and `status` belong to the consumer. */
  datatype DiscoveredTarget = DiscoveredTarget(
    id: int,
    ip: Bytes,
    port: int,
    alias: Bytes,
    status: Bytes)

  /** The two kinds are distinct and neither is the zero value's kind. */
  lemma KindsDistinct()
    ensures DiscoveryPackage != DiscoveryRequest
    ensures EmptyPkg.typ != DiscoveryPackage && EmptyPkg.typ != DiscoveryRequest
  {
  }

  /** The default discovery port is the decimal spelling of 6666. */
  lemma DiscoveryPortIs6666()
    ensures DiscoveryPort == Itoa(6666)
    ensures Atoi(DiscoveryPort) == Ok(6666)
  {
    DiscoveryPortValue();
    NatDigitsOfDigitsValue(DiscoveryPort);
    AtoiOfDigits(DiscoveryPort);
  }

  /** "6666" is four '6' digits. */
  lemma DiscoveryPortDigits()
    ensures DiscoveryPort == [DigitByte(6), DigitByte(6), DigitByte(6), DigitByte(6)]
  {
    var p := DiscoveryPort;
    forall i | 0 <= i < 4 ensures p[i] == 54 {
      assert p[i] as int == '6' as int;
    }
  }

  /** The digits of "6666" are worth 6666. */
  lemma DiscoveryPortValue()
    ensures AllDigits(DiscoveryPort) && DiscoveryPort[0] != Zero && DigitsValue(DiscoveryPort) == 6666
  {
    DiscoveryPortDigits();
    var six := DigitByte(6);
    var d1 := [six];
    var d2 := d1 + [six];
    var d3 := d2 + [six];
    assert DigitValue(six) == 6;
    assert DigitsValue(d1) == 6 by {
      DigitsValueSnoc([], six);
      assert [] + [six] == d1;
    }
    DigitsValueSnoc(d1, six);
    DigitsValueSnoc(d2, six);
    DigitsValueSnoc(d3, six);
    assert DiscoveryPort == d3 + [six];
  }
}
