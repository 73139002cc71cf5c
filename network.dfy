/** The network record: one observed access point, immutable once built,
    with its derived signal quality and its secured / connected predicates
    (wst/network/enums.py and wst/network/wifi_network.py). */
module Network {
  import opened Wrappers

  datatype SecurityType = Open | Wep | Wpa | Wpa2 | Wpa3 | WpaWpa2

  datatype ConnectionState = Connected | Connecting | Disconnected | Failed

  /** Every field is what the constructor was given; the getters of the
      Python class are the datatype's field selectors. */
  datatype WiFiNetwork = WiFiNetwork(
    ssid: string,
    bssid: string,
    signalStrength: int,   // dBm
    frequency: int,        // MHz
    securityType: SecurityType,
    connectionState: ConnectionState,
    channel: Option<int>)
  {
    /** Signal quality in percent: saturates at 100 from -30 dBm upward and
        at 0 from -90 dBm downward, and is 2 * (dBm + 100) capped at 100 in
        between, so the cap already applies from -50 dBm. */
    function SignalQuality(): (q: int)
      ensures 0 <= q <= 100
      ensures signalStrength >= -50 ==> q == 100
      ensures signalStrength <= -90 ==> q == 0
      ensures -90 < signalStrength < -50 ==> q == 2 * (signalStrength + 100)
    {
      if signalStrength >= -30 then 100
      else if signalStrength <= -90 then 0
      else Min(100, 2 * (signalStrength + 100))
    }

    predicate IsSecured()
    {
      securityType != Open
    }

    predicate IsConnected()
    {
      connectionState == Connected
    }
  }

  function Min(a: int, b: int): int
  {
    if a <= b then a else b
  }

  /** `WiFiNetwork(ssid, bssid, signal_strength, frequency, security_type,
      connection_state=DISCONNECTED, channel=None)`. */
  function NewNetwork(ssid: string, bssid: string, signalStrength: int, frequency: int,
                      securityType: SecurityType,
                      connectionState: ConnectionState := Disconnected,
                      channel: Option<int> := None): WiFiNetwork
  {
    WiFiNetwork(ssid, bssid, signalStrength, frequency, securityType, connectionState, channel)
  }

  /** Every getter returns its constructor argument; the connection state
      defaults to DISCONNECTED and the channel to None. */
  lemma NewNetworkFields(ssid: string, bssid: string, signalStrength: int, frequency: int,
                         securityType: SecurityType, connectionState: ConnectionState, channel: Option<int>)
    ensures var n := NewNetwork(ssid, bssid, signalStrength, frequency, securityType);
      && n.ssid == ssid && n.bssid == bssid && n.signalStrength == signalStrength
      && n.frequency == frequency && n.securityType == securityType
      && n.connectionState == Disconnected && n.channel == None
    ensures var n := NewNetwork(ssid, bssid, signalStrength, frequency, securityType, connectionState, channel);
      && n.ssid == ssid && n.bssid == bssid && n.signalStrength == signalStrength
      && n.frequency == frequency && n.securityType == securityType
      && n.connectionState == connectionState && n.channel == channel
  {
  }

  /** A stronger signal never shows a lower quality. */
  lemma SignalQualityMonotone(a: WiFiNetwork, b: WiFiNetwork)
    requires a.signalStrength <= b.signalStrength
    ensures a.SignalQuality() <= b.SignalQuality()
  {
  }

  /** The quality values the tests check: -90 dBm gives 0, -60 dBm gives 80
      and -30 dBm gives 100. */
  lemma SignalQualityExamples(n: WiFiNetwork)
    ensures n.signalStrength == -90 ==> n.SignalQuality() == 0
    ensures n.signalStrength == -60 ==> n.SignalQuality() == 80
    ensures n.signalStrength == -30 ==> n.SignalQuality() == 100
  {
  }

  /** Secured means any of the five non-open security types. */
  lemma SecuredIffNotOpen(n: WiFiNetwork)
    ensures n.IsSecured() <==> n.securityType in {Wep, Wpa, Wpa2, Wpa3, WpaWpa2}
    ensures !n.IsSecured() <==> n.securityType == Open
  {
  }

  /** Connected holds in exactly one of the four connection states. */
  lemma ConnectedIffConnectedState(n: WiFiNetwork)
    ensures n.IsConnected() <==> n.connectionState !in {Connecting, Disconnected, Failed}
  {
  }
}
