/** Worked snapshots for the scorer: each lemma ranges over the networks
    of a snapshot shape (names, security, strengths and channels as given),
    scores its first entry and states the score and the reasons. */
module ScorerExamples {
  import opened Wrappers
  import opened Sequences
  import opened Strings
  import opened Network
  import opened ScorerConstants
  import opened ScorerEnums
  import opened Scorer

  /** No suspicious pattern occurs in `name`: each pattern holds a character
      (`blockers[k]` for pattern `k`) that `name` lacks. */
  lemma NoPatternIn(name: string, blockers: seq<char>)
    requires |blockers| == |SuspiciousSsidPatterns|
    requires forall k :: 0 <= k < |blockers| ==> blockers[k] in SuspiciousSsidPatterns[k] && blockers[k] !in name
    ensures forall k :: 0 <= k < |SuspiciousSsidPatterns| ==> !Contains(name, SuspiciousSsidPatterns[k])
  {
    forall k | 0 <= k < |SuspiciousSsidPatterns|
      ensures !Contains(name, SuspiciousSsidPatterns[k])
    {
      AbsentCharBlocks(name, SuspiciousSsidPatterns[k], blockers[k]);
    }
  }

  /** Similar SSIDs cannot fire when the lowered target name holds no
      pattern. */
  lemma NotSimilar(s: Snapshot, target: WiFiNetwork, blockers: seq<char>)
    requires |blockers| == |SuspiciousSsidPatterns|
    requires forall k :: 0 <= k < |blockers| ==> blockers[k] in SuspiciousSsidPatterns[k] && blockers[k] !in Lower(target.ssid)
    ensures !HasSimilarSsids(s, target)
  {
    NoPatternIn(Lower(target.ssid), blockers);
  }

  /** `c` lists, in catalog order, whether each rule fires for `t`. */
  predicate Outcomes(s: Snapshot, t: Target, c: seq<bool>)
  {
    && |c| == 7
    && c[0] == (t.network.securityType == Open)
    && c[1] == IsHandshakeVulnerable(t.network)
    && c[2] == HasDuplicateSsid(s, t.network)
    && c[3] == HasEvilTwinSignal(s, t.network)
    && c[4] == HasMultiChannel(s, t.network)
    && c[5] == HasSimilarSsids(s, t.network)
    && c[6] == HasOpenWithEncryptedDuplicate(s, t)
  }

  /** The score and the reasons, read off the rule outcomes. */
  lemma FromOutcomes(s: Snapshot, t: Target, c: seq<bool>)
    requires Outcomes(s, t, c)
    ensures TotalPoints(Triggered(s, t)) ==
      (if c[0] then 7 else 0) + (if c[1] then 6 else 0) + (if c[2] then 3 else 0) + (if c[3] then 4 else 0)
      + (if c[4] then 3 else 0) + (if c[5] then 3 else 0) + (if c[6] then 3 else 0)
    ensures Reasons(Triggered(s, t)) ==
      (if c[0] then [Reason(OpenNetwork)] else [])
      + (if c[1] then [Reason(HandshakeCapture)] else [])
      + (if c[2] then [Reason(DuplicateSsid)] else [])
      + (if c[3] then [Reason(EvilTwinSignal)] else [])
      + (if c[4] then [Reason(MultiChannelBroadcast)] else [])
      + (if c[5] then [Reason(SimilarSsids)] else [])
      + (if c[6] then [Reason(OpenWithEncrypted)] else [])
  {
    ScoreIsRuleSum(s, t);
    ReasonsAreRuleList(s, t);
  }

  /** No suspicious pattern occurs in the lower-cased name of `n`. */
  predicate PlainName(n: WiFiNetwork)
  {
    forall k :: 0 <= k < |SuspiciousSsidPatterns| ==> !Contains(Lower(n.ssid), SuspiciousSsidPatterns[k])
  }

  /** Similar SSIDs never fires for a target with a plain name. */
  lemma PlainNotSimilar(s: Snapshot, n: WiFiNetwork)
    requires PlainName(n)
    ensures !HasSimilarSsids(s, n)
  {
  }

  /** Multi-channel never fires when no entry reports a channel. */
  lemma Channelless(s: Snapshot, n: WiFiNetwork)
    requires forall i :: 0 <= i < |s| ==> s[i].channel == None
    ensures !HasMultiChannel(s, n)
  {
    MultiChannelIff(s, n);
  }

  // The names of the single-network and same-name pair tests hold no
  // suspicious pattern.

  lemma SecureIsPlain(a: WiFiNetwork)
    requires a.ssid == "Secure"
    ensures PlainName(a)
  {
    assert Lower(a.ssid) == "secure";
    NoPatternIn("secure", "fffgbwnha");
  }

  lemma OpenNetIsPlain(a: WiFiNetwork)
    requires a.ssid == "OpenNet"
    ensures PlainName(a)
  {
    assert Lower(a.ssid) == "opennet";
    NoPatternIn("opennet", "fffgbwiha");
  }

  lemma WPA2NetIsPlain(a: WiFiNetwork)
    requires a.ssid == "WPA2Net"
    ensures PlainName(a)
  {
    assert Lower(a.ssid) == "wpa2net";
    NoPatternIn("wpa2net", "fffgbfihc");
  }

  lemma DuplicateIsPlain(a: WiFiNetwork)
    requires a.ssid == "Duplicate"
    ensures PlainName(a)
  {
    assert Lower(a.ssid) == "duplicate";
    NoPatternIn("duplicate", "fffgbwnhs");
  }

  lemma MultiChIsPlain(a: WiFiNetwork)
    requires a.ssid == "MultiCh"
    ensures PlainName(a)
  {
    assert Lower(a.ssid) == "multich";
    NoPatternIn("multich", "fffgbwnoa");
  }

  lemma EvilTwinIsPlain(a: WiFiNetwork)
    requires a.ssid == "EvilTwin"
    ensures PlainName(a)
  {
    assert Lower(a.ssid) == "eviltwin";
    NoPatternIn("eviltwin", "fffgbfrha");
  }

  lemma ComplexIsPlain(a: WiFiNetwork)
    requires a.ssid == "Complex"
    ensures PlainName(a)
  {
    assert Lower(a.ssid) == "complex";
    NoPatternIn("complex", "fffgbwnha");
  }

  lemma MixedIsPlain(a: WiFiNetwork)
    requires a.ssid == "Mixed"
    ensures PlainName(a)
  {
    assert Lower(a.ssid) == "mixed";
    NoPatternIn("mixed", "fffgbwnha");
  }

  /** A network alone in the snapshot, with a plain name: only the rules
      about the network itself (open, handshake capture) can fire. */
  lemma LoneOutcomes(a: WiFiNetwork)
    requires PlainName(a)
    ensures Outcomes([a], At([a], 0), [a.securityType == Open, IsHandshakeVulnerable(a), false, false, false, false, false])
  {
    var s := [a];
    var t := At(s, 0);
    assert t.network == a;
    PlainNotSimilar(s, a);
    DuplicateCount(s, a.ssid);
    EvilTwinImpliesDuplicate(s, a);
    MultiChannelImpliesDuplicate(s, a);
    OpenWithEncryptedImpliesDuplicate(s, t);
  }

  /** Dropping the trailing empty pieces of the rule-by-rule reasons list. */
  lemma TrailingEmpty<T>(x: seq<T>, e: seq<T>)
    requires e == []
    ensures x + e + e + e + e + e == x
  {
  }

  /** A lone network with a plain name scores 7 when open, 6 when open to
      handshake capture, and 0 otherwise, with the matching reason. */
  lemma LoneNetwork(a: WiFiNetwork)
    requires PlainName(a)
    ensures var s := [a];
      && TotalPoints(Triggered(s, At(s, 0))) == (if a.securityType == Open then 7 else 0) + (if IsHandshakeVulnerable(a) then 6 else 0)
      && Reasons(Triggered(s, At(s, 0))) ==
        (if a.securityType == Open then [Reason(OpenNetwork)] else []) + (if IsHandshakeVulnerable(a) then [Reason(HandshakeCapture)] else [])
  {
    var c := [a.securityType == Open, IsHandshakeVulnerable(a), false, false, false, false, false];
    LoneOutcomes(a);
    FromOutcomes([a], At([a], 0), c);
    var e: seq<string> := [];
    TrailingEmpty((if c[0] then [Reason(OpenNetwork)] else []) + (if c[1] then [Reason(HandshakeCapture)] else []), e);
  }

  /** The instance WPA3 "Secure", alone: 0 points, no reasons. */
  lemma SecureSingle(a: WiFiNetwork)
    requires a.ssid == "Secure" && a.securityType == Wpa3
    ensures var s := [a];
      TotalPoints(Triggered(s, At(s, 0))) == 0 && Reasons(Triggered(s, At(s, 0))) == []
  {
    SecureIsPlain(a);
    LoneNetwork(a);
  }

  /** The instance OPEN "OpenNet", alone: 7 points. */
  lemma OpenSingle(a: WiFiNetwork)
    requires a.ssid == "OpenNet" && a.securityType == Open
    ensures var s := [a];
      TotalPoints(Triggered(s, At(s, 0))) == 7 && Reasons(Triggered(s, At(s, 0))) == ["Open network (+7)"]
  {
    OpenNetIsPlain(a);
    assert !IsHandshakeVulnerable(a);
    LoneNetwork(a);
    ReasonTexts();
  }

  /** The instance WPA2 "WPA2Net", alone: 6 points. */
  lemma HandshakeSingle(a: WiFiNetwork)
    requires a.ssid == "WPA2Net" && a.securityType == Wpa2
    ensures var s := [a];
      TotalPoints(Triggered(s, At(s, 0))) == 6 && Reasons(Triggered(s, At(s, 0))) == ["Handshake capture possible (+6)"]
  {
    WPA2NetIsPlain(a);
    LoneNetwork(a);
    ReasonTexts();
  }

  /** An OPEN network followed by a secured network of the same name: the
      name is duplicated and the open target has an encrypted twin. */
  lemma SecuredTwin(a: WiFiNetwork, b: WiFiNetwork)
    requires a.ssid == b.ssid && a.securityType == Open && b.IsSecured()
    ensures HasDuplicateSsid([a, b], a) && HasOpenWithEncryptedDuplicate([a, b], At([a, b], 0))
  {
    var s := [a, b];
    DuplicateCount(s, a.ssid);
    assert TwoWithSsid(s, a.ssid);
    assert 1 !in At(s, 0).positions && s[1].ssid == a.ssid && s[1].IsSecured();
  }

  /** Two entries within 20 dB of each other are no evil twin. */
  lemma CloseSignals(a: WiFiNetwork, b: WiFiNetwork)
    requires -SignalDiffThreshold <= a.signalStrength - b.signalStrength <= SignalDiffThreshold
    ensures !HasEvilTwinSignal([a, b], a)
  {
    EvilTwinIff([a, b], a);
  }

  /** An OPEN network next to a WPA2 network of the same name and more than
      20 dB weaker, neither with a channel, with a plain name: open,
      duplicate, evil twin and open-with-encrypted fire. */
  lemma WeakerTwinOutcomes(a: WiFiNetwork, b: WiFiNetwork)
    requires a.ssid == b.ssid && a.securityType == Open && b.securityType == Wpa2
    requires a.signalStrength - b.signalStrength > SignalDiffThreshold
    requires a.channel == None && b.channel == None
    requires PlainName(a)
    ensures Outcomes([a, b], At([a, b], 0), [true, false, true, true, false, false, true])
  {
    var s := [a, b];
    var t := At(s, 0);
    assert t.network == a;
    PlainNotSimilar(s, a);
    SecuredTwin(a, b);
    assert SpreadPair(s, a.ssid, 0, 1);
    SpreadPairIsEvilTwin(s, a, 0, 1);
    Channelless(s, a);
  }

  /** The same pair scores 7 + 3 + 4 + 3 = 17, with four reasons in
      catalog order. */
  lemma OpenBesideWeakerTwin(a: WiFiNetwork, b: WiFiNetwork)
    requires a.ssid == b.ssid && a.securityType == Open && b.securityType == Wpa2
    requires a.signalStrength - b.signalStrength > SignalDiffThreshold
    requires a.channel == None && b.channel == None
    requires PlainName(a)
    ensures var s := [a, b];
      && TotalPoints(Triggered(s, At(s, 0))) == 17
      && Reasons(Triggered(s, At(s, 0))) ==
        ["Open network (+7)", "Duplicate SSID (+3)", "Evil twin signal (+4)", "Open with encrypted duplicate (+3)"]
  {
    var s := [a, b];
    var t := At(s, 0);
    var c := [true, false, true, true, false, false, true];
    WeakerTwinOutcomes(a, b);
    FromOutcomes(s, t, c);
    ReasonTexts();
    var e: seq<string> := [];
    assert Reasons(Triggered(s, t)) ==
      [Reason(OpenNetwork)] + e + [Reason(DuplicateSsid)] + [Reason(EvilTwinSignal)] + e + e + [Reason(OpenWithEncrypted)];
    Gather(Reason(OpenNetwork), Reason(DuplicateSsid), Reason(EvilTwinSignal), Reason(OpenWithEncrypted), e);
  }

  /** Dropping the empty pieces of the rule-by-rule reasons list. */
  lemma Gather<T>(a: T, b: T, c: T, d: T, e: seq<T>)
    requires e == []
    ensures [a] + e + [b] + [c] + e + e + [d] == [a, b, c, d]
  {
  }

  /** The instance OPEN "Complex" at -30 dBm beside WPA2 "Complex" at
      -80 dBm, neither with a channel: 17 points, four reasons. */
  lemma ComplexRisks(a: WiFiNetwork, b: WiFiNetwork)
    requires a.ssid == "Complex" && b.ssid == "Complex" && a.securityType == Open && b.securityType == Wpa2
    requires a.signalStrength == -30 && b.signalStrength == -80 && a.channel == None && b.channel == None
    ensures var s := [a, b];
      && TotalPoints(Triggered(s, At(s, 0))) == 17
      && |Reasons(Triggered(s, At(s, 0)))| == 4
  {
    ComplexIsPlain(a);
    OpenBesideWeakerTwin(a, b);
  }

  /** An OPEN network beside a secured network of the same name within
      20 dB, neither with a channel, with a plain name: open, duplicate and
      open-with-encrypted fire. */
  lemma SecuredTwinOutcomes(a: WiFiNetwork, b: WiFiNetwork)
    requires a.ssid == b.ssid && a.securityType == Open && b.IsSecured()
    requires -SignalDiffThreshold <= a.signalStrength - b.signalStrength <= SignalDiffThreshold
    requires a.channel == None && b.channel == None
    requires PlainName(a)
    ensures Outcomes([a, b], At([a, b], 0), [true, false, true, false, false, false, true])
  {
    var s := [a, b];
    var t := At(s, 0);
    assert t.network == a;
    PlainNotSimilar(s, a);
    SecuredTwin(a, b);
    CloseSignals(a, b);
    Channelless(s, a);
  }

  /** The same pair scores 7 + 3 + 3 = 13. */
  lemma OpenBesideSecuredTwin(a: WiFiNetwork, b: WiFiNetwork)
    requires a.ssid == b.ssid && a.securityType == Open && b.IsSecured()
    requires -SignalDiffThreshold <= a.signalStrength - b.signalStrength <= SignalDiffThreshold
    requires a.channel == None && b.channel == None
    requires PlainName(a)
    ensures var s := [a, b];
      TotalPoints(Triggered(s, At(s, 0))) == 13
  {
    SecuredTwinOutcomes(a, b);
    FromOutcomes([a, b], At([a, b], 0), [true, false, true, false, false, false, true]);
  }

  /** The instance OPEN "Mixed" beside WPA2 "Mixed", both at -50 dBm and
      neither with a channel: 13 points. */
  lemma MixedSecurity(a: WiFiNetwork, b: WiFiNetwork)
    requires a.ssid == "Mixed" && b.ssid == "Mixed" && a.securityType == Open && b.securityType == Wpa2
    requires a.signalStrength == -50 && b.signalStrength == -50 && a.channel == None && b.channel == None
    ensures var s := [a, b];
      TotalPoints(Triggered(s, At(s, 0))) == 13
  {
    MixedIsPlain(a);
    OpenBesideSecuredTwin(a, b);
  }

  /** A WPA3 target whose name is shared by no other entry, in a snapshot of
      three names that all contain "wifi" once lowered: only similar SSIDs
      fires. */
  lemma SharedPatternOutcomes(a: WiFiNetwork, b: WiFiNetwork, c: WiFiNetwork)
    requires a.securityType == Wpa3 && a.ssid != b.ssid && a.ssid != c.ssid
    requires Contains(Lower(a.ssid), "wifi") && Contains(Lower(b.ssid), "wifi") && Contains(Lower(c.ssid), "wifi")
    ensures Outcomes([a, b, c], At([a, b, c], 0), [false, false, false, false, false, true, false])
  {
    var s := [a, b, c];
    var t := At(s, 0);
    ThreeWifiNames(a, b, c);
    DuplicateCount(s, a.ssid);
    EvilTwinImpliesDuplicate(s, t.network);
    MultiChannelImpliesDuplicate(s, t.network);
  }

  /** Three names holding "wifi" once lowered flag the first of them. */
  lemma ThreeWifiNames(a: WiFiNetwork, b: WiFiNetwork, c: WiFiNetwork)
    requires Contains(Lower(a.ssid), "wifi") && Contains(Lower(b.ssid), "wifi") && Contains(Lower(c.ssid), "wifi")
    ensures HasSimilarSsids([a, b, c], a)
  {
    var s := [a, b, c];
    assert SuspiciousSsidPatterns[5] == "wifi";
    SimilarSsidsIff(s, a);
    assert LoweredSsids(s)[0] == Lower(a.ssid) && LoweredSsids(s)[1] == Lower(b.ssid) && LoweredSsids(s)[2] == Lower(c.ssid);
    assert Occurs("wifi")(LoweredSsids(s)[0]) && Occurs("wifi")(LoweredSsids(s)[1]) && Occurs("wifi")(LoweredSsids(s)[2]);
    assert ThreeWhere(LoweredSsids(s), Occurs("wifi"));
  }

  /** The same snapshot scores 3. */
  lemma SharedPatternOnly(a: WiFiNetwork, b: WiFiNetwork, c: WiFiNetwork)
    requires a.securityType == Wpa3 && a.ssid != b.ssid && a.ssid != c.ssid
    requires Contains(Lower(a.ssid), "wifi") && Contains(Lower(b.ssid), "wifi") && Contains(Lower(c.ssid), "wifi")
    ensures var s := [a, b, c];
      TotalPoints(Triggered(s, At(s, 0))) == 3
  {
    SharedPatternOutcomes(a, b, c);
    FromOutcomes([a, b, c], At([a, b, c], 0), [false, false, false, false, false, true, false]);
  }

  /** "wifi" occurs, once lowered, in a name holding "WiFi" at `k`. */
  lemma WifiAt(name: string, k: nat)
    requires k + 4 <= |name| && name[k..k + 4] == "WiFi"
    ensures Contains(Lower(name), "wifi")
  {
    var lowered := Lower(name);
    assert name[k] == 'W' && name[k + 1] == 'i' && name[k + 2] == 'F' && name[k + 3] == 'i';
    assert lowered[k..k + 4] == "wifi";
    assert OccursAt(lowered, "wifi", k);
    ContainsIff(lowered, "wifi");
  }

  /** The instance WPA3 "Free_WiFi", "FreeWiFi", "Free WiFi": the pattern
      "wifi" is the one that occurs in all three lowered names, so the first
      scores 3. */
  lemma SimilarNames(a: WiFiNetwork, b: WiFiNetwork, c: WiFiNetwork)
    requires a.ssid == "Free_WiFi" && b.ssid == "FreeWiFi" && c.ssid == "Free WiFi"
    requires a.securityType == Wpa3
    ensures var s := [a, b, c];
      TotalPoints(Triggered(s, At(s, 0))) == 3
  {
    assert a.ssid[5..9] == "WiFi" && b.ssid[4..8] == "WiFi" && c.ssid[5..9] == "WiFi";
    assert a.ssid[4] != b.ssid[4] && a.ssid[4] != c.ssid[4];
    WifiAt(a.ssid, 5);
    WifiAt(b.ssid, 4);
    WifiAt(c.ssid, 5);
    SharedPatternOnly(a, b, c);
  }

  /** Two WPA3 networks of the same plain name: duplicate SSID fires, and
      evil twin and multi-channel fire as their own tests say. */
  lemma SecurePairOutcomes(a: WiFiNetwork, b: WiFiNetwork)
    requires a.ssid == b.ssid && a.securityType == Wpa3 && b.securityType == Wpa3
    requires PlainName(a)
    ensures Outcomes([a, b], At([a, b], 0),
      [false, false, true, HasEvilTwinSignal([a, b], a), HasMultiChannel([a, b], a), false, false])
  {
    var s := [a, b];
    var t := At(s, 0);
    assert t.network == a;
    PlainNotSimilar(s, a);
    DuplicateCount(s, a.ssid);
    assert TwoWithSsid(s, a.ssid);
  }

  /** Such a pair scores 3, plus 4 for an evil twin, plus 3 for several
      channels. */
  lemma SecurePair(a: WiFiNetwork, b: WiFiNetwork)
    requires a.ssid == b.ssid && a.securityType == Wpa3 && b.securityType == Wpa3
    requires PlainName(a)
    ensures var s := [a, b];
      TotalPoints(Triggered(s, At(s, 0))) ==
        3 + (if HasEvilTwinSignal(s, a) then 4 else 0) + (if HasMultiChannel(s, a) then 3 else 0)
  {
    SecurePairOutcomes(a, b);
    FromOutcomes([a, b], At([a, b], 0),
      [false, false, true, HasEvilTwinSignal([a, b], a), HasMultiChannel([a, b], a), false, false]);
  }

  /** Two entries of one name on two different known channels. */
  lemma TwoChannels(a: WiFiNetwork, b: WiFiNetwork)
    requires a.ssid == b.ssid && HasKnownChannel(a) && HasKnownChannel(b) && a.channel.value != b.channel.value
    ensures HasMultiChannel([a, b], a)
  {
    var s := [a, b];
    MultiChannelIff(s, a);
    assert s[0] == a && s[1] == b;
  }

  /** The instance WPA3 "Duplicate" twice, 10 dB apart, without channels:
      3 points. */
  lemma DuplicatePair(a: WiFiNetwork, b: WiFiNetwork)
    requires a.ssid == "Duplicate" && b.ssid == "Duplicate" && a.securityType == Wpa3 && b.securityType == Wpa3
    requires a.signalStrength == -50 && b.signalStrength == -60 && a.channel == None && b.channel == None
    ensures var s := [a, b];
      TotalPoints(Triggered(s, At(s, 0))) == 3
  {
    DuplicateIsPlain(a);
    CloseSignals(a, b);
    Channelless([a, b], a);
    SecurePair(a, b);
  }

  /** The instance WPA3 "MultiCh" twice at the same strength, on channels
      6 and 11: 6 points. */
  lemma MultiChannelPair(a: WiFiNetwork, b: WiFiNetwork)
    requires a.ssid == "MultiCh" && b.ssid == "MultiCh" && a.securityType == Wpa3 && b.securityType == Wpa3
    requires a.signalStrength == -50 && b.signalStrength == -50 && a.channel == Some(6) && b.channel == Some(11)
    ensures var s := [a, b];
      TotalPoints(Triggered(s, At(s, 0))) == 6
  {
    MultiChIsPlain(a);
    CloseSignals(a, b);
    TwoChannels(a, b);
    SecurePair(a, b);
  }

  /** The instance WPA3 "EvilTwin" at -30 and -80 dBm without channels:
      7 points. */
  lemma EvilTwinPair(a: WiFiNetwork, b: WiFiNetwork)
    requires a.ssid == "EvilTwin" && b.ssid == "EvilTwin" && a.securityType == Wpa3 && b.securityType == Wpa3
    requires a.signalStrength == -30 && b.signalStrength == -80 && a.channel == None && b.channel == None
    ensures var s := [a, b];
      TotalPoints(Triggered(s, At(s, 0))) == 7
  {
    EvilTwinIsPlain(a);
    assert SpreadPair([a, b], a.ssid, 0, 1);
    SpreadPairIsEvilTwin([a, b], a, 0, 1);
    Channelless([a, b], a);
    SecurePair(a, b);
  }

  /** The evil-twin threshold is strict: two entries of one name whose
      signals are exactly 20 dB apart are no evil twin, 21 dB apart are. */
  lemma EvilTwinThreshold(a: WiFiNetwork, b: WiFiNetwork)
    requires a.ssid == b.ssid
    ensures a.signalStrength - b.signalStrength == 20 ==> !HasEvilTwinSignal([a, b], a)
    ensures a.signalStrength - b.signalStrength == 21 ==> HasEvilTwinSignal([a, b], a)
  {
    if a.signalStrength - b.signalStrength == 20 {
      CloseSignals(a, b);
    } else if a.signalStrength - b.signalStrength == 21 {
      assert SpreadPair([a, b], a.ssid, 0, 1);
      SpreadPairIsEvilTwin([a, b], a, 0, 1);
    }
  }
}
