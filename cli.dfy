/** The command-line pieces with logic in them (wst/cli.py): choosing the
    target network from the scanned list, the ten-segment signal bar and
    the channel column; and what scoring a scanned target can add up to. */
module Cli {
  import opened Wrappers
  import opened Sequences
  import opened Network
  import opened ScorerEnums
  import opened Scorer
  import opened Scanner

  // ---------------------------------------------------------------------
  // Choosing the target

  /** An optional argument Python treats as truthy: present and not "". */
  predicate Given(x: Option<string>)
  {
    x.Some? && x.value != ""
  }

  /** The test `find_network` applies: both names when both are given,
      otherwise the one that is given; nothing matches when neither is. */
  predicate Wanted(n: WiFiNetwork, ssid: Option<string>, bssid: Option<string>)
  {
    if Given(ssid) && Given(bssid) then n.ssid == ssid.value && n.bssid == bssid.value
    else if Given(ssid) then n.ssid == ssid.value
    else if Given(bssid) then n.bssid == bssid.value
    else false
  }

  /** `find_network`: the position of the first network passing the test
      for the arguments given, None when no network passes or neither
      argument is given. */
  function FindNetwork(ns: seq<WiFiNetwork>, ssid: Option<string>, bssid: Option<string>): (r: Option<nat>)
    ensures r.Some? ==> r.value < |ns| && Wanted(ns[r.value], ssid, bssid)
    ensures r.Some? ==> forall j :: 0 <= j < r.value ==> !Wanted(ns[j], ssid, bssid)
    ensures r.None? <==> forall j :: 0 <= j < |ns| ==> !Wanted(ns[j], ssid, bssid)
  {
    if Given(ssid) && Given(bssid) then
      FirstIndex(ns, (n: WiFiNetwork) => n.ssid == ssid.value && n.bssid == bssid.value)
    else if Given(ssid) then
      FirstIndex(ns, (n: WiFiNetwork) => n.ssid == ssid.value)
    else if Given(bssid) then
      FirstIndex(ns, (n: WiFiNetwork) => n.bssid == bssid.value)
    else None
  }

  /** The three ways of asking, spelled out: with both arguments the first
      network with that name and that hardware address; with one, the first
      network carrying it; with neither (None or empty), no network. */
  lemma FindNetworkCases(ns: seq<WiFiNetwork>, ssid: Option<string>, bssid: Option<string>)
    ensures Given(ssid) && Given(bssid) && FindNetwork(ns, ssid, bssid).Some? ==>
      var p := FindNetwork(ns, ssid, bssid).value;
      ns[p].ssid == ssid.value && ns[p].bssid == bssid.value
    ensures Given(ssid) && !Given(bssid) ==>
      (FindNetwork(ns, ssid, bssid).Some? <==> exists j :: 0 <= j < |ns| && ns[j].ssid == ssid.value)
    ensures !Given(ssid) && Given(bssid) ==>
      (FindNetwork(ns, ssid, bssid).Some? <==> exists j :: 0 <= j < |ns| && ns[j].bssid == bssid.value)
    ensures !Given(ssid) && !Given(bssid) ==> FindNetwork(ns, ssid, bssid) == None
    ensures FindNetwork(ns, Some(""), Some("")) == None
  {
    if Given(ssid) && !Given(bssid) && exists j :: 0 <= j < |ns| && ns[j].ssid == ssid.value {
      var j :| 0 <= j < |ns| && ns[j].ssid == ssid.value;
      assert Wanted(ns[j], ssid, bssid);
    }
    if !Given(ssid) && Given(bssid) && exists j :: 0 <= j < |ns| && ns[j].bssid == bssid.value {
      var j :| 0 <= j < |ns| && ns[j].bssid == bssid.value;
      assert Wanted(ns[j], ssid, bssid);
    }
  }

  // ---------------------------------------------------------------------
  // The table row

  /** `SIGNAL_BAR_SEGMENTS`. */
  const SignalBarSegments: int := 10

  const FullSegment: char := '█'
  const EmptySegment: char := '░'

  /** Python's `c * n`: `n` copies, none when `n` is not positive. */
  function Repeat(c: char, n: int): (r: string)
    ensures |r| == if n <= 0 then 0 else n
    ensures forall i :: 0 <= i < |r| ==> r[i] == c
    decreases if n <= 0 then 0 else n
  {
    if n <= 0 then [] else [c] + Repeat(c, n - 1)
  }

  /** The signal bar of `format_table_row`: `quality // 10` full segments
      followed by `10 - quality // 10` empty ones. */
  function QualityBar(quality: int): (r: string)
    ensures 0 <= quality <= 100 ==> |r| == SignalBarSegments
    ensures 0 <= quality <= 100 ==> forall i :: 0 <= i < |r| ==>
      (r[i] == FullSegment <==> i < quality / SignalBarSegments)
      && (r[i] == EmptySegment <==> i >= quality / SignalBarSegments)
  {
    var full := quality / SignalBarSegments;
    var r := Repeat(FullSegment, full) + Repeat(EmptySegment, SignalBarSegments - full);
    assert 0 <= quality <= 100 ==> forall i :: 0 <= i < |r| ==>
      (i < full ==> r[i] == FullSegment) && (i >= full ==> r[i] == EmptySegment);
    r
  }

  /** Every network's bar is ten segments, and a stronger signal never
      shows fewer full segments. */
  lemma NetworkBar(a: WiFiNetwork, b: WiFiNetwork)
    requires a.signalStrength <= b.signalStrength
    ensures |QualityBar(a.SignalQuality())| == SignalBarSegments
    ensures a.SignalQuality() / SignalBarSegments <= b.SignalQuality() / SignalBarSegments
  {
    SignalQualityMonotone(a, b);
  }

  /** The bar at -60 dBm (quality 80): eight full segments, two empty. */
  lemma BarExample()
    ensures QualityBar(80) == [FullSegment, FullSegment, FullSegment, FullSegment, FullSegment,
                               FullSegment, FullSegment, FullSegment, EmptySegment, EmptySegment]
  {
    var r := QualityBar(80);
    assert |r| == 10;
  }

  /** The channel column, `get_channel() or 0`: a missing channel shows as
      0, and a known one as itself. */
  function DisplayChannel(n: WiFiNetwork): (c: int)
    ensures c == 0 <==> !HasKnownChannel(n)
    ensures HasKnownChannel(n) ==> c == n.channel.value
  {
    if n.channel.Some? && n.channel.value != 0 then n.channel.value else 0
  }

  // ---------------------------------------------------------------------
  // Scoring a scanned target

  /** Distinct names mean no name occurs twice. */
  lemma DistinctMeansNoDuplicate(s: Snapshot, ssid: string)
    requires DistinctSsids(s)
    ensures |SsidDuplicates(s, ssid)| <= 1
  {
    DuplicateCount(s, ssid);
  }

  /** `cmd_score` scores a target taken from the list `scan` returned. That
      list holds each name once, so the duplicate, evil-twin,
      multi-channel and open-with-encrypted rules never fire, and the score
      is at most 10 (open plus similar names). */
  lemma ScannedTargetQuiet(aps: seq<AccessPoint>, p: nat)
    requires p < |ScanResult(aps)|
    ensures var s := ScanResult(aps);
      && !Fires(DuplicateSsid, s, At(s, p))
      && !Fires(EvilTwinSignal, s, At(s, p))
      && !Fires(MultiChannelBroadcast, s, At(s, p))
      && !Fires(OpenWithEncrypted, s, At(s, p))
    ensures var s := ScanResult(aps);
      TotalPoints(Triggered(s, At(s, p))) <= 10
  {
    var s := ScanResult(aps);
    var t := At(s, p);
    ScanResultProperties(aps);
    DistinctMeansNoDuplicate(s, t.network.ssid);
    EvilTwinImpliesDuplicate(s, t.network);
    MultiChannelImpliesDuplicate(s, t.network);
    OpenWithEncryptedImpliesDuplicate(s, t);
    ScoreIsRuleSum(s, t);
  }

  /** Hence the target `find_network` picks from a scan never rates above
      Medium: a score of at most 10 has rating at most 5. */
  lemma FoundTargetRating(aps: seq<AccessPoint>, ssid: Option<string>, bssid: Option<string>)
    requires FindNetwork(ScanResult(aps), ssid, bssid).Some?
    ensures var s := ScanResult(aps);
      var t := At(s, FindNetwork(s, ssid, bssid).value);
      RiskLevelOf(TotalPoints(Triggered(s, t))).1 <= 5
  {
    var s := ScanResult(aps);
    var p := FindNetwork(s, ssid, bssid).value;
    ScannedTargetQuiet(aps, p);
    RatingMonotone(TotalPoints(Triggered(s, At(s, p))), 10);
    FromScoreBands(10);
  }
}
