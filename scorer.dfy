/** The scoring engine (wst/scorer/wifi_scorer.py): seven additive rules
    evaluated over a snapshot for one target, and the mapping of a score
    to a tier name and a 1-10 rating. */
module Scorer {
  import opened Wrappers
  import opened Sequences
  import opened Strings
  import opened Network
  import opened ScorerConstants
  import opened ScorerEnums

  /** One scan instant: the networks the scorer correlates against. */
  type Snapshot = seq<WiFiNetwork>

  /** The network being scored. Python compares it by object identity, so
      besides its fields the target carries the snapshot positions that
      hold this very object (none when it is not in the snapshot). */
  datatype Target = Target(network: WiFiNetwork, positions: set<nat>)

  /** Every position the target claims holds the target's own record. */
  predicate DrawnFrom(s: Snapshot, t: Target)
  {
    forall i :: i in t.positions ==> i < |s| && s[i] == t.network
  }

  /** The object at position `p` of the snapshot, as the command line
      passes it: every record of a scan is a distinct object. */
  function At(s: Snapshot, p: nat): (t: Target)
    requires p < |s|
    ensures DrawnFrom(s, t) && t.network == s[p]
  {
    Target(s[p], {p})
  }

  // ---------------------------------------------------------------------
  // Same-name group

  /** `_get_ssid_duplicates`: the snapshot entries whose name is exactly
      `ssid`, in snapshot order. */
  function SsidDuplicates(s: Snapshot, ssid: string): (r: Snapshot)
    ensures |r| <= |s|
    ensures forall n :: n in r <==> n in s && n.ssid == ssid
    decreases |s|
  {
    if s == [] then []
    else
      assert s == [s[0]] + s[1..];
      (if s[0].ssid == ssid then [s[0]] else []) + SsidDuplicates(s[1..], ssid)
  }

  /** Two different snapshot positions carry the name `ssid`. */
  predicate TwoWithSsid(s: Snapshot, ssid: string)
  {
    exists i, j :: 0 <= i < j < |s| && s[i].ssid == ssid && s[j].ssid == ssid
  }

  /** The membership test of `_get_ssid_duplicates`. */
  function NamedAs(ssid: string): WiFiNetwork -> bool
  {
    (n: WiFiNetwork) => n.ssid == ssid
  }

  /** The group is as long as the count of entries with the name. */
  lemma {:induction false} DuplicatesCounted(s: Snapshot, ssid: string)
    ensures |SsidDuplicates(s, ssid)| == CountWhere(s, NamedAs(ssid))
    decreases |s|
  {
    if s != [] {
      DuplicatesCounted(s[1..], ssid);
    }
  }

  /** The group has more than one member exactly when two positions share
      the name. */
  lemma DuplicateCount(s: Snapshot, ssid: string)
    ensures |SsidDuplicates(s, ssid)| > 1 <==> TwoWithSsid(s, ssid)
  {
    DuplicatesCounted(s, ssid);
    CountAtLeastTwo(s, NamedAs(ssid));
    assert TwoWhere(s, NamedAs(ssid)) <==> TwoWithSsid(s, ssid) by {
      if TwoWithSsid(s, ssid) {
        var i, j :| 0 <= i < j < |s| && s[i].ssid == ssid && s[j].ssid == ssid;
        assert NamedAs(ssid)(s[i]) && NamedAs(ssid)(s[j]);
      }
    }
  }

  // ---------------------------------------------------------------------
  // The rule predicates

  /** `_has_duplicate_ssid`. */
  predicate HasDuplicateSsid(s: Snapshot, target: WiFiNetwork)
  {
    |SsidDuplicates(s, target.ssid)| > 1
  }

  function Signals(ns: Snapshot): seq<int>
  {
    seq(|ns|, i requires 0 <= i < |ns| => ns[i].signalStrength)
  }

  /** `_has_evil_twin_signal`: a group of at least two whose strongest and
      weakest signals are more than the threshold apart. */
  predicate HasEvilTwinSignal(s: Snapshot, target: WiFiNetwork)
  {
    var dups := SsidDuplicates(s, target.ssid);
    if |dups| < 2 then false
    else MaxOf(Signals(dups)) - MinOf(Signals(dups)) > SignalDiffThreshold
  }

  /** A channel Python treats as truthy: present and not 0. */
  predicate HasKnownChannel(n: WiFiNetwork)
  {
    n.channel.Some? && n.channel.value != 0
  }

  function Channels(ns: Snapshot): set<int>
  {
    set n | n in ns && HasKnownChannel(n) :: n.channel.value
  }

  /** `_has_multi_channel`: the group shows more than one distinct known
      channel. */
  predicate HasMultiChannel(s: Snapshot, target: WiFiNetwork)
  {
    |Channels(SsidDuplicates(s, target.ssid))| > 1
  }

  function LoweredSsids(s: Snapshot): seq<string>
  {
    seq(|s|, i requires 0 <= i < |s| => Lower(s[i].ssid))
  }

  /** The test `pattern in ssid`, as a function of the name. */
  function Occurs(p: string): string -> bool
  {
    (name: string) => Contains(name, p)
  }

  /** `sum(1 for ssid in all_ssids if pattern in ssid)`. */
  function CountContaining(names: seq<string>, p: string): nat
  {
    CountWhere(names, Occurs(p))
  }

  /** Pattern `p` occurs in the lower-cased target name and in at least
      three lower-cased snapshot names. */
  predicate PatternFlagged(s: Snapshot, targetSsid: string, p: string)
  {
    Contains(Lower(targetSsid), p) && CountContaining(LoweredSsids(s), p) >= SimilarSsidThreshold
  }

  /** What `_has_similar_ssids` decides: some suspicious pattern is
      flagged. */
  predicate HasSimilarSsids(s: Snapshot, target: WiFiNetwork)
  {
    exists k :: 0 <= k < |SuspiciousSsidPatterns| && PatternFlagged(s, target.ssid, SuspiciousSsidPatterns[k])
  }

  /** `_has_similar_ssids`: the pattern loop with its early return. A
      pattern that matches the target but misses the count does not stop
      the search. */
  method SimilarSsidsSearch(s: Snapshot, target: WiFiNetwork) returns (found: bool)
    ensures found == HasSimilarSsids(s, target)
  {
    var targetSsid := Lower(target.ssid);
    var allSsids := LoweredSsids(s);
    for k := 0 to |SuspiciousSsidPatterns|
      invariant forall j :: 0 <= j < k ==> !PatternFlagged(s, target.ssid, SuspiciousSsidPatterns[j])
    {
      var pattern := SuspiciousSsidPatterns[k];
      if Contains(targetSsid, pattern) {
        var matches := CountContaining(allSsids, pattern);
        if matches >= SimilarSsidThreshold {
          return true;
        }
      }
    }
    return false;
  }

  /** `_has_open_with_encrypted_duplicate`: the target is open and some
      other object of its group is secured. */
  predicate HasOpenWithEncryptedDuplicate(s: Snapshot, t: Target)
  {
    && t.network.securityType == Open
    && exists i :: 0 <= i < |s| && i !in t.positions && s[i].ssid == t.network.ssid && s[i].IsSecured()
  }

  /** `_is_handshake_vulnerable`. */
  predicate IsHandshakeVulnerable(n: WiFiNetwork)
  {
    n.securityType in {Wpa, Wpa2, WpaWpa2}
  }

  // ---------------------------------------------------------------------
  // What each rule means

  /** Two entries named `ssid` whose signals are more than the threshold
      apart. */
  predicate SpreadPair(s: Snapshot, ssid: string, i: int, j: int)
  {
    && 0 <= i < |s| && 0 <= j < |s| && s[i].ssid == ssid && s[j].ssid == ssid
    && s[i].signalStrength - s[j].signalStrength > SignalDiffThreshold
  }

  lemma EvilTwinHasSpreadPair(s: Snapshot, target: WiFiNetwork)
    requires HasEvilTwinSignal(s, target)
    ensures exists i, j :: SpreadPair(s, target.ssid, i, j)
  {
    var dups := SsidDuplicates(s, target.ssid);
    var sig := Signals(dups);
    var a :| 0 <= a < |sig| && sig[a] == MaxOf(sig);
    var b :| 0 <= b < |sig| && sig[b] == MinOf(sig);
    assert dups[a] in dups && dups[b] in dups;
    var i :| 0 <= i < |s| && s[i] == dups[a];
    var j :| 0 <= j < |s| && s[j] == dups[b];
    assert SpreadPair(s, target.ssid, i, j);
  }

  lemma SpreadPairIsEvilTwin(s: Snapshot, target: WiFiNetwork, i: int, j: int)
    requires SpreadPair(s, target.ssid, i, j)
    ensures HasEvilTwinSignal(s, target) && HasDuplicateSsid(s, target)
  {
    var dups := SsidDuplicates(s, target.ssid);
    var sig := Signals(dups);
    DuplicateCount(s, target.ssid);
    if i < j {
      assert TwoWithSsid(s, target.ssid);
    } else {
      assert s[j].ssid == target.ssid && s[i].ssid == target.ssid;
      assert TwoWithSsid(s, target.ssid);
    }
    assert s[i] in dups && s[j] in dups;
    var a :| 0 <= a < |dups| && dups[a] == s[i];
    var b :| 0 <= b < |dups| && dups[b] == s[j];
    assert sig[a] in sig && sig[b] in sig;
  }

  /** Evil twin fires exactly when two entries of the target's name are
      more than 20 dB apart; a spread of exactly 20 does not fire. */
  lemma EvilTwinIff(s: Snapshot, target: WiFiNetwork)
    ensures HasEvilTwinSignal(s, target) <==> exists i, j :: SpreadPair(s, target.ssid, i, j)
  {
    if HasEvilTwinSignal(s, target) {
      EvilTwinHasSpreadPair(s, target);
    }
    if exists i, j :: SpreadPair(s, target.ssid, i, j) {
      var i, j :| SpreadPair(s, target.ssid, i, j);
      SpreadPairIsEvilTwin(s, target, i, j);
    }
  }

  /** An evil twin is always also a duplicate name. */
  lemma EvilTwinImpliesDuplicate(s: Snapshot, target: WiFiNetwork)
    ensures HasEvilTwinSignal(s, target) ==> HasDuplicateSsid(s, target)
  {
    if HasEvilTwinSignal(s, target) {
      EvilTwinHasSpreadPair(s, target);
      var i, j :| SpreadPair(s, target.ssid, i, j);
      SpreadPairIsEvilTwin(s, target, i, j);
    }
  }

  /** A set has more than one element exactly when it holds two different
      ones. */
  lemma TwoDistinctMembers<T>(xs: set<T>)
    ensures |xs| > 1 <==> exists x, y :: x in xs && y in xs && x != y
  {
    if |xs| > 1 {
      var x :| x in xs;
      assert |xs - {x}| == |xs| - 1;
      var y :| y in xs - {x};
    }
    if exists x, y :: x in xs && y in xs && x != y {
      var x, y :| x in xs && y in xs && x != y;
      assert |xs - {x}| == |xs| - 1;
      assert y in xs - {x};
    }
  }

  /** Multi-channel fires exactly when two entries of the target's name
      carry different known channels; None and 0 never count. */
  lemma MultiChannelIff(s: Snapshot, target: WiFiNetwork)
    ensures HasMultiChannel(s, target) <==>
      exists i, j :: 0 <= i < |s| && 0 <= j < |s| && s[i].ssid == target.ssid && s[j].ssid == target.ssid
        && HasKnownChannel(s[i]) && HasKnownChannel(s[j]) && s[i].channel.value != s[j].channel.value
  {
    var dups := SsidDuplicates(s, target.ssid);
    var chans := Channels(dups);
    TwoDistinctMembers(chans);
    if HasMultiChannel(s, target) {
      var x, y :| x in chans && y in chans && x != y;
      var nx :| nx in dups && HasKnownChannel(nx) && nx.channel.value == x;
      var ny :| ny in dups && HasKnownChannel(ny) && ny.channel.value == y;
      var i :| 0 <= i < |s| && s[i] == nx;
      var j :| 0 <= j < |s| && s[j] == ny;
      assert s[i].channel.value != s[j].channel.value;
    }
    if exists i, j :: 0 <= i < |s| && 0 <= j < |s| && s[i].ssid == target.ssid && s[j].ssid == target.ssid
        && HasKnownChannel(s[i]) && HasKnownChannel(s[j]) && s[i].channel.value != s[j].channel.value {
      var i, j :| 0 <= i < |s| && 0 <= j < |s| && s[i].ssid == target.ssid && s[j].ssid == target.ssid
        && HasKnownChannel(s[i]) && HasKnownChannel(s[j]) && s[i].channel.value != s[j].channel.value;
      assert s[i] in dups && s[j] in dups;
      assert s[i].channel.value in chans && s[j].channel.value in chans;
    }
  }

  /** Multi-channel is always also a duplicate name. */
  lemma MultiChannelImpliesDuplicate(s: Snapshot, target: WiFiNetwork)
    ensures HasMultiChannel(s, target) ==> HasDuplicateSsid(s, target)
  {
    MultiChannelIff(s, target);
    DuplicateCount(s, target.ssid);
    if HasMultiChannel(s, target) {
      var i, j :| 0 <= i < |s| && 0 <= j < |s| && s[i].ssid == target.ssid && s[j].ssid == target.ssid
        && HasKnownChannel(s[i]) && HasKnownChannel(s[j]) && s[i].channel.value != s[j].channel.value;
      if i < j {
        assert TwoWithSsid(s, target.ssid);
      } else {
        assert s[j].ssid == target.ssid && s[i].ssid == target.ssid;
        assert TwoWithSsid(s, target.ssid);
      }
    }
  }

  /** Similar SSIDs fires exactly when some suspicious pattern occurs in
      the lower-cased target name and in the lower-cased names of three
      different snapshot entries. */
  lemma SimilarSsidsIff(s: Snapshot, target: WiFiNetwork)
    ensures HasSimilarSsids(s, target) <==>
      exists k :: 0 <= k < |SuspiciousSsidPatterns|
        && Contains(Lower(target.ssid), SuspiciousSsidPatterns[k])
        && ThreeWhere(LoweredSsids(s), Occurs(SuspiciousSsidPatterns[k]))
  {
    forall k | 0 <= k < |SuspiciousSsidPatterns|
      ensures PatternFlagged(s, target.ssid, SuspiciousSsidPatterns[k]) <==>
        Contains(Lower(target.ssid), SuspiciousSsidPatterns[k]) && ThreeWhere(LoweredSsids(s), Occurs(SuspiciousSsidPatterns[k]))
    {
      CountAtLeastThree(LoweredSsids(s), Occurs(SuspiciousSsidPatterns[k]));
    }
  }

  /** Excluding the target by identity changes nothing: the target is open,
      so it is never the secured entry the rule looks for. */
  lemma OpenWithEncryptedIgnoresIdentity(s: Snapshot, t: Target)
    requires DrawnFrom(s, t)
    ensures HasOpenWithEncryptedDuplicate(s, t) <==>
      t.network.securityType == Open
      && exists i :: 0 <= i < |s| && s[i].ssid == t.network.ssid && s[i].IsSecured()
  {
    if t.network.securityType == Open && exists i :: 0 <= i < |s| && s[i].ssid == t.network.ssid && s[i].IsSecured() {
      var i :| 0 <= i < |s| && s[i].ssid == t.network.ssid && s[i].IsSecured();
      assert i !in t.positions;
    }
  }

  /** When the target sits in the snapshot, an open-with-encrypted
      duplicate is always also a duplicate name. */
  lemma OpenWithEncryptedImpliesDuplicate(s: Snapshot, t: Target)
    requires DrawnFrom(s, t) && t.positions != {}
    ensures HasOpenWithEncryptedDuplicate(s, t) ==> HasDuplicateSsid(s, t.network)
  {
    DuplicateCount(s, t.network.ssid);
    if HasOpenWithEncryptedDuplicate(s, t) {
      var p :| p in t.positions;
      var i :| 0 <= i < |s| && i !in t.positions && s[i].ssid == t.network.ssid && s[i].IsSecured();
      assert s[p].ssid == t.network.ssid;
      if i < p {
        assert TwoWithSsid(s, t.network.ssid);
      } else {
        assert TwoWithSsid(s, t.network.ssid);
      }
    }
  }

  // ---------------------------------------------------------------------
  // The catalog applied to one target

  /** Whether indicator `ind` triggers for target `t` over snapshot `s`. */
  predicate Fires(ind: RiskIndicator, s: Snapshot, t: Target)
  {
    match ind
    case OpenNetwork => t.network.securityType == Open
    case HandshakeCapture => IsHandshakeVulnerable(t.network)
    case DuplicateSsid => HasDuplicateSsid(s, t.network)
    case EvilTwinSignal => HasEvilTwinSignal(s, t.network)
    case MultiChannelBroadcast => HasMultiChannel(s, t.network)
    case SimilarSsids => HasSimilarSsids(s, t.network)
    case OpenWithEncrypted => HasOpenWithEncryptedDuplicate(s, t)
  }

  /** `Fires` for one snapshot and target, as a function of the indicator. */
  function FiresFor(s: Snapshot, t: Target): RiskIndicator -> bool
  {
    (ind: RiskIndicator) => Fires(ind, s, t)
  }

  /** The indicators of `inds` that fire, in the order of `inds`. */
  function FiringIn(inds: seq<RiskIndicator>, fires: RiskIndicator -> bool): (r: seq<RiskIndicator>)
    ensures |r| <= |inds|
    ensures forall ind :: ind in r <==> ind in inds && fires(ind)
    decreases |inds|
  {
    if inds == [] then []
    else
      assert inds == [inds[0]] + inds[1..];
      (if fires(inds[0]) then [inds[0]] else []) + FiringIn(inds[1..], fires)
  }

  /** The triggered indicators, in catalog order. */
  function Triggered(s: Snapshot, t: Target): seq<RiskIndicator>
  {
    FiringIn(Indicators, FiresFor(s, t))
  }

  function TotalPoints(inds: seq<RiskIndicator>): nat
    decreases |inds|
  {
    if inds == [] then 0 else inds[0].Points() + TotalPoints(inds[1..])
  }

  /** `f"{description} (+{score})"`. */
  function Reason(ind: RiskIndicator): string
  {
    ind.Description() + " (+" + NatToString(ind.Points()) + ")"
  }

  function Reasons(inds: seq<RiskIndicator>): seq<string>
  {
    seq(|inds|, i requires 0 <= i < |inds| => Reason(inds[i]))
  }

  /** `[ind]` when `fired`, `[]` otherwise. */
  function Chosen(fired: bool, ind: RiskIndicator): seq<RiskIndicator>
  {
    if fired then [ind] else []
  }

  /** The check of one indicator. */
  function Step(ind: RiskIndicator, fires: RiskIndicator -> bool): seq<RiskIndicator>
  {
    Chosen(fires(ind), ind)
  }

  /** Filtering `inds` from position `k` on is the check at `k` followed by
      filtering from `k + 1`. */
  lemma FiringStep(inds: seq<RiskIndicator>, k: nat, fires: RiskIndicator -> bool)
    requires k < |inds|
    ensures FiringIn(inds[k..], fires) == Step(inds[k], fires) + FiringIn(inds[k + 1..], fires)
  {
    assert inds[k..][0] == inds[k];
    assert inds[k..][1..] == inds[k + 1..];
  }

  lemma Regroup<T>(x: seq<T>, a: seq<T>, y: seq<T>)
    ensures x + (a + y) == (x + a) + y
  {
  }

  /** Filtering seven indicators is the seven checks one after another. */
  lemma SevenSteps(inds: seq<RiskIndicator>, fires: RiskIndicator -> bool)
    requires |inds| == 7
    ensures FiringIn(inds, fires) == Step(inds[0], fires) + Step(inds[1], fires) + Step(inds[2], fires) + Step(inds[3], fires) + Step(inds[4], fires) + Step(inds[5], fires) + Step(inds[6], fires)
  {
    assert inds[0..] == inds;
    assert inds[7..] == [];
    FiringStep(inds, 0, fires);
    FiringStep(inds, 1, fires);
    Regroup(Step(inds[0], fires), Step(inds[1], fires), FiringIn(inds[2..], fires));
    FiringStep(inds, 2, fires);
    Regroup(Step(inds[0], fires) + Step(inds[1], fires), Step(inds[2], fires), FiringIn(inds[3..], fires));
    FiringStep(inds, 3, fires);
    Regroup(Step(inds[0], fires) + Step(inds[1], fires) + Step(inds[2], fires), Step(inds[3], fires), FiringIn(inds[4..], fires));
    FiringStep(inds, 4, fires);
    Regroup(Step(inds[0], fires) + Step(inds[1], fires) + Step(inds[2], fires) + Step(inds[3], fires), Step(inds[4], fires), FiringIn(inds[5..], fires));
    FiringStep(inds, 5, fires);
    Regroup(Step(inds[0], fires) + Step(inds[1], fires) + Step(inds[2], fires) + Step(inds[3], fires) + Step(inds[4], fires), Step(inds[5], fires), FiringIn(inds[6..], fires));
    FiringStep(inds, 6, fires);
    Regroup(Step(inds[0], fires) + Step(inds[1], fires) + Step(inds[2], fires) + Step(inds[3], fires) + Step(inds[4], fires) + Step(inds[5], fires), Step(inds[6], fires), FiringIn(inds[7..], fires));
  }

  /** The check of each catalog entry for one snapshot and target is the
      rule `calculate_score` tests for it. */
  lemma RuleSteps(s: Snapshot, t: Target)
    ensures Step(OpenNetwork, FiresFor(s, t)) == Chosen(t.network.securityType == Open, OpenNetwork)
    ensures Step(HandshakeCapture, FiresFor(s, t)) == Chosen(IsHandshakeVulnerable(t.network), HandshakeCapture)
    ensures Step(DuplicateSsid, FiresFor(s, t)) == Chosen(HasDuplicateSsid(s, t.network), DuplicateSsid)
    ensures Step(EvilTwinSignal, FiresFor(s, t)) == Chosen(HasEvilTwinSignal(s, t.network), EvilTwinSignal)
    ensures Step(MultiChannelBroadcast, FiresFor(s, t)) == Chosen(HasMultiChannel(s, t.network), MultiChannelBroadcast)
    ensures Step(SimilarSsids, FiresFor(s, t)) == Chosen(HasSimilarSsids(s, t.network), SimilarSsids)
    ensures Step(OpenWithEncrypted, FiresFor(s, t)) == Chosen(HasOpenWithEncryptedDuplicate(s, t), OpenWithEncrypted)
  {
  }

  /** The triggered list is the seven rule checks in catalog order, each
      contributing its indicator when its rule fires. */
  lemma TriggeredIsRuleList(s: Snapshot, t: Target)
    ensures Triggered(s, t) ==
      Chosen(t.network.securityType == Open, OpenNetwork)
      + Chosen(IsHandshakeVulnerable(t.network), HandshakeCapture)
      + Chosen(HasDuplicateSsid(s, t.network), DuplicateSsid)
      + Chosen(HasEvilTwinSignal(s, t.network), EvilTwinSignal)
      + Chosen(HasMultiChannel(s, t.network), MultiChannelBroadcast)
      + Chosen(HasSimilarSsids(s, t.network), SimilarSsids)
      + Chosen(HasOpenWithEncryptedDuplicate(s, t), OpenWithEncrypted)
  {
    SevenSteps(Indicators, FiresFor(s, t));
    RuleSteps(s, t);
  }

  lemma {:induction false} TotalPointsConcat(a: seq<RiskIndicator>, b: seq<RiskIndicator>)
    ensures TotalPoints(a + b) == TotalPoints(a) + TotalPoints(b)
    decreases |a|
  {
    if a == [] {
      assert a + b == b;
    } else {
      assert (a + b)[0] == a[0];
      assert (a + b)[1..] == a[1..] + b;
      TotalPointsConcat(a[1..], b);
    }
  }

  lemma ReasonsConcat(a: seq<RiskIndicator>, b: seq<RiskIndicator>)
    ensures Reasons(a + b) == Reasons(a) + Reasons(b)
  {
  }

  /** A check adds nothing when its rule does not fire, and its points and
      its reason when it does. */
  lemma ChosenParts(fired: bool, ind: RiskIndicator)
    ensures TotalPoints(Chosen(fired, ind)) == if fired then ind.Points() else 0
    ensures Reasons(Chosen(fired, ind)) == if fired then [Reason(ind)] else []
  {
  }

  /** One more check, after the checks in `kept`. */
  lemma Grow(kept: seq<RiskIndicator>, fired: bool, ind: RiskIndicator)
    ensures fired ==> TotalPoints(kept + Chosen(fired, ind)) == TotalPoints(kept) + ind.Points()
    ensures fired ==> Reasons(kept + Chosen(fired, ind)) == Reasons(kept) + [Reason(ind)]
    ensures !fired ==> kept + Chosen(fired, ind) == kept
  {
    if fired {
      TotalPointsConcat(kept, [ind]);
      ReasonsConcat(kept, [ind]);
    } else {
      assert kept + [] == kept;
    }
  }

  /** Points and reasons of seven consecutive parts. */
  lemma SevenParts(x0: seq<RiskIndicator>, x1: seq<RiskIndicator>, x2: seq<RiskIndicator>, x3: seq<RiskIndicator>,
                   x4: seq<RiskIndicator>, x5: seq<RiskIndicator>, x6: seq<RiskIndicator>)
    ensures TotalPoints(x0 + x1 + x2 + x3 + x4 + x5 + x6) ==
      TotalPoints(x0) + TotalPoints(x1) + TotalPoints(x2) + TotalPoints(x3) + TotalPoints(x4) + TotalPoints(x5) + TotalPoints(x6)
    ensures Reasons(x0 + x1 + x2 + x3 + x4 + x5 + x6) ==
      Reasons(x0) + Reasons(x1) + Reasons(x2) + Reasons(x3) + Reasons(x4) + Reasons(x5) + Reasons(x6)
  {
    TotalPointsConcat(x0, x1);
    ReasonsConcat(x0, x1);
    TotalPointsConcat(x0 + x1, x2);
    ReasonsConcat(x0 + x1, x2);
    TotalPointsConcat(x0 + x1 + x2, x3);
    ReasonsConcat(x0 + x1 + x2, x3);
    TotalPointsConcat(x0 + x1 + x2 + x3, x4);
    ReasonsConcat(x0 + x1 + x2 + x3, x4);
    TotalPointsConcat(x0 + x1 + x2 + x3 + x4, x5);
    ReasonsConcat(x0 + x1 + x2 + x3 + x4, x5);
    TotalPointsConcat(x0 + x1 + x2 + x3 + x4 + x5, x6);
    ReasonsConcat(x0 + x1 + x2 + x3 + x4 + x5, x6);
  }

  /** The points of seven checks in a row: those of the checks that fire. */
  lemma SevenBonuses(c0: bool, c1: bool, c2: bool, c3: bool, c4: bool, c5: bool, c6: bool,
                     i0: RiskIndicator, i1: RiskIndicator, i2: RiskIndicator, i3: RiskIndicator,
                     i4: RiskIndicator, i5: RiskIndicator, i6: RiskIndicator)
    ensures TotalPoints(Chosen(c0, i0) + Chosen(c1, i1) + Chosen(c2, i2) + Chosen(c3, i3) + Chosen(c4, i4) + Chosen(c5, i5) + Chosen(c6, i6)) ==
      (if c0 then i0.Points() else 0)
      + (if c1 then i1.Points() else 0)
      + (if c2 then i2.Points() else 0)
      + (if c3 then i3.Points() else 0)
      + (if c4 then i4.Points() else 0)
      + (if c5 then i5.Points() else 0)
      + (if c6 then i6.Points() else 0)
  {
    SevenParts(Chosen(c0, i0), Chosen(c1, i1), Chosen(c2, i2), Chosen(c3, i3), Chosen(c4, i4), Chosen(c5, i5), Chosen(c6, i6));
    ChosenParts(c0, i0);
    ChosenParts(c1, i1);
    ChosenParts(c2, i2);
    ChosenParts(c3, i3);
    ChosenParts(c4, i4);
    ChosenParts(c5, i5);
    ChosenParts(c6, i6);
  }

  /** The catalog's points, 7, 6, 3, 4, 3, 3 and 3, for those checks that
      fire. */
  lemma CatalogPoints(c0: bool, c1: bool, c2: bool, c3: bool, c4: bool, c5: bool, c6: bool)
    ensures (if c0 then OpenNetwork.Points() else 0)
      + (if c1 then HandshakeCapture.Points() else 0)
      + (if c2 then DuplicateSsid.Points() else 0)
      + (if c3 then EvilTwinSignal.Points() else 0)
      + (if c4 then MultiChannelBroadcast.Points() else 0)
      + (if c5 then SimilarSsids.Points() else 0)
      + (if c6 then OpenWithEncrypted.Points() else 0)
      == (if c0 then 7 else 0)
      + (if c1 then 6 else 0)
      + (if c2 then 3 else 0)
      + (if c3 then 4 else 0)
      + (if c4 then 3 else 0)
      + (if c5 then 3 else 0)
      + (if c6 then 3 else 0)
  {
  }

  /** The seven checks in catalog order, whichever of them fire, are
      worth 7, 6, 3, 4, 3, 3 and 3 points. */
  lemma ListedPoints(c0: bool, c1: bool, c2: bool, c3: bool, c4: bool, c5: bool, c6: bool, x: seq<RiskIndicator>)
    requires x == Chosen(c0, OpenNetwork)
      + Chosen(c1, HandshakeCapture)
      + Chosen(c2, DuplicateSsid)
      + Chosen(c3, EvilTwinSignal)
      + Chosen(c4, MultiChannelBroadcast)
      + Chosen(c5, SimilarSsids)
      + Chosen(c6, OpenWithEncrypted)
    ensures TotalPoints(x) ==
      (if c0 then 7 else 0)
      + (if c1 then 6 else 0)
      + (if c2 then 3 else 0)
      + (if c3 then 4 else 0)
      + (if c4 then 3 else 0)
      + (if c5 then 3 else 0)
      + (if c6 then 3 else 0)
  {
    SevenBonuses(c0, c1, c2, c3, c4, c5, c6, OpenNetwork, HandshakeCapture, DuplicateSsid, EvilTwinSignal, MultiChannelBroadcast, SimilarSsids, OpenWithEncrypted);
    CatalogPoints(c0, c1, c2, c3, c4, c5, c6);
  }

  /** Nothing in front of a list leaves it as it is. */
  lemma NothingBefore(x: seq<RiskIndicator>)
    ensures [] + x == x
  {
  }

  /** One rule of `calculate_score`: when it fires, its points are added
      to the score and its reason to the list; the score and the list stay
      those of the indicators added so far. */
  method AddIfFired(score: int, reasons: seq<string>, fired: bool, ind: RiskIndicator, ghost kept: seq<RiskIndicator>)
    returns (newScore: int, newReasons: seq<string>)
    requires score == TotalPoints(kept) && reasons == Reasons(kept)
    ensures newScore == TotalPoints(kept + Chosen(fired, ind))
    ensures newReasons == Reasons(kept + Chosen(fired, ind))
  {
    newScore, newReasons := score, reasons;
    if fired {
      newScore := score + ind.Points();
      newReasons := reasons + [Reason(ind)];
    }
    Grow(kept, fired, ind);
  }

  /** `calculate_score`: the running score and the reasons list, built rule
      by rule in catalog order. */
  method CalculateScore(s: Snapshot, t: Target) returns (score: int, reasons: seq<string>)
    ensures score == TotalPoints(Triggered(s, t))
    ensures reasons == Reasons(Triggered(s, t))
  {
    score, reasons := 0, [];
    // The indicators added so far.
    ghost var kept: seq<RiskIndicator> := [];
    score, reasons := AddIfFired(score, reasons, t.network.securityType == Open, OpenNetwork, kept);
    NothingBefore(Chosen(t.network.securityType == Open, OpenNetwork));
    kept := Chosen(t.network.securityType == Open, OpenNetwork);
    score, reasons := AddIfFired(score, reasons, IsHandshakeVulnerable(t.network), HandshakeCapture, kept);
    kept := kept + Chosen(IsHandshakeVulnerable(t.network), HandshakeCapture);
    score, reasons := AddIfFired(score, reasons, HasDuplicateSsid(s, t.network), DuplicateSsid, kept);
    kept := kept + Chosen(HasDuplicateSsid(s, t.network), DuplicateSsid);
    score, reasons := AddIfFired(score, reasons, HasEvilTwinSignal(s, t.network), EvilTwinSignal, kept);
    kept := kept + Chosen(HasEvilTwinSignal(s, t.network), EvilTwinSignal);
    score, reasons := AddIfFired(score, reasons, HasMultiChannel(s, t.network), MultiChannelBroadcast, kept);
    kept := kept + Chosen(HasMultiChannel(s, t.network), MultiChannelBroadcast);
    var similar := SimilarSsidsSearch(s, t.network);
    score, reasons := AddIfFired(score, reasons, similar, SimilarSsids, kept);
    kept := kept + Chosen(similar, SimilarSsids);
    score, reasons := AddIfFired(score, reasons, HasOpenWithEncryptedDuplicate(s, t), OpenWithEncrypted, kept);
    kept := kept + Chosen(HasOpenWithEncryptedDuplicate(s, t), OpenWithEncrypted);
    assert kept == Chosen(t.network.securityType == Open, OpenNetwork)
      + Chosen(IsHandshakeVulnerable(t.network), HandshakeCapture)
      + Chosen(HasDuplicateSsid(s, t.network), DuplicateSsid)
      + Chosen(HasEvilTwinSignal(s, t.network), EvilTwinSignal)
      + Chosen(HasMultiChannel(s, t.network), MultiChannelBroadcast)
      + Chosen(similar, SimilarSsids)
      + Chosen(HasOpenWithEncryptedDuplicate(s, t), OpenWithEncrypted);
    TriggeredIsRuleList(s, t);
  }

  // ---------------------------------------------------------------------
  // What the score and the reasons mean

  /** Strictly increasing catalog rank: catalog order, each entry once. */
  predicate RankOrdered(xs: seq<RiskIndicator>)
  {
    forall i, j :: 0 <= i < j < |xs| ==> xs[i].Rank() < xs[j].Rank()
  }

  /** An indicator ranked below everything in an ordered list can go in
      front of it. */
  lemma RankedCons(x: RiskIndicator, xs: seq<RiskIndicator>)
    requires RankOrdered(xs) && forall y :: y in xs ==> x.Rank() < y.Rank()
    ensures RankOrdered([x] + xs)
  {
    var r := [x] + xs;
    forall i, j | 0 <= i < j < |r|
      ensures r[i].Rank() < r[j].Rank()
    {
      assert r[j] == xs[j - 1];
      if i > 0 {
        assert r[i] == xs[i - 1];
      } else {
        assert r[j] in xs;
      }
    }
  }

  /** The tail of an ordered list is ordered and ranked above its head. */
  lemma RankedTail(xs: seq<RiskIndicator>)
    requires xs != [] && RankOrdered(xs)
    ensures RankOrdered(xs[1..])
    ensures forall y :: y in xs[1..] ==> xs[0].Rank() < y.Rank()
  {
    var tail := xs[1..];
    forall i, j | 0 <= i < j < |tail|
      ensures tail[i].Rank() < tail[j].Rank()
    {
      assert tail[i] == xs[i + 1] && tail[j] == xs[j + 1];
    }
    forall y | y in tail
      ensures xs[0].Rank() < y.Rank()
    {
      var k :| 0 <= k < |tail| && tail[k] == y;
      assert xs[k + 1] == y;
    }
  }

  /** Filtering keeps the relative order of the entries it keeps. */
  lemma {:induction false} FiringInKeepsOrder(inds: seq<RiskIndicator>, fires: RiskIndicator -> bool)
    requires RankOrdered(inds)
    ensures RankOrdered(FiringIn(inds, fires))
    decreases |inds|
  {
    if inds != [] {
      var rest := FiringIn(inds[1..], fires);
      RankedTail(inds);
      FiringInKeepsOrder(inds[1..], fires);
      if fires(inds[0]) {
        RankedCons(inds[0], rest);
      }
    }
  }

  /** Filtering the catalog keeps exactly the indicators that fire, in
      catalog order. */
  lemma CatalogFiring(fires: RiskIndicator -> bool)
    ensures forall ind :: ind in FiringIn(Indicators, fires) <==> fires(ind)
    ensures RankOrdered(FiringIn(Indicators, fires))
  {
    IndicatorTable();
    FiringInKeepsOrder(Indicators, fires);
    forall ind
      ensures ind in FiringIn(Indicators, fires) <==> fires(ind)
    {
      assert Indicators[ind.Rank()] == ind;
    }
  }

  /** The triggered list holds exactly the indicators whose rule fires, each
      once, in catalog order: OPEN, HANDSHAKE, DUPLICATE, EVIL_TWIN,
      MULTI_CHANNEL, SIMILAR_SSIDS, OPEN_ENCRYPTED. */
  lemma TriggeredInCatalogOrder(s: Snapshot, t: Target)
    ensures forall ind :: ind in Triggered(s, t) <==> Fires(ind, s, t)
    ensures RankOrdered(Triggered(s, t))
  {
    CatalogFiring(FiresFor(s, t));
    forall ind
      ensures ind in Triggered(s, t) <==> Fires(ind, s, t)
    {
      assert FiresFor(s, t)(ind) == Fires(ind, s, t);
    }
  }

  /** A reason is the indicator's description followed by its points in
      decimal: the digits between `(+` and `)` read back to the points. */
  lemma ReasonCarriesPoints(ind: RiskIndicator)
    ensures exists digits: string ::
      && |digits| > 0 && (forall k :: 0 <= k < |digits| ==> IsDigit(digits[k]))
      && Reason(ind) == ind.Description() + " (+" + digits + ")"
      && DigitsValue(digits) == ind.Points()
  {
    NatToStringRoundTrip(ind.Points());
    var digits := NatToString(ind.Points());
    assert Reason(ind) == ind.Description() + " (+" + digits + ")";
  }

  /** The seven reason texts. */
  lemma ReasonTexts()
    ensures Reason(OpenNetwork) == "Open network (+7)"
    ensures Reason(HandshakeCapture) == "Handshake capture possible (+6)"
    ensures Reason(DuplicateSsid) == "Duplicate SSID (+3)"
    ensures Reason(EvilTwinSignal) == "Evil twin signal (+4)"
    ensures Reason(MultiChannelBroadcast) == "Multi-channel broadcast (+3)"
    ensures Reason(SimilarSsids) == "Similar SSIDs (+3)"
    ensures Reason(OpenWithEncrypted) == "Open with encrypted duplicate (+3)"
  {
  }

  /** The score is the sum, over the seven rules, of the points of the rules
      that fire. */
  lemma ScoreIsRuleSum(s: Snapshot, t: Target)
    ensures TotalPoints(Triggered(s, t)) ==
      (if t.network.securityType == Open then 7 else 0)
      + (if IsHandshakeVulnerable(t.network) then 6 else 0)
      + (if HasDuplicateSsid(s, t.network) then 3 else 0)
      + (if HasEvilTwinSignal(s, t.network) then 4 else 0)
      + (if HasMultiChannel(s, t.network) then 3 else 0)
      + (if HasSimilarSsids(s, t.network) then 3 else 0)
      + (if HasOpenWithEncryptedDuplicate(s, t) then 3 else 0)
  {
    TriggeredIsRuleList(s, t);
    ListedPoints(t.network.securityType == Open, IsHandshakeVulnerable(t.network), HasDuplicateSsid(s, t.network), HasEvilTwinSignal(s, t.network),
                 HasMultiChannel(s, t.network), HasSimilarSsids(s, t.network), HasOpenWithEncryptedDuplicate(s, t),
                 Triggered(s, t));
  }

  /** The reasons are the reason of each rule that fires, in catalog order. */
  lemma ReasonsAreRuleList(s: Snapshot, t: Target)
    ensures Reasons(Triggered(s, t)) ==
      (if t.network.securityType == Open then [Reason(OpenNetwork)] else [])
      + (if IsHandshakeVulnerable(t.network) then [Reason(HandshakeCapture)] else [])
      + (if HasDuplicateSsid(s, t.network) then [Reason(DuplicateSsid)] else [])
      + (if HasEvilTwinSignal(s, t.network) then [Reason(EvilTwinSignal)] else [])
      + (if HasMultiChannel(s, t.network) then [Reason(MultiChannelBroadcast)] else [])
      + (if HasSimilarSsids(s, t.network) then [Reason(SimilarSsids)] else [])
      + (if HasOpenWithEncryptedDuplicate(s, t) then [Reason(OpenWithEncrypted)] else [])
  {
    TriggeredIsRuleList(s, t);
    SevenParts(Chosen(t.network.securityType == Open, OpenNetwork),
               Chosen(IsHandshakeVulnerable(t.network), HandshakeCapture),
               Chosen(HasDuplicateSsid(s, t.network), DuplicateSsid),
               Chosen(HasEvilTwinSignal(s, t.network), EvilTwinSignal),
               Chosen(HasMultiChannel(s, t.network), MultiChannelBroadcast),
               Chosen(HasSimilarSsids(s, t.network), SimilarSsids),
               Chosen(HasOpenWithEncryptedDuplicate(s, t), OpenWithEncrypted));
    ChosenParts(t.network.securityType == Open, OpenNetwork);
    ChosenParts(IsHandshakeVulnerable(t.network), HandshakeCapture);
    ChosenParts(HasDuplicateSsid(s, t.network), DuplicateSsid);
    ChosenParts(HasEvilTwinSignal(s, t.network), EvilTwinSignal);
    ChosenParts(HasMultiChannel(s, t.network), MultiChannelBroadcast);
    ChosenParts(HasSimilarSsids(s, t.network), SimilarSsids);
    ChosenParts(HasOpenWithEncryptedDuplicate(s, t), OpenWithEncrypted);
  }

  /** OPEN and HANDSHAKE never fire together, WEP and WPA3 fire neither, so
      every score lies in 0..23. */
  lemma ScoreBounds(s: Snapshot, t: Target)
    ensures !(Fires(OpenNetwork, s, t) && Fires(HandshakeCapture, s, t))
    ensures t.network.securityType in {Wep, Wpa3} ==>
      !Fires(OpenNetwork, s, t) && !Fires(HandshakeCapture, s, t)
    ensures 0 <= TotalPoints(Triggered(s, t)) <= 23
  {
    ScoreIsRuleSum(s, t);
  }

  // ---------------------------------------------------------------------
  // Risk level

  /** `get_risk_level`: the name of the band `from_score` picks and that
      band's rating of the score. */
  function RiskLevelOf(score: int): (r: (string, int))
    ensures r.0 == FromScore(score).LevelName()
    ensures score >= 0 ==> FromScore(score).Covers(score)
    ensures r.1 == 2 * FromScore(score).Rank() + 1 <==> score <= FromScore(score).SplitScore()
    ensures r.1 == 2 * FromScore(score).Rank() + 2 <==> score > FromScore(score).SplitScore()
    ensures score < 0 ==> r == ("Critical Danger", 9)
    ensures 1 <= r.1 <= 10
  {
    var level := FromScore(score);
    FromScoreBands(score);
    (level.LevelName(), level.GetRating(score))
  }

  /** A higher score never gets a lower rating. */
  lemma RatingMonotone(a: int, b: int)
    requires 0 <= a <= b
    ensures RiskLevelOf(a).1 <= RiskLevelOf(b).1
  {
    FromScoreBands(a);
    FromScoreBands(b);
  }

  /** The whole table: ratings 1..10 split the scores at 2, 4, 6, 8, 11,
      13, 16, 18 and 25, under the band names SAFE 0..4, MINOR 5..8,
      MEDIUM 9..13, HIGH 14..18 and CRITICAL from 19 (and below 0). */
  lemma RatingTable(score: int)
    ensures RiskLevelOf(score).1 == 1 <==> 0 <= score <= 2
    ensures RiskLevelOf(score).1 == 2 <==> 3 <= score <= 4
    ensures RiskLevelOf(score).1 == 3 <==> 5 <= score <= 6
    ensures RiskLevelOf(score).1 == 4 <==> 7 <= score <= 8
    ensures RiskLevelOf(score).1 == 5 <==> 9 <= score <= 11
    ensures RiskLevelOf(score).1 == 6 <==> 12 <= score <= 13
    ensures RiskLevelOf(score).1 == 7 <==> 14 <= score <= 16
    ensures RiskLevelOf(score).1 == 8 <==> 17 <= score <= 18
    ensures RiskLevelOf(score).1 == 9 <==> 19 <= score <= 25 || score < 0
    ensures RiskLevelOf(score).1 == 10 <==> score > 25
    ensures RiskLevelOf(score).0 == "Safe / Low Risk" <==> 0 <= score <= 4
    ensures RiskLevelOf(score).0 == "Minor Risk" <==> 5 <= score <= 8
    ensures RiskLevelOf(score).0 == "Medium Risk" <==> 9 <= score <= 13
    ensures RiskLevelOf(score).0 == "High Risk" <==> 14 <= score <= 18
    ensures RiskLevelOf(score).0 == "Critical Danger" <==> score >= 19 || score < 0
  {
    FromScoreBands(score);
  }

  /** The examples 2, 7, 11, 16 and 25. */
  lemma RiskLevelExamples()
    ensures RiskLevelOf(2) == ("Safe / Low Risk", 1)
    ensures RiskLevelOf(7) == ("Minor Risk", 4)
    ensures RiskLevelOf(11) == ("Medium Risk", 5)
    ensures RiskLevelOf(16) == ("High Risk", 7)
    ensures RiskLevelOf(25) == ("Critical Danger", 9)
  {
    FromScoreBands(2);
    FromScoreBands(7);
    FromScoreBands(11);
    FromScoreBands(16);
    FromScoreBands(25);
  }

  /** A calculated score is at most 23, so its rating is at most 9: the
      rating 10 (scores above 25) is never reached from `calculate_score`. */
  lemma CalculatedRatingAtMostNine(s: Snapshot, t: Target)
    ensures RiskLevelOf(TotalPoints(Triggered(s, t))).1 <= 9
  {
    ScoreBounds(s, t);
    RatingMonotone(TotalPoints(Triggered(s, t)), 23);
    FromScoreBands(23);
  }
}
