/** The pure part of the scanner (wst/scanner/wifi_scanner.py): turning one
    access point's raw properties into a network record, and the post-scan
    step that keeps the first access point per name and orders the result
    by signal, strongest first. */
module Scanner {
  import opened Wrappers
  import opened Strings
  import opened Network

  /** `SIGNAL_OFFSET`: the raw 0-100 strength becomes `strength - 100` dBm. */
  const SignalOffset: int := -100

  /** NetworkManager's flag bits the classifier looks at. */
  const RsnKeyMgmtSae: int := 0x400
  const PrivacyFlag: int := 0x1

  /** The properties read for one access point; the name is already decoded
      from its bytes. */
  datatype AccessPoint = AccessPoint(
    ssid: string,
    hwAddress: string,
    strength: int,
    frequency: int,
    flags: int,
    wpaFlags: int,
    rsnFlags: int)

  /** Python's `value & mask` is truthy, for a mask that is a single bit:
      the bit of `value` at the mask's position (floor division, so it also
      reads a negative value's two's-complement bit). */
  predicate HasFlag(value: int, mask: int)
    requires mask > 0
  {
    (value / mask) % 2 == 1
  }

  // ---------------------------------------------------------------------
  // Security classification

  /** `_get_security_type`: SAE in the RSN flags means WPA3; otherwise any
      RSN flags mean WPA2 (WPA/WPA2 when WPA flags are also set); otherwise
      WPA flags mean WPA; otherwise the privacy bit means WEP; otherwise the
      network is open. */
  function SecurityTypeOf(flags: int, wpaFlags: int, rsnFlags: int): (r: SecurityType)
    ensures r == Wpa3 <==> HasFlag(rsnFlags, RsnKeyMgmtSae)
    ensures r == WpaWpa2 <==> !HasFlag(rsnFlags, RsnKeyMgmtSae) && rsnFlags > 0 && wpaFlags > 0
    ensures r == Wpa2 <==> !HasFlag(rsnFlags, RsnKeyMgmtSae) && rsnFlags > 0 && wpaFlags <= 0
    ensures r == Wpa <==> !HasFlag(rsnFlags, RsnKeyMgmtSae) && rsnFlags <= 0 && wpaFlags > 0
    ensures r == Wep <==> !HasFlag(rsnFlags, RsnKeyMgmtSae) && rsnFlags <= 0 && wpaFlags <= 0 && HasFlag(flags, PrivacyFlag)
    ensures r == Open <==> !HasFlag(rsnFlags, RsnKeyMgmtSae) && rsnFlags <= 0 && wpaFlags <= 0 && !HasFlag(flags, PrivacyFlag)
  {
    if HasFlag(rsnFlags, RsnKeyMgmtSae) then Wpa3
    else if rsnFlags > 0 then (if wpaFlags > 0 then WpaWpa2 else Wpa2)
    else if wpaFlags > 0 then Wpa
    else if HasFlag(flags, PrivacyFlag) then Wep
    else Open
  }

  /** With non-negative RSN flags the SAE bit implies RSN flags above 0, so
      WPA3 wins over WPA2 only by coming first; and the privacy bit matters
      only when neither WPA nor RSN flags are set. */
  lemma SecurityPrecedence(flags: int, wpaFlags: int, rsnFlags: int)
    ensures rsnFlags >= 0 && HasFlag(rsnFlags, RsnKeyMgmtSae) ==> rsnFlags >= RsnKeyMgmtSae
    ensures (rsnFlags > 0 || wpaFlags > 0) ==> SecurityTypeOf(flags, wpaFlags, rsnFlags) != Wep
    ensures (rsnFlags > 0 || wpaFlags > 0) ==> SecurityTypeOf(flags, wpaFlags, rsnFlags) != Open
  {
    if rsnFlags >= 0 && HasFlag(rsnFlags, RsnKeyMgmtSae) {
      assert rsnFlags / RsnKeyMgmtSae >= 1;
    }
  }

  /** Negative flags read as two's complement: -1 has every bit set and is
      classified WPA3. */
  lemma AllBitsSetIsWpa3()
    ensures SecurityTypeOf(0, 0, -1) == Wpa3
  {
    assert -1 / RsnKeyMgmtSae == -1;
  }

  // ---------------------------------------------------------------------
  // Channel mapping

  predicate In24GHzBand(frequency: int)
  {
    2412 <= frequency <= 2484
  }

  predicate In5GHzBand(frequency: int)
  {
    5170 <= frequency <= 5825
  }

  /** `_frequency_to_channel`: 2484 MHz is channel 14, the rest of the
      2.4 GHz band counts 5 MHz steps from 2412 (channel 1), the 5 GHz band
      counts 5 MHz steps from 5000 MHz, and anything else is 0. */
  function FrequencyToChannel(frequency: int): (c: int)
    ensures c == 0 <==> !In24GHzBand(frequency) && !In5GHzBand(frequency)
    ensures In24GHzBand(frequency) ==> 1 <= c <= 15
    ensures In5GHzBand(frequency) ==> 34 <= c <= 165
    ensures In24GHzBand(frequency) && frequency != 2484 ==> 2407 + 5 * c <= frequency < 2412 + 5 * c
    ensures frequency == 2484 ==> c == 14
    ensures In5GHzBand(frequency) ==> 5000 + 5 * c <= frequency < 5005 + 5 * c
  {
    if In24GHzBand(frequency) then
      (if frequency == 2484 then 14 else (frequency - 2412) / 5 + 1)
    else if In5GHzBand(frequency) then
      (frequency - 5000) / 5
    else 0
  }

  /** Every channel's centre frequency maps back to that channel: 2407 +
      5 * ch for channels 1-13, 2484 for 14, 5000 + 5 * ch for 34-165. */
  lemma ChannelCentres(ch: int)
    ensures 1 <= ch <= 13 ==> FrequencyToChannel(2407 + 5 * ch) == ch
    ensures ch == 14 ==> FrequencyToChannel(2484) == ch
    ensures 34 <= ch <= 165 ==> FrequencyToChannel(5000 + 5 * ch) == ch
  {
  }

  /** Within a band a higher frequency never maps to a lower channel, except
      at 2484 MHz, which maps to 14 below 2483 MHz's 15. */
  lemma ChannelMonotone(f: int, g: int)
    requires f <= g
    ensures In24GHzBand(f) && In24GHzBand(g) && g != 2484 ==> FrequencyToChannel(f) <= FrequencyToChannel(g)
    ensures In5GHzBand(f) && In5GHzBand(g) ==> FrequencyToChannel(f) <= FrequencyToChannel(g)
    ensures FrequencyToChannel(2483) == 15 && FrequencyToChannel(2484) == 14
  {
  }

  lemma ChannelExamples()
    ensures FrequencyToChannel(2412) == 1
    ensures FrequencyToChannel(2437) == 6
    ensures FrequencyToChannel(2462) == 11
    ensures FrequencyToChannel(5180) == 36
    ensures FrequencyToChannel(2400) == 0 && FrequencyToChannel(5000) == 0
  {
  }

  // ---------------------------------------------------------------------
  // One access point

  /** `_create_network`: None when the stripped name is empty; otherwise a
      record with the stripped name, the offset signal, the classified
      security type, the mapped channel (kept even when 0) and the default
      DISCONNECTED state. */
  function CreateNetwork(ap: AccessPoint): (r: Option<WiFiNetwork>)
    ensures r.None? <==> IsBlank(ap.ssid)
    ensures r.Some? ==> r.value.ssid != [] && !IsSpace(r.value.ssid[0]) && !IsSpace(r.value.ssid[|r.value.ssid| - 1])
    ensures r.Some? ==> r.value.signalStrength == ap.strength + SignalOffset
    ensures r.Some? ==> r.value.channel.Some? && r.value.channel.value == FrequencyToChannel(ap.frequency)
  {
    var ssid := Strip(ap.ssid);
    if ssid == [] then None
    else Some(WiFiNetwork(ssid, ap.hwAddress, SignalOffset + ap.strength, ap.frequency,
                          SecurityTypeOf(ap.flags, ap.wpaFlags, ap.rsnFlags), Disconnected,
                          Some(FrequencyToChannel(ap.frequency))))
  }

  /** The remaining fields of a created record come straight from the
      access point. */
  lemma CreatedFields(ap: AccessPoint)
    requires !IsBlank(ap.ssid)
    ensures var n := CreateNetwork(ap).value;
      && n.ssid == Strip(ap.ssid) && n.bssid == ap.hwAddress && n.frequency == ap.frequency
      && n.securityType == SecurityTypeOf(ap.flags, ap.wpaFlags, ap.rsnFlags)
      && n.connectionState == Disconnected
  {
  }

  // ---------------------------------------------------------------------
  // Keeping the first access point per name

  /** The record `_create_network` yields for each access point, in order. */
  function Created(aps: seq<AccessPoint>): (recs: seq<Option<WiFiNetwork>>)
    ensures |recs| == |aps|
    ensures forall i :: 0 <= i < |aps| ==> recs[i] == CreateNetwork(aps[i])
  {
    seq(|aps|, i requires 0 <= i < |aps| => CreateNetwork(aps[i]))
  }

  function SsidSet(ns: seq<WiFiNetwork>): set<string>
  {
    set n | n in ns :: n.ssid
  }

  /** Appending a network adds its name to the name set. */
  lemma SsidSetAppend(ns: seq<WiFiNetwork>, x: WiFiNetwork)
    ensures SsidSet(ns + [x]) == SsidSet(ns) + {x.ssid}
  {
    forall name | name in SsidSet(ns)
      ensures name in SsidSet(ns + [x])
    {
      var m :| m in ns && m.ssid == name;
      assert m in ns + [x];
    }
    assert x in ns + [x];
  }

  /** The networks `scan` collects from the created records `recs`, before
      sorting: each record whose name was not seen earlier, in order. */
  function Kept(recs: seq<Option<WiFiNetwork>>): seq<WiFiNetwork>
    decreases |recs|
  {
    if recs == [] then []
    else
      var earlier := Kept(recs[..|recs| - 1]);
      var n := recs[|recs| - 1];
      if n.Some? && n.value.ssid !in SsidSet(earlier) then earlier + [n.value] else earlier
  }

  /** No two entries share a name. */
  predicate DistinctSsids(ns: seq<WiFiNetwork>)
  {
    forall i, j :: 0 <= i < j < |ns| ==> ns[i].ssid != ns[j].ssid
  }

  /** Record `i` is the first one carrying name `ssid`. */
  predicate FirstWithSsid(recs: seq<Option<WiFiNetwork>>, i: int, ssid: string)
  {
    && 0 <= i < |recs| && recs[i].Some? && recs[i].value.ssid == ssid
    && forall j :: 0 <= j < i ==> recs[j].None? || recs[j].value.ssid != ssid
  }

  /** The kept list has pairwise distinct names. */
  lemma {:induction false} KeptDistinct(recs: seq<Option<WiFiNetwork>>)
    ensures DistinctSsids(Kept(recs))
    decreases |recs|
  {
    if recs != [] {
      var front := recs[..|recs| - 1];
      KeptDistinct(front);
      var earlier := Kept(front);
      var n := recs[|recs| - 1];
      if n.Some? && n.value.ssid !in SsidSet(earlier) {
        var k := earlier + [n.value];
        forall i, j | 0 <= i < j < |k|
          ensures k[i].ssid != k[j].ssid
        {
          if j == |k| - 1 {
            assert k[i] in earlier;
          } else {
            assert k[i] == earlier[i] && k[j] == earlier[j];
          }
        }
      }
    }
  }

  /** A record first with its name among `recs[..|recs| - 1]` is first with
      it among `recs` too. */
  lemma FirstInFront(recs: seq<Option<WiFiNetwork>>, i: int, ssid: string)
    requires recs != [] && FirstWithSsid(recs[..|recs| - 1], i, ssid)
    ensures FirstWithSsid(recs, i, ssid) && recs[i] == recs[..|recs| - 1][i]
  {
    var front := recs[..|recs| - 1];
    forall j | 0 <= j < i
      ensures recs[j].None? || recs[j].value.ssid != ssid
    {
      assert recs[j] == front[j];
    }
  }

  /** The last record is first with its name when no record kept before
      it carries that name. */
  lemma FirstAtEnd(recs: seq<Option<WiFiNetwork>>, ssid: string)
    requires recs != [] && recs[|recs| - 1].Some? && recs[|recs| - 1].value.ssid == ssid
    requires ssid !in SsidSet(Kept(recs[..|recs| - 1]))
    ensures FirstWithSsid(recs, |recs| - 1, ssid)
  {
    var front := recs[..|recs| - 1];
    KeptComplete(front);
    forall j | 0 <= j < |recs| - 1
      ensures recs[j].None? || recs[j].value.ssid != ssid
    {
      assert recs[j] == front[j];
    }
  }

  /** Each kept record is the first record carrying its name. */
  lemma {:induction false} KeptFromFirst(recs: seq<Option<WiFiNetwork>>)
    ensures forall n :: n in Kept(recs) ==> exists i :: FirstWithSsid(recs, i, n.ssid) && recs[i] == Some(n)
    decreases |recs|
  {
    if recs != [] {
      var last := |recs| - 1;
      var front := recs[..last];
      KeptFromFirst(front);
      var earlier := Kept(front);
      forall m | m in Kept(recs)
        ensures exists i :: FirstWithSsid(recs, i, m.ssid) && recs[i] == Some(m)
      {
        if m in earlier {
          var i :| FirstWithSsid(front, i, m.ssid) && front[i] == Some(m);
          FirstInFront(recs, i, m.ssid);
        } else {
          assert recs[last] == Some(m) && m.ssid !in SsidSet(earlier);
          FirstAtEnd(recs, m.ssid);
        }
      }
    }
  }

  /** Two records first with the same name are the same record. */
  lemma FirstUnique(recs: seq<Option<WiFiNetwork>>, p: int, q: int, ssid: string)
    requires FirstWithSsid(recs, p, ssid) && FirstWithSsid(recs, q, ssid)
    ensures p == q
  {
  }

  /** The entries of `ns` come in the order of the records that first carry
      their names. */
  ghost predicate InRecordOrder(recs: seq<Option<WiFiNetwork>>, ns: seq<WiFiNetwork>)
  {
    forall i, j, p, q :: 0 <= i < j < |ns| && FirstWithSsid(recs, p, ns[i].ssid) && FirstWithSsid(recs, q, ns[j].ssid) ==> p < q
  }

  /** The kept list follows the order of the records. */
  lemma {:induction false} KeptInOrder(recs: seq<Option<WiFiNetwork>>)
    ensures InRecordOrder(recs, Kept(recs))
    decreases |recs|
  {
    if recs != [] {
      var last := |recs| - 1;
      var front := recs[..last];
      KeptInOrder(front);
      KeptFromFirst(front);
      var earlier := Kept(front);
      var k := Kept(recs);
      forall i, j, p, q | 0 <= i < j < |k| && FirstWithSsid(recs, p, k[i].ssid) && FirstWithSsid(recs, q, k[j].ssid)
        ensures p < q
      {
        assert k[i] == earlier[i];
        var p' :| FirstWithSsid(front, p', k[i].ssid) && front[p'] == Some(k[i]);
        FirstInFront(recs, p', k[i].ssid);
        FirstUnique(recs, p, p', k[i].ssid);
        if j < |earlier| {
          assert k[j] == earlier[j];
          var q' :| FirstWithSsid(front, q', k[j].ssid) && front[q'] == Some(k[j]);
          FirstInFront(recs, q', k[j].ssid);
          FirstUnique(recs, q, q', k[j].ssid);
        } else {
          assert recs[last] == Some(k[j]) && k[j].ssid !in SsidSet(earlier);
          FirstAtEnd(recs, k[j].ssid);
          FirstUnique(recs, q, last, k[j].ssid);
        }
      }
    }
  }

  /** One more record: every record kept so far stays kept, and the new
      record's name, if any, is kept. */
  lemma KeptStep(recs: seq<Option<WiFiNetwork>>)
    requires recs != []
    ensures forall m :: m in Kept(recs[..|recs| - 1]) ==> m in Kept(recs)
    ensures recs[|recs| - 1].Some? ==> recs[|recs| - 1].value.ssid in SsidSet(Kept(recs))
  {
    var earlier := Kept(recs[..|recs| - 1]);
    var n := recs[|recs| - 1];
    if n.Some? {
      if n.value.ssid in SsidSet(earlier) {
        var m :| m in earlier && m.ssid == n.value.ssid;
        assert m in Kept(recs);
      } else {
        assert Kept(recs) == earlier + [n.value];
        assert n.value in Kept(recs);
      }
    }
  }

  /** Every name some record carries is kept. */
  lemma {:induction false} KeptComplete(recs: seq<Option<WiFiNetwork>>)
    ensures forall i :: 0 <= i < |recs| && recs[i].Some? ==> recs[i].value.ssid in SsidSet(Kept(recs))
    decreases |recs|
  {
    if recs != [] {
      var last := |recs| - 1;
      var front := recs[..last];
      KeptComplete(front);
      KeptStep(recs);
      forall i | 0 <= i < last && recs[i].Some?
        ensures recs[i].value.ssid in SsidSet(Kept(recs))
      {
        assert recs[i] == front[i];
        var m :| m in Kept(front) && m.ssid == recs[i].value.ssid;
        assert m in Kept(recs);
      }
    }
  }

  // ---------------------------------------------------------------------
  // Ordering by signal

  /** Strongest first. */
  predicate SortedBySignal(ns: seq<WiFiNetwork>)
  {
    forall i, j :: 0 <= i < j < |ns| ==> ns[i].signalStrength >= ns[j].signalStrength
  }

  /** `x` placed before the first entry no stronger than it, so it follows
      every strictly stronger entry and precedes the entries it ties with. */
  function Insert(x: WiFiNetwork, ns: seq<WiFiNetwork>): (r: seq<WiFiNetwork>)
    ensures |r| == |ns| + 1
    ensures forall m :: m in r <==> m == x || m in ns
    decreases |ns|
  {
    if ns == [] || ns[0].signalStrength <= x.signalStrength then [x] + ns
    else
      assert ns == [ns[0]] + ns[1..];
      [ns[0]] + Insert(x, ns[1..])
  }

  lemma {:induction false} InsertSorted(x: WiFiNetwork, ns: seq<WiFiNetwork>)
    requires SortedBySignal(ns)
    ensures SortedBySignal(Insert(x, ns))
    decreases |ns|
  {
    if !(ns == [] || ns[0].signalStrength <= x.signalStrength) {
      var tail := Insert(x, ns[1..]);
      InsertSorted(x, ns[1..]);
      var r := [ns[0]] + tail;
      forall m | m in tail
        ensures m.signalStrength <= ns[0].signalStrength
      {
        if m != x {
          var k :| 0 <= k < |ns[1..]| && ns[1..][k] == m;
          assert ns[k + 1] == m;
        }
      }
      forall i, j | 0 <= i < j < |r|
        ensures r[i].signalStrength >= r[j].signalStrength
      {
        assert r[j] == tail[j - 1] && r[j] in tail;
        if i > 0 {
          assert r[i] == tail[i - 1];
        }
      }
    }
  }

  lemma {:induction false} InsertPermutes(x: WiFiNetwork, ns: seq<WiFiNetwork>)
    ensures multiset(Insert(x, ns)) == multiset(ns) + multiset{x}
    decreases |ns|
  {
    if !(ns == [] || ns[0].signalStrength <= x.signalStrength) {
      InsertPermutes(x, ns[1..]);
      assert ns == [ns[0]] + ns[1..];
    }
  }

  /** `sorted(networks, key=signal, reverse=True)`: a stable sort, strongest
      first, entries of equal strength in their original order. */
  function SortBySignal(ns: seq<WiFiNetwork>): (r: seq<WiFiNetwork>)
    ensures |r| == |ns|
    ensures forall m :: m in r <==> m in ns
    decreases |ns|
  {
    if ns == [] then []
    else
      assert ns == [ns[0]] + ns[1..];
      Insert(ns[0], SortBySignal(ns[1..]))
  }

  /** The result is ordered strongest first and is a permutation of the
      input. */
  lemma {:induction false} SortSortsAndPermutes(ns: seq<WiFiNetwork>)
    ensures SortedBySignal(SortBySignal(ns))
    ensures multiset(SortBySignal(ns)) == multiset(ns)
    decreases |ns|
  {
    if ns != [] {
      SortSortsAndPermutes(ns[1..]);
      InsertSorted(ns[0], SortBySignal(ns[1..]));
      InsertPermutes(ns[0], SortBySignal(ns[1..]));
      assert ns == [ns[0]] + ns[1..];
    }
  }

  /** The entries of strength `v`, in order. */
  function WithSignal(ns: seq<WiFiNetwork>, v: int): seq<WiFiNetwork>
    decreases |ns|
  {
    if ns == [] then []
    else (if ns[0].signalStrength == v then [ns[0]] else []) + WithSignal(ns[1..], v)
  }

  lemma {:induction false} InsertKeepsTies(x: WiFiNetwork, ns: seq<WiFiNetwork>, v: int)
    ensures WithSignal(Insert(x, ns), v) == (if x.signalStrength == v then [x] else []) + WithSignal(ns, v)
    decreases |ns|
  {
    var b := if x.signalStrength == v then [x] else [];
    if ns == [] || ns[0].signalStrength <= x.signalStrength {
      var r := [x] + ns;
      assert r[0] == x && r[1..] == ns;
      assert WithSignal(r, v) == b + WithSignal(ns, v);
    } else {
      var tail := Insert(x, ns[1..]);
      var r := [ns[0]] + tail;
      assert r[0] == ns[0] && r[1..] == tail;
      var a := if ns[0].signalStrength == v then [ns[0]] else [];
      var w := WithSignal(ns[1..], v);
      assert WithSignal(r, v) == a + WithSignal(tail, v);
      InsertKeepsTies(x, ns[1..], v);
      assert WithSignal(tail, v) == b + w;
      assert WithSignal(ns, v) == a + w;
      if a == [] {
        assert a + (b + w) == b + w;
        assert b + (a + w) == b + w;
      } else {
        assert b == [];
        assert a + (b + w) == a + w;
        assert b + (a + w) == a + w;
      }
    }
  }

  /** Stability: for every strength, the entries of that strength keep
      their relative order. */
  lemma {:induction false} SortIsStable(ns: seq<WiFiNetwork>, v: int)
    ensures WithSignal(SortBySignal(ns), v) == WithSignal(ns, v)
    decreases |ns|
  {
    if ns != [] {
      SortIsStable(ns[1..], v);
      InsertKeepsTies(ns[0], SortBySignal(ns[1..]), v);
    }
  }

  /** The picked entries are exactly the entries of strength `v`. */
  lemma {:induction false} WithSignalMembers(ns: seq<WiFiNetwork>, v: int)
    ensures forall m :: m in WithSignal(ns, v) <==> m in ns && m.signalStrength == v
    decreases |ns|
  {
    if ns != [] {
      WithSignalMembers(ns[1..], v);
      assert ns == [ns[0]] + ns[1..];
    }
  }

  /** Picking the entries of one strength keeps them in record order. */
  lemma {:induction false} WithSignalInOrder(recs: seq<Option<WiFiNetwork>>, ns: seq<WiFiNetwork>, v: int)
    requires InRecordOrder(recs, ns)
    ensures InRecordOrder(recs, WithSignal(ns, v))
    decreases |ns|
  {
    if ns != [] {
      var tail := ns[1..];
      forall i, j, p, q | 0 <= i < j < |tail| && FirstWithSsid(recs, p, tail[i].ssid) && FirstWithSsid(recs, q, tail[j].ssid)
        ensures p < q
      {
        assert tail[i] == ns[i + 1] && tail[j] == ns[j + 1];
      }
      WithSignalInOrder(recs, tail, v);
      var w := WithSignal(ns, v);
      var wt := WithSignal(tail, v);
      if ns[0].signalStrength == v {
        assert w == [ns[0]] + wt;
        WithSignalMembers(tail, v);
        forall i, j, p, q | 0 <= i < j < |w| && FirstWithSsid(recs, p, w[i].ssid) && FirstWithSsid(recs, q, w[j].ssid)
          ensures p < q
        {
          if i == 0 {
            assert w[j] == wt[j - 1] && wt[j - 1] in tail;
            var k :| 0 <= k < |tail| && tail[k] == wt[j - 1];
            assert w[0] == ns[0] && w[j] == ns[k + 1];
          } else {
            assert w[i] == wt[i - 1] && w[j] == wt[j - 1];
          }
        }
      }
    }
  }

  /** A network whose name is absent from a list with distinct names can
      go in front of it. */
  lemma DistinctCons(x: WiFiNetwork, ns: seq<WiFiNetwork>)
    requires DistinctSsids(ns) && forall m :: m in ns ==> m.ssid != x.ssid
    ensures DistinctSsids([x] + ns)
  {
    var r := [x] + ns;
    forall i, j | 0 <= i < j < |r|
      ensures r[i].ssid != r[j].ssid
    {
      assert r[j] == ns[j - 1];
      if i > 0 {
        assert r[i] == ns[i - 1];
      } else {
        assert r[j] in ns;
      }
    }
  }

  /** The tail of a list with distinct names has distinct names, none equal
      to the head's. */
  lemma DistinctTail(ns: seq<WiFiNetwork>)
    requires ns != [] && DistinctSsids(ns)
    ensures DistinctSsids(ns[1..])
    ensures forall m :: m in ns[1..] ==> m.ssid != ns[0].ssid
  {
    var tail := ns[1..];
    forall i, j | 0 <= i < j < |tail|
      ensures tail[i].ssid != tail[j].ssid
    {
      assert tail[i] == ns[i + 1] && tail[j] == ns[j + 1];
    }
    forall m | m in tail
      ensures m.ssid != ns[0].ssid
    {
      var k :| 0 <= k < |tail| && tail[k] == m;
      assert ns[k + 1] == m;
    }
  }

  lemma {:induction false} InsertDistinct(x: WiFiNetwork, ns: seq<WiFiNetwork>)
    requires DistinctSsids(ns) && x.ssid !in SsidSet(ns)
    ensures DistinctSsids(Insert(x, ns))
    decreases |ns|
  {
    if ns == [] || ns[0].signalStrength <= x.signalStrength {
      DistinctCons(x, ns);
    } else {
      DistinctTail(ns);
      assert x.ssid !in SsidSet(ns[1..]);
      InsertDistinct(x, ns[1..]);
      assert ns[0] in ns;
      DistinctCons(ns[0], Insert(x, ns[1..]));
    }
  }

  /** Reordering keeps names pairwise distinct. */
  lemma {:induction false} SortKeepsDistinct(ns: seq<WiFiNetwork>)
    requires DistinctSsids(ns)
    ensures DistinctSsids(SortBySignal(ns))
    decreases |ns|
  {
    if ns != [] {
      var tail := ns[1..];
      DistinctTail(ns);
      SortKeepsDistinct(tail);
      assert ns[0].ssid !in SsidSet(SortBySignal(tail));
      InsertDistinct(ns[0], SortBySignal(tail));
    }
  }

  // ---------------------------------------------------------------------
  // The scan

  /** What `scan` returns for access points `aps`. */
  function ScanResult(aps: seq<AccessPoint>): seq<WiFiNetwork>
  {
    SortBySignal(Kept(Created(aps)))
  }

  /** The scan result has pairwise distinct names, is ordered strongest
      first, holds for each name the record of the first access point
      carrying it, misses no name an access point yields, and lists networks
      of equal strength in the order of their access points. */
  lemma ScanResultProperties(aps: seq<AccessPoint>)
    ensures DistinctSsids(ScanResult(aps))
    ensures SortedBySignal(ScanResult(aps))
    ensures forall n :: n in ScanResult(aps) ==>
      exists i :: FirstWithSsid(Created(aps), i, n.ssid) && CreateNetwork(aps[i]) == Some(n)
    ensures forall i :: 0 <= i < |aps| && CreateNetwork(aps[i]).Some? ==>
      CreateNetwork(aps[i]).value.ssid in SsidSet(ScanResult(aps))
    ensures forall v :: WithSignal(ScanResult(aps), v) == WithSignal(Kept(Created(aps)), v)
    ensures forall v :: InRecordOrder(Created(aps), WithSignal(ScanResult(aps), v))
  {
    var recs := Created(aps);
    var kept := Kept(recs);
    KeptDistinct(recs);
    KeptFromFirst(recs);
    KeptComplete(recs);
    SortSortsAndPermutes(kept);
    SortKeepsDistinct(kept);
    assert SsidSet(SortBySignal(kept)) == SsidSet(kept);
    KeptInOrder(recs);
    forall v
      ensures WithSignal(ScanResult(aps), v) == WithSignal(kept, v)
      ensures InRecordOrder(recs, WithSignal(ScanResult(aps), v))
    {
      SortIsStable(kept, v);
      WithSignalInOrder(recs, kept, v);
    }
  }

  /** One more record extends the kept list exactly when its name is new. */
  lemma KeptAppend(recs: seq<Option<WiFiNetwork>>, x: Option<WiFiNetwork>)
    ensures Kept(recs + [x]) ==
      if x.Some? && x.value.ssid !in SsidSet(Kept(recs)) then Kept(recs) + [x.value] else Kept(recs)
  {
    assert (recs + [x])[..|recs|] == recs;
  }

  /** One pass of the loop in `scan`: the record of access point `i` joins
      the collected list exactly when its name is new. */
  lemma ScanStep(aps: seq<AccessPoint>, i: nat)
    requires i < |aps|
    ensures var before := Kept(Created(aps)[..i]);
      var n := CreateNetwork(aps[i]);
      Kept(Created(aps)[..i + 1]) ==
        if n.Some? && n.value.ssid !in SsidSet(before) then before + [n.value] else before
  {
    var recs := Created(aps);
    SliceSnoc(recs, i);
    KeptAppend(recs[..i], recs[i]);
  }

  lemma SliceSnoc<T>(xs: seq<T>, i: nat)
    requires i < |xs|
    ensures xs[..i + 1] == xs[..i] + [xs[i]]
  {
  }

  /** The post-scan step of `scan`: create a record per access point, keep
      it when its name is not yet in `seen_ssids`, then sort strongest
      first. */
  method Scan(aps: seq<AccessPoint>) returns (networks: seq<WiFiNetwork>)
    ensures networks == ScanResult(aps)
    ensures DistinctSsids(networks)
    ensures SortedBySignal(networks)
    ensures forall n :: n in networks ==>
      exists i :: FirstWithSsid(Created(aps), i, n.ssid) && CreateNetwork(aps[i]) == Some(n)
  {
    var collected: seq<WiFiNetwork> := [];
    var seen: set<string> := {};
    for i := 0 to |aps|
      invariant collected == Kept(Created(aps)[..i])
      invariant seen == SsidSet(collected)
    {
      ScanStep(aps, i);
      var network := CreateNetwork(aps[i]);
      if network.Some? && network.value.ssid !in seen {
        SsidSetAppend(collected, network.value);
        collected := collected + [network.value];
        seen := seen + {network.value.ssid};
      }
    }
    assert Created(aps)[..|aps|] == Created(aps);
    networks := SortBySignal(collected);
    ScanResultProperties(aps);
  }
}
