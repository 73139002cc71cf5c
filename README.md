# wifi-sentry core, modelled in Dafny

wifi-sentry scans the WiFi access points NetworkManager sees and scores one
of them for signs of a rogue access point: an open network, a handshake that
can be captured, the same name broadcast more than once, an "evil twin"
whose signal is far from its namesake's, one name on several channels,
names built from common lure words, and an open network shadowing an
encrypted one. The score maps to a named risk tier and a rating from 1 to
10.

This project models that core:

- `Network`: the network record, its signal-quality percentage, and its
  secured and connected predicates.
- `ScorerConstants` and `ScorerEnums`: the point values, thresholds and lure
  patterns; the five score bands with their two-way ratings; and the catalog
  of the seven risk indicators.
- `Scorer`:
  - the seven rule predicates, each over a snapshot and one target;
  - `CalculateScore`, the straight-line method that adds up the rules in
    catalog order;
  - `SimilarSsidsSearch`, the pattern loop with its early return;
  - `RiskLevelOf`, the tier name and rating.

  Each rule predicate is paired with a lemma that characterises it
  independently (a spread pair, two distinct known channels, three names
  holding a pattern). `CalculateScore` is proved equal to the indicator list
  the catalog yields.
- `Scanner`: the part of `scan` that does not talk to D-Bus:
  - classifying security from the three flag words;
  - mapping a frequency to a channel;
  - dropping blank names;
  - keeping the first access point per name;
  - sorting strongest first.
- `Cli`: choosing the target network from the scanned list, the ten-segment
  signal bar, and the channel column. It also shows what scoring a target
  taken from a scan can add up to.
- `ScorerExamples`: the scorer's unit tests, each stated as a lemma over any
  networks carrying the names, security types, strengths and channels the
  test fixes (address, frequency and state are left free), plus general
  lemmas for the snapshot shapes the tests use.
- `Wrappers`, `Sequences` and `Strings`: `Option`, Python's
  `next(...)`/`max`/`min`/counting, and string `lower`/`in`/`strip`/decimal
  formatting.

The scorer compares the target with other snapshot entries by object
identity (`n != target`). The model gives the target the set of snapshot
positions holding that very object (`Scorer.Target`). A target taken from
the list, as the command line does it, has exactly its own position
(`Scorer.At`).

A score outside every band (only a negative one) is rated differently by
the two scorers in the repository. The superseded scorer in
wst/wifi_scorer.py, whose imports from wst/constants.py no longer resolve,
falls back to `RISK_LEVELS['critical'], 10` when no band matches
(wst/wifi_scorer.py:106). The package scorer falls back to CRITICAL in
`from_score` (wst/scorer/enums.py:43), and CRITICAL's `get_rating` returns 9
for any score up to 25 (wst/scorer/enums.py:36), so a negative score gets
Critical with rating 9. The model follows the package scorer
(`Scorer.RiskLevelOf`).

A consequence the model makes explicit: `scan` keeps one access point per
name, so a target scored by the `score` command never has a same-name
partner in its snapshot. The duplicate, evil-twin, multi-channel and
open-with-encrypted rules can never fire on that path, and the rating never
exceeds 5 (`Cli.ScannedTargetQuiet`, `Cli.FoundTargetRating`).

## Model

| member | source | states |
|---|---|---|
| `Network.WiFiNetwork.SignalQuality` | wst/network/wifi_network.py:22-28 | quality is within 0..100; it is 100 from -50 dBm up (the `min(100, ...)` cap already reaches 100 there), 0 at or below -90 dBm, and 2*(dBm+100) in between |
| `Network.NewNetworkFields` | wst/network/wifi_network.py:5-40 | every getter returns its constructor argument; the connection state defaults to DISCONNECTED and the channel to None |
| `Network.SignalQualityMonotone` | wst/network/wifi_network.py:22-28 | a stronger signal never gives a lower quality |
| `Network.SignalQualityExamples` | tests/test_wifi_network.py:114-145 | -90 dBm gives 0, -60 dBm gives 80, -30 dBm gives 100 |
| `Network.SecuredIffNotOpen` | wst/network/wifi_network.py:42-43 | secured holds exactly for the five non-open security types |
| `Network.ConnectedIffConnectedState` | wst/network/wifi_network.py:45-46 | connected holds in CONNECTED and in none of the other three states |
| `Sequences.FirstIndex` | wst/cli.py:75-79 | `next(...)` over a generator: the first position whose element passes the test, or None exactly when none passes |
| `Sequences.MaxOf` | wst/scorer/wifi_scorer.py:26 | `max` of a non-empty list is one of its elements and bounds all of them |
| `Sequences.MinOf` | wst/scorer/wifi_scorer.py:26 | `min` of a non-empty list is one of its elements and bounded by all of them |
| `Sequences.CountAtLeastTwo` | wst/scorer/wifi_scorer.py:18 | a count of at least two means two distinct positions pass the test, and back |
| `Sequences.CountAtLeastThree` | wst/scorer/wifi_scorer.py:39-40 | `sum(1 for ...) >= 3` holds exactly when three distinct positions pass the test |
| `Strings.ContainsIff` | wst/scorer/wifi_scorer.py:38 | `pattern in ssid` holds exactly when the pattern occurs at some offset |
| `Strings.Strip` | wst/scanner/wifi_scanner.py:82 | `strip()` yields a slice of the name with only whitespace cut off before and after it; the slice is "" exactly for a blank name, and otherwise neither starts nor ends with whitespace |
| `Strings.NatToStringRoundTrip` | wst/scorer/wifi_scorer.py:61 | the decimal text of the points reads back to the points |
| `ScorerEnums.FromScore` | wst/scorer/enums.py:38-43 | the result is the band covering the score, and no other band covers it; when no band covers the score the result is CRITICAL |
| `ScorerEnums.FromScoreBands` | wst/scorer/enums.py:15-19 | SAFE exactly for 0..4, MINOR for 5..8, MEDIUM for 9..13, HIGH for 14..18, CRITICAL for 19 and above or a negative score |
| `ScorerEnums.RiskLevel.GetRating` | wst/scorer/enums.py:26-36 | each band rates with its own pair 2*rank+1 and 2*rank+2, the lower exactly for scores up to the band's split (2, 6, 11, 16, 25) |
| `ScorerEnums.SplitInsideBand` | wst/scorer/enums.py:15-36 | each band's split and the score after it both lie inside the band, so every band hands out both of its ratings |
| `ScorerEnums.ExactlyOneBand` | wst/scorer/enums.py:15-19 | every non-negative score lies in exactly one band; no band covers a negative score |
| `ScorerEnums.BandEdges` | wst/scorer/enums.py:15-43 | the scores at each band edge (4/5, 8/9, 13/14, 18/19) fall on the documented side |
| `ScorerEnums.IndicatorTable` | wst/scorer/enums.py:46-53 | the catalog has seven distinct indicators in declaration order, worth 7, 6, 3, 4, 3, 3 and 3 points (wst/scorer/constants.py:2-8) |
| `Scorer.At` | wst/scorer/wifi_scorer.py:44-49 | the target taken from position p is the record at p, and every position it claims holds that record |
| `Scorer.HasDuplicateSsid` | wst/scorer/wifi_scorer.py:17-18 | more than one entry with the target's name; `Scorer.DuplicateCount` states it as two positions sharing the name |
| `Scorer.HasEvilTwinSignal` | wst/scorer/wifi_scorer.py:20-26 | a duplicate name whose strongest and weakest entries differ by more than 20 dB; `Scorer.EvilTwinIff` states it as a pair of entries |
| `Scorer.HasMultiChannel` | wst/scorer/wifi_scorer.py:28-31 | more than one distinct known channel among the entries with the target's name; `Scorer.MultiChannelIff` states it as a pair of entries |
| `Scorer.HasSimilarSsids` | wst/scorer/wifi_scorer.py:33-42 | some pattern in the lowered target name and in at least three lowered names; `Scorer.SimilarSsidsIff` and `Scorer.SimilarSsidsSearch` state it |
| `Scorer.HasOpenWithEncryptedDuplicate` | wst/scorer/wifi_scorer.py:44-49 | an open target with a secured entry of its name at another position; `Scorer.OpenWithEncryptedIgnoresIdentity` states it without positions |
| `Scorer.IsHandshakeVulnerable` | wst/scorer/wifi_scorer.py:51-53 | WPA, WPA2 or WPA/WPA2; `Scorer.ScoreBounds` shows it never fires with OPEN and never for WEP or WPA3 |
| `Scorer.SsidDuplicates` | wst/scorer/wifi_scorer.py:14-15 | the group holds exactly the snapshot entries with that name, and is no longer than the snapshot |
| `Scorer.DuplicateCount` | wst/scorer/wifi_scorer.py:17-18 | the group has more than one member exactly when two different positions share the name |
| `Scorer.EvilTwinIff` | wst/scorer/wifi_scorer.py:20-26 | the evil-twin rule fires exactly when two entries with the target's name differ in signal by more than 20 dB |
| `Scorer.EvilTwinImpliesDuplicate` | wst/scorer/wifi_scorer.py:20-26 | an evil twin is always also a duplicate name |
| `Scorer.MultiChannelIff` | wst/scorer/wifi_scorer.py:28-31 | the multi-channel rule fires exactly when two entries with the target's name report different channels, neither missing nor 0 |
| `Scorer.MultiChannelImpliesDuplicate` | wst/scorer/wifi_scorer.py:28-31 | several channels always means a duplicate name |
| `Scorer.SimilarSsidsSearch` | wst/scorer/wifi_scorer.py:33-42 | the pattern loop with early return decides exactly whether some pattern is in the lowered target name and in at least three lowered snapshot names |
| `Scorer.SimilarSsidsIff` | wst/scorer/wifi_scorer.py:33-42 | the similar-names rule fires exactly when some pattern occurs in the lowered target name and in three different lowered snapshot names |
| `Scorer.OpenWithEncryptedIgnoresIdentity` | wst/scorer/wifi_scorer.py:44-49 | for a target from the snapshot, the rule fires exactly when the target is open and some entry of its name is secured; the identity exclusion never matters |
| `Scorer.OpenWithEncryptedImpliesDuplicate` | wst/scorer/wifi_scorer.py:44-49 | for a target in the snapshot, an open-with-encrypted match is always also a duplicate name |
| `Scorer.FiringIn` | wst/scorer/wifi_scorer.py:59-85 | the indicators kept are exactly those listed that fire, no more than listed |
| `Scorer.TriggeredInCatalogOrder` | wst/scorer/wifi_scorer.py:59-85 | an indicator is triggered exactly when its rule fires, and triggered indicators appear in catalog order |
| `Scorer.TriggeredIsRuleList` | wst/scorer/wifi_scorer.py:59-85 | the triggered list is the seven rules' outcomes, each contributing its indicator when it fires, in the order the code tests them |
| `Scorer.CalculateScore` | wst/scorer/wifi_scorer.py:55-87 | the returned score is the sum of the triggered indicators' points and the reasons are their texts, in order |
| `Scorer.ScoreIsRuleSum` | wst/scorer/wifi_scorer.py:55-87 | the score is 7, 6, 3, 4, 3, 3 and 3 for the open, handshake, duplicate, evil-twin, multi-channel, similar and open-with-encrypted rules, summed over the ones that fire |
| `Scorer.ReasonsAreRuleList` | wst/scorer/wifi_scorer.py:55-87 | the reasons are one text per firing rule, in rule order |
| `Scorer.ReasonCarriesPoints` | wst/scorer/wifi_scorer.py:61 | each reason is the description, " (+", a run of decimal digits reading back to the points, and ")" |
| `Scorer.ReasonTexts` | wst/scorer/enums.py:47-53 | the seven reason texts, "Open network (+7)" through "Open with encrypted duplicate (+3)" |
| `Scorer.ScoreBounds` | wst/scorer/wifi_scorer.py:51-65 | open and handshake never fire together, WEP and WPA3 fire neither, and every score lies in 0..23 |
| `Scorer.RiskLevelOf` | wst/scorer/wifi_scorer.py:89-92 | the name is the name of the band `from_score` picks, which covers any non-negative score; the rating is that band's lower rating exactly up to its split and its upper rating above it; a negative score gives ("Critical Danger", 9); the rating is always 1..10 |
| `Scorer.RatingTable` | wst/scorer/enums.py:15-43 | the full table: rating 1 for 0..2, 2 for 3..4, 3 for 5..6, 4 for 7..8, 5 for 9..11, 6 for 12..13, 7 for 14..16, 8 for 17..18, 9 for 19..25 or a negative score, 10 above 25, under the band names SAFE 0..4 through CRITICAL 19 and up or below 0 |
| `Scorer.RatingMonotone` | wst/scorer/enums.py:26-43 | a higher non-negative score never gets a lower rating |
| `Scorer.RiskLevelExamples` | tests/test_wifi_scorer.py:129-172 | 2, 7, 11, 16 and 25 give Safe/1, Minor/4, Medium/5, High/7 and Critical/9 |
| `Scorer.CalculatedRatingAtMostNine` | wst/scorer/enums.py:35-36 | a calculated score never reaches the rating 10, which needs a score above 25 |
| `Scanner.SecurityTypeOf` | wst/scanner/wifi_scanner.py:113-124 | for each of the six types, the exact flag condition under which it is returned: SAE bit, then RSN, then WPA, then the privacy bit, else OPEN |
| `Scanner.SecurityPrecedence` | wst/scanner/wifi_scanner.py:116-124 | the SAE bit implies positive RSN flags when they are non-negative, and any RSN or WPA flags rule out WEP and OPEN |
| `Scanner.AllBitsSetIsWpa3` | wst/scanner/wifi_scanner.py:116-117 | RSN flags of -1 (every bit set) classify as WPA3 |
| `Scanner.FrequencyToChannel` | wst/scanner/wifi_scanner.py:126-131 | the channel is 0 exactly outside both bands; in the 2.4 GHz band it is 14 at 2484 MHz and otherwise the channel c with 2407+5c <= f < 2412+5c (1..15); in the 5 GHz band it is the c with 5000+5c <= f < 5005+5c (34..165) |
| `Scanner.ChannelCentres` | wst/scanner/wifi_scanner.py:126-131 | every channel's centre frequency maps back to it: 2407+5ch for 1..13, 2484 for 14, 5000+5ch for 34..165 |
| `Scanner.ChannelMonotone` | wst/scanner/wifi_scanner.py:126-131 | within a band a higher frequency never gives a lower channel, except at 2484, which gives 14 while 2483 gives 15 |
| `Scanner.ChannelExamples` | wst/scanner/wifi_scanner.py:126-131 | 2412, 2437, 2462 and 5180 MHz give channels 1, 6, 11 and 36; 2400 and 5000 give 0 |
| `Scanner.CreateNetwork` | wst/scanner/wifi_scanner.py:80-111 | no record exactly for a blank name; otherwise the stripped name, the strength plus the -100 offset, and the mapped channel |
| `Scanner.CreatedFields` | wst/scanner/wifi_scanner.py:104-111 | the record's name is the stripped name, its address, frequency and classified security come from the access point, and its state is DISCONNECTED |
| `Scanner.Kept` | wst/scanner/wifi_scanner.py:141-145 | the loop's collected list, one record per new name in access-point order; `Scanner.KeptDistinct`, `Scanner.KeptFromFirst`, `Scanner.KeptComplete` and `Scanner.KeptInOrder` state what it holds |
| `Scanner.KeptDistinct` | wst/scanner/wifi_scanner.py:141-145 | the collected networks never share a name |
| `Scanner.KeptFromFirst` | wst/scanner/wifi_scanner.py:141-145 | each collected network is the record of the first access point carrying its name |
| `Scanner.KeptComplete` | wst/scanner/wifi_scanner.py:141-145 | every name some access point yields is collected |
| `Scanner.KeptInOrder` | wst/scanner/wifi_scanner.py:141-145 | the collected networks come in the order of the access points that first carry their names |
| `Scanner.SortBySignal` | wst/scanner/wifi_scanner.py:147 | the sorted list has the input's length and elements; `Scanner.SortSortsAndPermutes` and `Scanner.SortIsStable` state the order |
| `Scanner.SortSortsAndPermutes` | wst/scanner/wifi_scanner.py:147 | the sort orders strongest first and is a permutation |
| `Scanner.SortIsStable` | wst/scanner/wifi_scanner.py:147 | networks of equal strength keep their collected order |
| `Scanner.WithSignalMembers` | wst/scanner/wifi_scanner.py:147 | the networks of one strength picked from a list are exactly its members of that strength |
| `Scanner.WithSignalInOrder` | wst/scanner/wifi_scanner.py:141-147 | picking the networks of one strength keeps them in access-point order |
| `Scanner.SortKeepsDistinct` | wst/scanner/wifi_scanner.py:147 | sorting keeps the names distinct |
| `Scanner.ScanResultProperties` | wst/scanner/wifi_scanner.py:133-147 | the scan result has distinct names, is strongest first, holds for each name the first access point's record, misses no name, and lists networks of equal strength as the loop collected them, in the order of their access points |
| `Scanner.Scan` | wst/scanner/wifi_scanner.py:138-147 | the loop with its seen-name set computes the scan result, with distinct names, strongest first, each the first record of its name |
| `Cli.FindNetwork` | wst/cli.py:73-80 | the first network matching both given arguments, or the given one; None exactly when none matches, which includes the case where neither argument is given |
| `Cli.FindNetworkCases` | wst/cli.py:73-80 | each way of asking spelled out: both arguments, name only, address only, neither; empty strings count as not given |
| `Cli.QualityBar` | wst/cli.py:28 | for a quality in 0..100 the bar has ten segments, the first quality//10 full and the rest empty |
| `Cli.NetworkBar` | wst/cli.py:23-28 | every network's bar has ten segments, and a stronger signal never shows fewer full ones |
| `Cli.BarExample` | wst/cli.py:28 | quality 80 shows eight full segments and two empty |
| `Cli.DisplayChannel` | wst/cli.py:25 | the channel column is 0 exactly when the channel is missing or 0, and otherwise the channel |
| `Cli.ScannedTargetQuiet` | wst/cli.py:102-110 | for a target taken from a scan, the duplicate, evil-twin, multi-channel and open-with-encrypted rules never fire and the score is at most 10 |
| `Cli.FoundTargetRating` | wst/cli.py:102-111 | the network `find_network` picks from a scan never rates above 5 |
| `ScorerExamples.LoneNetwork` | wst/scorer/wifi_scorer.py:55-87 | a network alone, with no lure word in its name, scores 7 if open, 6 if WPA, WPA2 or WPA/WPA2, and 0 otherwise, with the matching reason |
| `ScorerExamples.SecureSingle` | tests/test_wifi_scorer.py:16-23 | a lone WPA3 "Secure" scores 0 with no reasons |
| `ScorerExamples.OpenSingle` | tests/test_wifi_scorer.py:26-34 | a lone open "OpenNet" scores 7 with the reason "Open network (+7)" |
| `ScorerExamples.HandshakeSingle` | tests/test_wifi_scorer.py:37-45 | a lone WPA2 "WPA2Net" scores 6 with the reason "Handshake capture possible (+6)" |
| `ScorerExamples.SecurePair` | wst/scorer/wifi_scorer.py:67-77 | two WPA3 networks of one plain name score 3, plus 4 for an evil twin, plus 3 for several channels |
| `ScorerExamples.DuplicatePair` | tests/test_wifi_scorer.py:48-60 | WPA3 "Duplicate" at -50 and -60 dBm scores 3 |
| `ScorerExamples.MultiChannelPair` | tests/test_wifi_scorer.py:63-75 | WPA3 "MultiCh" on channels 6 and 11 scores 6 |
| `ScorerExamples.SharedPatternOnly` | wst/scorer/wifi_scorer.py:33-42 | a WPA3 target whose name is unique but shares "wifi" with two other names scores 3 |
| `ScorerExamples.SimilarNames` | tests/test_wifi_scorer.py:78-89 | "Free_WiFi", "FreeWiFi" and "Free WiFi" score 3 for the first |
| `ScorerExamples.OpenBesideSecuredTwin` | wst/scorer/wifi_scorer.py:44-49 | an open network beside a secured one of the same plain name, within 20 dB and without channels, scores 13 |
| `ScorerExamples.MixedSecurity` | tests/test_wifi_scorer.py:92-100 | open "Mixed" beside WPA2 "Mixed" scores 13 |
| `ScorerExamples.EvilTwinPair` | tests/test_wifi_scorer.py:103-115 | WPA3 "EvilTwin" at -30 and -80 dBm scores 7 |
| `ScorerExamples.OpenBesideWeakerTwin` | wst/scorer/wifi_scorer.py:55-87 | an open network beside a WPA2 one of its plain name, more than 20 dB weaker and without channels, scores 17 with the four reason texts in rule order |
| `ScorerExamples.ComplexRisks` | tests/test_wifi_scorer.py:118-126 | open "Complex" at -30 beside WPA2 "Complex" at -80 scores 17 with four reasons |
| `ScorerExamples.EvilTwinThreshold` | wst/scorer/wifi_scorer.py:26 | the threshold is strict: for two entries of one name, a 20 dB spread does not fire, 21 dB does |

## Left out

- D-Bus access through jeepney and the async plumbing of `scan`: finding the
  wireless device, requesting a scan, the two-second wait, listing access
  points and reading properties. `Scanner.AccessPoint` carries the
  properties already read.
- Decoding the SSID bytes as UTF-8 with errors ignored: the model takes the
  decoded name as a string.
- Lower-casing is ASCII only. Python's `str.lower` also maps non-ASCII
  letters, so the model can differ on names that contain non-ASCII letters
  whose lower case contains an ASCII letter ("İ" lowers to "i" and a
  combining dot), which can change which names hold a lure pattern.
- The CRITICAL band's `float("inf")` upper end is the constructor
  `Unbounded`.
- Printing: the score report, the table header and its layout, emoji,
  colours, argparse, and the `sys.exit` paths. The "neither argument given"
  exit of `cmd_score` appears only as `Cli.FindNetwork` returning None.
- The table row's other columns, including the SSID cut to `MAX_SSID_DISPLAY`
  characters (wst/cli.py:21). Only the bar and the channel column carry
  logic.
- The legacy modules wst/wifi_network.py, wst/wifi_scanner.py,
  wst/wifi_scorer.py and wst/wifi_manager.py are not part of this model.
- Python object identity: a target is the set of snapshot positions holding
  that object. Aliasing of one object at two positions can be expressed but
  never arises from a scan.
- `Cli.FindNetwork`: returns the position of the chosen network in the
  list, not the object itself.
- `Scanner.SortBySignal`: Python's `sorted(..., reverse=True)` is library
  code. It is modelled as a stable insertion sort, and proved sorted,
  a permutation, and stable.
