/** The fixed point values, thresholds and suspicious name patterns of the
    risk scorer (wst/scorer/constants.py). */
module ScorerConstants {

  const ScoreOpenNetwork: nat := 7
  const ScoreHandshakeCapture: nat := 6
  const ScoreDuplicateSsid: nat := 3
  const ScoreEvilTwinSignal: nat := 4
  const ScoreMultiChannel: nat := 3
  const ScoreSimilarSsids: nat := 3
  const ScoreOpenWithEncrypted: nat := 3

  /** Signal spread, in dB, that a same-name group must exceed. */
  const SignalDiffThreshold: int := 20
  /** How many names must contain a matched pattern. */
  const SimilarSsidThreshold: nat := 3

  const SuspiciousSsidPatterns: seq<string> := [
    "free_wifi",
    "freewifi",
    "free wifi",
    "guest",
    "public",
    "wifi",
    "internet",
    "hotspot",
    "access"
  ]
}
