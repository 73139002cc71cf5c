/** The rating classifier's five score bands and the catalog of the seven
    risk indicators (wst/scorer/enums.py). */
module ScorerEnums {
  import opened Wrappers
  import opened Sequences
  import opened ScorerConstants

  /** A band's upper end; the last band has none (`float("inf")`). */
  datatype Bound = AtMost(n: int) | Unbounded

  datatype RiskLevel = Safe | Minor | Medium | High | Critical
  {
    function LevelName(): string
    {
      match this
      case Safe => "Safe / Low Risk"
      case Minor => "Minor Risk"
      case Medium => "Medium Risk"
      case High => "High Risk"
      case Critical => "Critical Danger"
    }

    function MinScore(): int
    {
      match this
      case Safe => 0
      case Minor => 5
      case Medium => 9
      case High => 14
      case Critical => 19
    }

    function MaxScore(): Bound
    {
      match this
      case Safe => AtMost(4)
      case Minor => AtMost(8)
      case Medium => AtMost(13)
      case High => AtMost(18)
      case Critical => Unbounded
    }

    /** Position in declaration order. */
    function Rank(): nat
    {
      match this
      case Safe => 0
      case Minor => 1
      case Medium => 2
      case High => 3
      case Critical => 4
    }

    /** `min_score <= score <= max_score`. */
    predicate Covers(score: int)
    {
      MinScore() <= score && (MaxScore().Unbounded? || score <= MaxScore().n)
    }

    /** The last score of the band's lower half: 2, 6, 11, 16 and 25. */
    function SplitScore(): int
    {
      match this
      case Safe => 2
      case Minor => 6
      case Medium => 11
      case High => 16
      case Critical => 25
    }

    /** `get_rating`: each band owns the two ratings 2*rank+1 and 2*rank+2,
        the lower one exactly for scores up to the band's split. */
    function GetRating(score: int): (r: int)
      ensures r == 2 * Rank() + 1 <==> score <= SplitScore()
      ensures r == 2 * Rank() + 2 <==> score > SplitScore()
    {
      match this
      case Safe => if score <= 2 then 1 else 2
      case Minor => if score <= 6 then 3 else 4
      case Medium => if score <= 11 then 5 else 6
      case High => if score <= 16 then 7 else 8
      case Critical => if score <= 25 then 9 else 10
    }
  }

  /** Each band's split falls inside the band with room on both sides, so
      every band hands out both of its ratings. */
  lemma SplitInsideBand(level: RiskLevel)
    ensures level.Covers(level.SplitScore()) && level.Covers(level.SplitScore() + 1)
    ensures level.GetRating(level.SplitScore()) == 2 * level.Rank() + 1
    ensures level.GetRating(level.SplitScore() + 1) == 2 * level.Rank() + 2
  {
  }

  /** The bands in declaration order, the order `for level in cls` visits. */
  const Levels: seq<RiskLevel> := [Safe, Minor, Medium, High, Critical]

  /** `RiskLevel.from_score`: the first band in declaration order that
      covers the score, CRITICAL when none does. */
  function FromScore(score: int): (r: RiskLevel)
    ensures r.Covers(score) || (r == Critical && forall l :: l in Levels ==> !l.Covers(score))
    ensures r.Covers(score) ==> forall j :: 0 <= j < |Levels| && Levels[j] != r ==> !Levels[j].Covers(score)
  {
    match FirstIndex(Levels, (l: RiskLevel) => l.Covers(score))
    case Some(i) => Levels[i]
    case None => Critical
  }

  /** The bands are SAFE [0,4], MINOR [5,8], MEDIUM [9,13], HIGH [14,18]
      and CRITICAL [19,inf); a negative score, which no band covers, falls
      back to CRITICAL. */
  lemma FromScoreBands(score: int)
    ensures FromScore(score) == Safe <==> 0 <= score <= 4
    ensures FromScore(score) == Minor <==> 5 <= score <= 8
    ensures FromScore(score) == Medium <==> 9 <= score <= 13
    ensures FromScore(score) == High <==> 14 <= score <= 18
    ensures FromScore(score) == Critical <==> score >= 19 || score < 0
  {
  }

  /** Every non-negative score lies in exactly one band, and no band covers
      a negative score. */
  lemma ExactlyOneBand(score: int)
    ensures score >= 0 ==> exists i :: 0 <= i < |Levels| && Levels[i].Covers(score)
    ensures forall i, j :: 0 <= i < j < |Levels| ==> !(Levels[i].Covers(score) && Levels[j].Covers(score))
    ensures score < 0 ==> forall l :: l in Levels ==> !l.Covers(score)
  {
    if score >= 0 {
      var i := if score <= 4 then 0 else if score <= 8 then 1 else if score <= 13 then 2
               else if score <= 18 then 3 else 4;
      assert Levels[i].Covers(score);
    }
  }

  /** Scores at each band edge fall on the documented side. */
  lemma BandEdges()
    ensures FromScore(4) == Safe && FromScore(5) == Minor
    ensures FromScore(8) == Minor && FromScore(9) == Medium
    ensures FromScore(13) == Medium && FromScore(14) == High
    ensures FromScore(18) == High && FromScore(19) == Critical
  {
    FromScoreBands(4); FromScoreBands(5); FromScoreBands(8); FromScoreBands(9);
    FromScoreBands(13); FromScoreBands(14); FromScoreBands(18); FromScoreBands(19);
  }

  /** One risk heuristic of the catalog. */
  datatype RiskIndicator =
    | OpenNetwork
    | HandshakeCapture
    | DuplicateSsid
    | EvilTwinSignal
    | MultiChannelBroadcast
    | SimilarSsids
    | OpenWithEncrypted
  {
    function Description(): string
    {
      match this
      case OpenNetwork => "Open network"
      case HandshakeCapture => "Handshake capture possible"
      case DuplicateSsid => "Duplicate SSID"
      case EvilTwinSignal => "Evil twin signal"
      case MultiChannelBroadcast => "Multi-channel broadcast"
      case SimilarSsids => "Similar SSIDs"
      case OpenWithEncrypted => "Open with encrypted duplicate"
    }

    function Points(): nat
    {
      match this
      case OpenNetwork => ScoreOpenNetwork
      case HandshakeCapture => ScoreHandshakeCapture
      case DuplicateSsid => ScoreDuplicateSsid
      case EvilTwinSignal => ScoreEvilTwinSignal
      case MultiChannelBroadcast => ScoreMultiChannel
      case SimilarSsids => ScoreSimilarSsids
      case OpenWithEncrypted => ScoreOpenWithEncrypted
    }

    /** Position in declaration order. */
    function Rank(): nat
    {
      match this
      case OpenNetwork => 0
      case HandshakeCapture => 1
      case DuplicateSsid => 2
      case EvilTwinSignal => 3
      case MultiChannelBroadcast => 4
      case SimilarSsids => 5
      case OpenWithEncrypted => 6
    }
  }

  /** The catalog in declaration order. */
  const Indicators: seq<RiskIndicator> := [
    OpenNetwork, HandshakeCapture, DuplicateSsid, EvilTwinSignal,
    MultiChannelBroadcast, SimilarSsids, OpenWithEncrypted
  ]

  /** The catalog has seven entries, each exactly once and at its rank,
      worth 7, 6, 3, 4, 3, 3 and 3 points in that order. */
  lemma IndicatorTable()
    ensures |Indicators| == 7
    ensures forall ind: RiskIndicator :: ind.Rank() < 7 && Indicators[ind.Rank()] == ind
    ensures forall i :: 0 <= i < |Indicators| ==> Indicators[i].Rank() == i
    ensures seq(7, i requires 0 <= i < 7 => Indicators[i].Points()) == [7, 6, 3, 4, 3, 3, 3]
  {
  }
}
