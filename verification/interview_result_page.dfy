/**
 * The interview result page: it shows the result passed in by navigation, or
 * a built-in sample when none was passed, classifies the overall score into
 * one of three badges, and numbers the suggestions.
 */
module InterviewResult {
  import opened Wrappers

  /** The three status badges. */
  datatype Badge = Excellent | Good | NeedsImprovement

  /** The `text` field of the badge. */
  function BadgeText(b: Badge): string
  {
    match b
    case Excellent => "Excellent"
    case Good => "Good"
    case NeedsImprovement => "Needs Improvement"
  }

  /** Badges ordered from worst to best. */
  function Rank(b: Badge): nat
  {
    match b
    case NeedsImprovement => 0
    case Good => 1
    case Excellent => 2
  }

  /**
   * `getStatusBadge`: Excellent from 8 up, Good from 6 up to but excluding 8,
   * Needs Improvement below 6.
   */
  function StatusBadge(score: real): (b: Badge)
    ensures b == Excellent <==> score >= 8.0
    ensures b == Good <==> 6.0 <= score < 8.0
    ensures b == NeedsImprovement <==> score < 6.0
  {
    if score >= 8.0 then Excellent
    else if score >= 6.0 then Good
    else NeedsImprovement
  }

  /** A higher score never gets a worse badge. */
  lemma StatusBadgeMonotone(s: real, t: real)
    requires s <= t
    ensures Rank(StatusBadge(s)) <= Rank(StatusBadge(t))
  {
  }

  /** The fields of a result record that the page reads. */
  datatype ResultData = ResultData(
    overallScore: real,
    technicalScore: real,
    communicationScore: real,
    behavioralScore: real,
    strengths: seq<string>,
    improvements: seq<string>,
    suggestions: seq<string>,
    previousScore: real)

  /** The sample record shown when the page is opened without a result. */
  function DefaultResult(): (r: ResultData)
    ensures r.overallScore == 7.8 && r.previousScore == 6.9
    ensures r.previousScore < r.overallScore
    ensures r.technicalScore == 8.2 && r.communicationScore == 7.5 && r.behavioralScore == 7.2
    ensures |r.strengths| == 3 && |r.improvements| == 3 && |r.suggestions| == 3
  {
    ResultData(7.8, 8.2, 7.5, 7.2, SampleStrengths, SampleImprovements, SampleSuggestions, 6.9)
  }

  const SampleStrengths: seq<string> :=
    [ "Strong grasp of React Hooks and State management",
      "Clear articulation of complex technical architectural decisions",
      "Maintainted high confidence during pressure-testing questions" ]

  const SampleImprovements: seq<string> :=
    [ "Optimize explanation of System Design scalability patterns",
      "Reduce filler words during behavioral storytelling",
      "Better time management for coding challenges" ]

  const SampleSuggestions: seq<string> :=
    [ "Practice the STAR method specifically for conflict-resolution questions.",
      "Review Low-Level Design (LLD) principles for SOLID compliance.",
      "Engage in more mock sessions focusing on 'What if' scenarios." ]

  /** `location.state || default`: the passed-in result if any, otherwise the sample. */
  function Resolve(state: Option<ResultData>): (r: ResultData)
    ensures state.Some? ==> r == state.value
    ensures state.None? ==> r == DefaultResult()
  {
    match state
    case Some(d) => d
    case None => DefaultResult()
  }

  /** The badge the page shows for the navigation state it was opened with. */
  function PageBadge(state: Option<ResultData>): (b: Badge)
    ensures state.Some? ==> b == StatusBadge(state.value.overallScore)
    ensures state.None? ==> b == Good
  {
    StatusBadge(Resolve(state).overallScore)
  }

  /** The text the badge shows for a score: one label per band. */
  lemma BadgeTextOfScore(score: real)
    ensures BadgeText(StatusBadge(score)) == "Excellent" <==> score >= 8.0
    ensures BadgeText(StatusBadge(score)) == "Good" <==> 6.0 <= score < 8.0
    ensures BadgeText(StatusBadge(score)) == "Needs Improvement" <==> score < 6.0
  {
  }

  /** The sample record's overall score of 7.8 is rated Good. */
  lemma DefaultResultShape()
    ensures StatusBadge(DefaultResult().overallScore) == Good
  {
  }

  /** A suggestion as displayed: its 1-based number and its text. */
  datatype NumberedSuggestion = NumberedSuggestion(number: nat, text: string)

  /** The suggestions in order, numbered from 1. */
  function NumberSuggestions(suggestions: seq<string>): (rows: seq<NumberedSuggestion>)
    ensures |rows| == |suggestions|
    ensures forall i :: 0 <= i < |rows| ==> rows[i].number == i + 1 && rows[i].text == suggestions[i]
    decreases |suggestions|
  {
    if |suggestions| == 0 then []
    else NumberSuggestions(suggestions[..|suggestions| - 1])
         + [NumberedSuggestion(|suggestions|, suggestions[|suggestions| - 1])]
  }

  /** The numbers shown are strictly increasing and the last one is the count. */
  lemma SuggestionNumbersIncrease(suggestions: seq<string>)
    ensures var rows := NumberSuggestions(suggestions);
      && (forall i, j :: 0 <= i < j < |rows| ==> rows[i].number < rows[j].number)
      && (|rows| > 0 ==> rows[|rows| - 1].number == |suggestions|)
  {
  }
}
