/** What the two chatbot components share: the mock figures they answer from,
    the questions they recognise, the answers they give, the first-match rule
    that picks a question, and the response log. */
module ChatCommon {
  import opened Js

  // Mock figures, in MW.
  const GridAvailability: int := 4000
  const RenewableEnergy: int := 1200
  const AverageDemand: int := 5324
  const MinDemand: int := 4700
  const MaxDemand: int := 5900
  const TimeOfHighestDemand: string := "23:00:00"
  /** The forecast for hours 0 to 23, in hour order. */
  const ForecastedDemandNextDay: seq<int> :=
    [4800, 4900, 5100, 5300, 5200, 5400, 5500, 5600, 5700, 5800, 5900, 6000,
     5900, 5800, 5700, 5600, 5500, 5400, 5300, 5200, 5100, 5000, 4900, 4800]
  /** The demand the report subtracts renewables from. */
  const ReportTotalDemand: int := 120000
  const Average15Days: int := 5700
  const Highest15Days: int := 6300
  const TimeOfHighest15Days: string := "2024-10-17 23:00:00"

  /** The question a submitted text is taken to ask. */
  datatype Intent =
    | AskHighestDemand
    | AskMaximumDemand
    | AskAverageDemand
    | AskMinimumDemand
    | AskGridAvailability
    | AskRenewableEnergy
    | AskSufficientPower
    | AskReport
    | AskFifteenDayDemand
    | AskNextDayPrediction
    | AskRenewableRecommendations
    | AskPeakDemandImpact
    | Unrecognized

  /** An answer, carrying the figures its text interpolates. */
  datatype Answer =
    | HighestDemandAnswer(demandMW: int, time: string)
    | AverageDemandAnswer(demandMW: int)
    | MinimumDemandAnswer(demandMW: int)
    | GridAvailabilityAnswer(availableMW: int)
    | RenewableEnergyAnswer(contributionMW: int)
    | SufficiencyAnswer(sufficient: bool)
    | ReportAnswer(highestMW: int, averageMW: int, minimumMW: int, gridMW: int,
                   renewableMW: int, powerNeededMW: int, totalAvailableMW: int,
                   sufficient: bool)
    | FifteenDayAnswer(highestMW: int, time: string, averageMW: int)
    | NextDayAnswer(hourlyMW: seq<int>)
    | RecommendationsAnswer
    | PeakImpactAnswer
    | NotRecognizedAnswer

  /** Grid plus renewables covers the maximum demand. */
  const PowerIsSufficient: bool := GridAvailability + RenewableEnergy >= MaxDemand

  function AnswerFor(intent: Intent): Answer
  {
    match intent
    case AskHighestDemand => HighestDemandAnswer(MaxDemand, TimeOfHighestDemand)
    case AskMaximumDemand => HighestDemandAnswer(MaxDemand, TimeOfHighestDemand)
    case AskAverageDemand => AverageDemandAnswer(AverageDemand)
    case AskMinimumDemand => MinimumDemandAnswer(MinDemand)
    case AskGridAvailability => GridAvailabilityAnswer(GridAvailability)
    case AskRenewableEnergy => RenewableEnergyAnswer(RenewableEnergy)
    case AskSufficientPower => SufficiencyAnswer(PowerIsSufficient)
    case AskReport =>
      ReportAnswer(MaxDemand, AverageDemand, MinDemand, GridAvailability, RenewableEnergy,
                   ReportTotalDemand - RenewableEnergy, GridAvailability + RenewableEnergy,
                   PowerIsSufficient)
    case AskFifteenDayDemand => FifteenDayAnswer(Highest15Days, TimeOfHighest15Days, Average15Days)
    case AskNextDayPrediction => NextDayAnswer(ForecastedDemandNextDay)
    case AskRenewableRecommendations => RecommendationsAnswer
    case AskPeakDemandImpact => PeakImpactAnswer
    case Unrecognized => NotRecognizedAnswer
  }

  /** With 4000 MW of grid and 1200 MW of renewables against a 5900 MW peak,
      the sufficiency question is always answered No, and the report always
      says "not sufficient", with 118800 MW needed and 5200 MW available. */
  lemma PowerNeverSufficient()
    ensures AnswerFor(AskSufficientPower) == SufficiencyAnswer(false)
    ensures AnswerFor(AskReport).sufficient == false
    ensures AnswerFor(AskReport).powerNeededMW == 118800
    ensures AnswerFor(AskReport).totalAvailableMW == 5200
  {
  }

  /** Only the highest and the maximum demand questions get the highest
      demand answer. */
  lemma HighestDemandAnswerOnlyFor(intent: Intent)
    ensures AnswerFor(intent) == HighestDemandAnswer(MaxDemand, TimeOfHighestDemand)
        <==> intent == AskHighestDemand || intent == AskMaximumDemand
  {
  }

  /** One branch of the if/else chain: the keyword it tests for and the
      question it answers. */
  datatype Rule = Rule(keyword: string, intent: Intent)

  /** The index of the first rule, from `k` on, whose keyword `text` includes. */
  function FirstMatchFrom(rules: seq<Rule>, text: string, k: nat): (r: Option<nat>)
    requires k <= |rules|
    ensures r.Some? ==> k <= r.value < |rules| && Includes(text, rules[r.value].keyword)
    ensures r.Some? ==> forall j :: k <= j < r.value ==> !Includes(text, rules[j].keyword)
    ensures r.None? <==> forall j :: k <= j < |rules| ==> !Includes(text, rules[j].keyword)
    decreases |rules| - k
  {
    if k == |rules| then None
    else if Includes(text, rules[k].keyword) then Some(k)
    else FirstMatchFrom(rules, text, k + 1)
  }

  /** The index of the first rule whose keyword `text` includes. */
  function FirstMatch(rules: seq<Rule>, text: string): Option<nat>
  {
    FirstMatchFrom(rules, text, 0)
  }

  /** The question asked: the first rule that matches wins; no match is
      Unrecognized. */
  function Classify(rules: seq<Rule>, text: string): Intent
  {
    match FirstMatch(rules, text)
    case Some(i) => rules[i].intent
    case None => Unrecognized
  }

  /** A rule whose keyword is included, with no earlier rule's keyword
      included, decides the question. */
  lemma FirstMatchDecides(rules: seq<Rule>, text: string, i: nat)
    requires i < |rules| && Includes(text, rules[i].keyword)
    requires forall j :: 0 <= j < i ==> !Includes(text, rules[j].keyword)
    ensures FirstMatch(rules, text) == Some(i)
    ensures Classify(rules, text) == rules[i].intent
  {
  }

  /** A rule that repeats the start of an earlier rule's keyword can never be
      chosen: whatever includes the longer keyword includes the earlier one. */
  lemma {:induction false} ShadowedRuleNeverChosen(rules: seq<Rule>, text: string, i: nat, j: nat, rest: string)
    requires i < j < |rules|
    requires rules[j].keyword == rules[i].keyword + rest
    ensures FirstMatch(rules, text) != Some(j)
  {
    if FirstMatch(rules, text) == Some(j) {
      IncludesPrefixOfNeedle(text, rules[i].keyword, rest);
      assert false;
    }
  }

  /** Only an unrecognised question gets "Question not recognized.", and only
      the renewable recommendations question gets the recommendations. */
  lemma AnswerOnlyFor(intent: Intent)
    ensures AnswerFor(intent) == NotRecognizedAnswer <==> intent == Unrecognized
    ensures AnswerFor(intent) == RecommendationsAnswer <==> intent == AskRenewableRecommendations
  {
  }

  /** Some rule before position `n` matches exactly when the first match is
      before `n`. */
  lemma MatchAmongFirst(rules: seq<Rule>, text: string, n: nat)
    requires n <= |rules|
    ensures (FirstMatch(rules, text).Some? && FirstMatch(rules, text).value < n)
        <==> exists i :: 0 <= i < n && Includes(text, rules[i].keyword)
  {
    match FirstMatch(rules, text)
    case None =>
    case Some(k) =>
      if k >= n {
        assert forall i :: 0 <= i < n ==> !Includes(text, rules[i].keyword);
      }
  }

  /** When the rules before position `n` are exactly those answering a
      question in `asked`, the text asks one of those questions exactly when
      it includes one of their keywords. */
  lemma AskedAmongFirst(rules: seq<Rule>, text: string, n: nat, asked: set<Intent>)
    requires n <= |rules|
    requires forall k :: 0 <= k < n ==> rules[k].intent in asked
    requires forall k :: n <= k < |rules| ==> rules[k].intent !in asked
    requires Unrecognized !in asked
    ensures Classify(rules, text) in asked
        <==> exists i :: 0 <= i < n && Includes(text, rules[i].keyword)
  {
    MatchAmongFirst(rules, text, n);
  }

  /** When no rule answers Unrecognized, a text is unrecognised exactly when
      it includes no keyword. */
  lemma UnrecognizedIffNoMatch(rules: seq<Rule>, text: string)
    requires forall i :: 0 <= i < |rules| ==> rules[i].intent != Unrecognized
    ensures Classify(rules, text) == Unrecognized
        <==> forall i :: 0 <= i < |rules| ==> !Includes(text, rules[i].keyword)
  {
    match FirstMatch(rules, text)
    case None =>
    case Some(k) =>
      assert rules[k].intent != Unrecognized;
  }

  /** A rule shadowed by an earlier one whose keyword begins its own, and
      whose question no other rule answers, is never the question asked. */
  lemma ShadowedIntentNeverAsked(rules: seq<Rule>, text: string, i: nat, j: nat, rest: string)
    requires i < j < |rules|
    requires rules[j].keyword == rules[i].keyword + rest
    requires rules[j].intent != Unrecognized
    requires forall k :: 0 <= k < |rules| && k != j ==> rules[k].intent != rules[j].intent
    ensures Classify(rules, text) != rules[j].intent
  {
    ShadowedRuleNeverChosen(rules, text, i, j, rest);
  }

  /** One question and its answer in the log. */
  datatype Entry = Entry(question: string, answer: Answer)

  /** `log.filter((_, i) => i !== index)`: the entries at every position but
      `index`, in order. */
  function WithoutIndex(log: seq<Entry>, index: int): (r: seq<Entry>)
    ensures 0 <= index < |log| ==> r == log[..index] + log[index + 1..]
    ensures !(0 <= index < |log|) ==> r == log
  {
    if log == [] then []
    else
      var last := |log| - 1;
      WithoutIndex(log[..last], index) + (if last != index then [log[last]] else [])
  }
}
