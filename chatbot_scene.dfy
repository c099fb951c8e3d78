/** The chatbot of the chatbot scene: a keyword dispatcher over the mock
    figures and a log of questions and answers the user can delete from. */
module ChatbotScene {
  import opened Js
  import opened ChatCommon

  /** The branches of `handleSubmit`, in the order they are tried. */
  const Rules: seq<Rule> := [
    Rule("highest demand", AskHighestDemand),
    Rule("maximum demand", AskMaximumDemand),
    Rule("average demand", AskAverageDemand),
    Rule("minimum demand", AskMinimumDemand),
    Rule("grid availability", AskGridAvailability),
    Rule("renewable energy", AskRenewableEnergy),
    Rule("sufficient power", AskSufficientPower),
    Rule("report", AskReport),
    Rule("demand for the next 15 days", AskFifteenDayDemand),
    Rule("next day prediction", AskNextDayPrediction),
    Rule("renewable energy recommendations", AskRenewableRecommendations),
    Rule("impact of peak demand", AskPeakDemandImpact)
  ]

  /** The answer `handleSubmit` gives to a text. */
  function Respond(inputText: string): Answer
  {
    AnswerFor(Classify(Rules, ToLowerCase(inputText)))
  }

  /** Every rule answers a recognised question; the recommendations rule is
      the only one asking for recommendations, and its keyword begins with
      the renewable energy rule's. */
  lemma RuleTable()
    ensures forall i :: 0 <= i < |Rules| ==> Rules[i].intent != Unrecognized
    ensures Rules[10].keyword == Rules[5].keyword + " recommendations"
    ensures Rules[10].intent == AskRenewableRecommendations
    ensures forall k :: 0 <= k < |Rules| && k != 10 ==> Rules[k].intent != AskRenewableRecommendations
  {
  }

  /** The rules answering with the highest demand come first. */
  lemma HighestDemandRulesFirst()
    ensures forall k :: 0 <= k < 2 ==> Rules[k].intent in {AskHighestDemand, AskMaximumDemand}
    ensures forall k :: 2 <= k < |Rules| ==> Rules[k].intent !in {AskHighestDemand, AskMaximumDemand}
    ensures Rules[0].keyword == "highest demand" && Rules[1].keyword == "maximum demand"
  {
  }

  /** Matching ignores case: a text and its lower-case form get the same answer. */
  lemma RespondIgnoresCase(inputText: string)
    ensures Respond(ToLowerCase(inputText)) == Respond(inputText)
  {
    ToLowerCaseIdempotent(inputText);
  }

  /** "highest demand" and "maximum demand" are answered alike: the highest
      demand answer comes exactly from texts mentioning either. */
  lemma HighestDemandAnswerIffHighestOrMaximum(inputText: string)
    ensures Respond(inputText) == HighestDemandAnswer(MaxDemand, TimeOfHighestDemand)
        <==> (Includes(ToLowerCase(inputText), "highest demand")
              || Includes(ToLowerCase(inputText), "maximum demand"))
  {
    var text := ToLowerCase(inputText);
    HighestDemandAnswerOnlyFor(Classify(Rules, text));
    HighestDemandRulesFirst();
    AskedAmongFirst(Rules, text, 2, {AskHighestDemand, AskMaximumDemand});
  }

  /** The "renewable energy recommendations" branch is dead: the earlier
      "renewable energy" branch takes every text that could reach it. */
  lemma RecommendationsUnreachable(inputText: string)
    ensures Respond(inputText) != RecommendationsAnswer
  {
    var text := ToLowerCase(inputText);
    RuleTable();
    ShadowedIntentNeverAsked(Rules, text, 5, 10, " recommendations");
    AnswerOnlyFor(Classify(Rules, text));
  }

  /** "Question not recognized." is the answer exactly when no keyword is
      included in the lower-cased text. */
  lemma NotRecognizedIffNoKeyword(inputText: string)
    ensures Respond(inputText) == NotRecognizedAnswer
        <==> forall i :: 0 <= i < |Rules| ==> !Includes(ToLowerCase(inputText), Rules[i].keyword)
  {
    var text := ToLowerCase(inputText);
    RuleTable();
    UnrecognizedIffNoMatch(Rules, text);
    AnswerOnlyFor(Classify(Rules, text));
  }

  /** The sufficiency question and the report: always "not sufficient". */
  lemma SufficientPowerAnswersNo(inputText: string)
    requires Includes(ToLowerCase(inputText), "sufficient power")
    requires forall i :: 0 <= i < 6 ==> !Includes(ToLowerCase(inputText), Rules[i].keyword)
    ensures Respond(inputText) == SufficiencyAnswer(false)
  {
    FirstMatchDecides(Rules, ToLowerCase(inputText), 6);
    PowerNeverSufficient();
  }

  /** The chatbot's state: the input box and the response log. */
  class Chatbot {
    var input: string
    var responses: seq<Entry>

    constructor ()
      ensures input == "" && responses == []
    {
      input := "";
      responses := [];
    }

    /** `handleInputChange`: the input box holds what was typed. */
    method HandleInputChange(value: string)
      modifies this`input
      ensures input == value
    {
      input := value;
    }

    /** `handleSubmit`: answer the text, append one entry at the end of the
        log, and clear the input box. */
    method HandleSubmit(inputText: string)
      modifies this
      ensures responses == old(responses) + [Entry(inputText, Respond(inputText))]
      ensures input == ""
    {
      var answer := Respond(inputText);
      responses := responses + [Entry(inputText, answer)];
      input := "";
    }

    /** `handleDelete`: drop the entry at `index`; an index outside the log
        leaves it as it was. */
    method HandleDelete(index: int)
      modifies this`responses
      ensures responses == WithoutIndex(old(responses), index)
      ensures 0 <= index < |old(responses)| ==> |responses| == |old(responses)| - 1
      ensures !(0 <= index < |old(responses)|) ==> responses == old(responses)
    {
      responses := WithoutIndex(responses, index);
    }
  }
}
