# Delhi power dashboard: distribution, chatbot and demand map

This project models the logic of three screens of a React dashboard for
Delhi's electricity supply, and proves what that logic does:

- **Grid schedule** (`GridScheduling`, `grid_schedule.dfy`). The operator
  types a power demand. Pressing "Distribute Power" subtracts a fixed
  500 MW of renewables from it. The remainder is then shared among five
  grids in proportion to their capacities. When the remainder strictly
  exceeds their combined 16785 MW, every grid runs at capacity, and a
  warning naming the excess appears together with five fixed suggestions.
  The screen is a class. Its `DistributePower` method keeps the source's
  two loops and is proved against the specification function `Distribute`.
- **Chatbot** (`ChatCommon`, `ChatbotScene`, `ChatbotComponent`). Two
  copies of one component answer typed questions. Each lower-cases the
  text and tries a chain of `includes` tests in a fixed order; the first
  keyword found decides the answer. The scene's copy answers
  "maximum demand" like "highest demand"; the component's copy has no
  such branch. Answers are a datatype carrying the mock figures they
  quote. The questions and answers form a log, which the user can append
  to and delete from.
- **Demand map** (`DemandMapScene`, `demand_map.dfy`). A fixed table lists
  ten localities with their demand as text such as "281.64 MW". Choosing
  a locality's name shows its figures. Moving the pointer over the
  highlighted area shows a total: the sum of `parseInt` of every demand
  text, so every fraction is dropped.
- **JavaScript built-ins** (`Js`, `js.dfy`). The model states the few
  built-ins that this logic relies on: `parseInt` (radix 10),
  `toLowerCase`, `includes`, and the decimal text of an integral Number.

Demands typed into the field are integers, because the field goes through
`parseInt`. Allocations are exact reals.

Where the code and the documented design of the allocation differ, the
model follows the code:
- a demand below the renewable contribution is not clamped to zero, and
  every grid then gets a negative share;
- a negative demand is not rejected;
- there is no zero-capacity error, because the registry is fixed and its
  total is 16785 MW;
- the shortfall test is a strict `>`.

Each source function is defined once, as a Dafny function, and the
members in the table below state what it does:

- `distributePower` (gridschedule/index.tsx:27-66) is `GridScheduling.Distribute`. Its `reduce` at line 29 is `GridScheduling.TotalGridCapacity`, and `parseInt(...) || 0` at line 23 is `GridScheduling.DemandFromInput`.
- `handleSubmit`'s choice of answer is `ChatbotScene.Respond` (chatbot/components/ChatBot.tsx:102-168) and `ChatbotComponent.Respond` (components/ChatBot.tsx:86-149). Each is `ChatCommon.AnswerFor` of `ChatCommon.Classify`, which takes the intent of `ChatCommon.FirstMatch`, the first rule whose keyword is included.
- `parseInt` is `Js.ParseInt`, `toLowerCase` is `Js.ToLowerCase` and `includes` is `Js.Includes`.
- The `reduce` of `calculateTotalDemand` (demandmap/index.tsx:62) is `DemandMapScene.SumParsedDemands`, and the text it shows (line 63) is `DemandMapScene.TotalDemandText`.

## Model

| member | source | states |
|---|---|---|
| Js.TrimStart | copy/client/src/scenes/gridschedule/index.tsx:23 | `parseInt` first skips white space: what is left does not start with white space |
| Js.LeadingDigits | copy/client/src/scenes/demandmap/index.tsx:62 | the digit run `parseInt` reads is the longest prefix made only of decimal digits |
| Js.NatToDecimal | copy/client/src/scenes/demandmap/index.tsx:63 | the decimal text of a natural number is a non-empty digit string, starting with '0' only for 0 |
| Js.IntToDecimal | copy/client/src/scenes/demandmap/index.tsx:63 | the text of an integer starts with '-' exactly when the integer is negative |
| Js.DigitsValueOfDecimal | copy/client/src/scenes/demandmap/index.tsx:63 | reading the printed digits of a natural number back gives the number |
| Js.ParseIntOfDecimal | copy/client/src/scenes/gridschedule/index.tsx:23 | `Js.ParseInt`, the model of `parseInt`, of an integer's decimal text, followed by anything that does not start with a digit, is that integer |
| Js.ParseIntNoDigits | copy/client/src/scenes/gridschedule/index.tsx:23 | under `Js.ParseInt`, text whose first non-blank character is neither a sign nor a digit parses to NaN |
| Js.ToLowerCase | copy/client/src/scenes/chatbot/components/ChatBot.tsx:106 | lower-casing keeps the length and lowers each letter in place |
| Js.ToLowerCaseIdempotent | copy/client/src/scenes/chatbot/components/ChatBot.tsx:106 | lower-casing twice is lower-casing once |
| Js.IncludesIffOccurs | copy/client/src/scenes/chatbot/components/ChatBot.tsx:106 | `Js.Includes`, the model of `includes`, holds exactly when the keyword occurs at some position of the text |
| Js.IncludesPrefixOfNeedle | copy/client/src/scenes/chatbot/components/ChatBot.tsx:162 | text that includes `p + q` includes `p` |
| ChatCommon.PowerNeverSufficient | copy/client/src/scenes/chatbot/components/ChatBot.tsx:119-130 | with 4000 MW of grid and 1200 MW of renewables against a 5900 MW peak, the sufficiency answer is always "No"; the report says "not sufficient", with 118800 MW needed and 5200 MW available |
| ChatCommon.HighestDemandAnswerOnlyFor | copy/client/src/scenes/chatbot/components/ChatBot.tsx:106-110 | under `ChatCommon.AnswerFor`, the highest demand answer is given to the highest and the maximum demand questions, and to no other |
| ChatCommon.AnswerOnlyFor | copy/client/src/scenes/chatbot/components/ChatBot.tsx:162-167 | "Question not recognized." answers only an unrecognised text; the recommendations answer only the recommendations question |
| ChatCommon.FirstMatchFrom | copy/client/src/scenes/chatbot/components/ChatBot.tsx:106-168 | the if/else chain picks the first rule whose keyword the text includes, no earlier rule's keyword is included, and there is no match exactly when no keyword is included |
| ChatCommon.FirstMatchDecides | copy/client/src/scenes/chatbot/components/ChatBot.tsx:106-168 | a rule whose keyword is included, with no earlier keyword included, is `ChatCommon.FirstMatch` and decides the question `ChatCommon.Classify` returns |
| ChatCommon.ShadowedRuleNeverChosen | copy/client/src/scenes/chatbot/components/ChatBot.tsx:117-162 | a rule whose keyword extends an earlier rule's keyword is never the first match |
| ChatCommon.MatchAmongFirst | copy/client/src/scenes/chatbot/components/ChatBot.tsx:106-110 | the first match falls among the first `n` rules exactly when one of their keywords is included |
| ChatCommon.AskedAmongFirst | copy/client/src/scenes/chatbot/components/ChatBot.tsx:106-110 | when the first `n` rules are exactly those asking questions of a set, a text asks one of those questions exactly when it includes one of their keywords |
| ChatCommon.UnrecognizedIffNoMatch | copy/client/src/scenes/chatbot/components/ChatBot.tsx:166-167 | a text is unrecognised exactly when it includes no keyword |
| ChatCommon.ShadowedIntentNeverAsked | copy/client/src/scenes/chatbot/components/ChatBot.tsx:117-163 | a question answered only by a rule shadowed by an earlier, shorter keyword is never the question asked |
| ChatCommon.WithoutIndex | copy/client/src/scenes/chatbot/components/ChatBot.tsx:213-216 | `filter((_, i) => i !== index)` removes exactly the entry at `index` and keeps the rest in order; an index outside the log changes nothing |
| ChatbotScene.RuleTable | copy/client/src/scenes/chatbot/components/ChatBot.tsx:106-165 | every branch answers a recognised question; the recommendations branch is the only one asking for recommendations, and its keyword extends the "renewable energy" keyword of an earlier branch |
| ChatbotScene.HighestDemandRulesFirst | copy/client/src/scenes/chatbot/components/ChatBot.tsx:106-110 | the two branches giving the highest demand answer are the first two, keyed "highest demand" and "maximum demand" |
| ChatbotScene.RespondIgnoresCase | copy/client/src/scenes/chatbot/components/ChatBot.tsx:106 | under `ChatbotScene.Respond`, the answer `handleSubmit` picks, a text and its lower-case form get the same answer |
| ChatbotScene.HighestDemandAnswerIffHighestOrMaximum | copy/client/src/scenes/chatbot/components/ChatBot.tsx:106-110 | the highest demand answer is given exactly to texts including "highest demand" or "maximum demand" |
| ChatbotScene.RecommendationsUnreachable | copy/client/src/scenes/chatbot/components/ChatBot.tsx:117-163 | no text ever gets the renewable energy recommendations answer |
| ChatbotScene.NotRecognizedIffNoKeyword | copy/client/src/scenes/chatbot/components/ChatBot.tsx:106-168 | "Question not recognized." is the answer exactly when the lower-cased text includes none of the twelve keywords |
| ChatbotScene.SufficientPowerAnswersNo | copy/client/src/scenes/chatbot/components/ChatBot.tsx:119-123 | a text reaching the sufficiency branch is answered "No" |
| ChatbotScene.Chatbot.constructor | copy/client/src/scenes/chatbot/components/ChatBot.tsx:36-37 | the input box and the log start empty |
| ChatbotScene.Chatbot.HandleInputChange | copy/client/src/scenes/chatbot/components/ChatBot.tsx:98-100 | the input box holds what was typed |
| ChatbotScene.Chatbot.HandleSubmit | copy/client/src/scenes/chatbot/components/ChatBot.tsx:102-175 | one entry, the text and its answer, is appended at the end of the log, and the input box is cleared |
| ChatbotScene.Chatbot.HandleDelete | copy/client/src/scenes/chatbot/components/ChatBot.tsx:213-216 | the log loses exactly the entry at `index`, one entry shorter; an index outside the log leaves it as it was |
| ChatbotComponent.RuleTable | copy/client/src/components/ChatBot.tsx:90-146 | every branch answers a recognised question; the recommendations branch is the only one asking for recommendations, and its keyword extends the "renewable energy" keyword of an earlier branch |
| ChatbotComponent.HighestDemandRulesFirst | copy/client/src/components/ChatBot.tsx:90-91 | the only branch giving the highest demand answer is the first, keyed "highest demand" |
| ChatbotComponent.RespondIgnoresCase | copy/client/src/components/ChatBot.tsx:90 | under `ChatbotComponent.Respond`, the answer `handleSubmit` picks, a text and its lower-case form get the same answer |
| ChatbotComponent.HighestDemandAnswerIffHighestDemand | copy/client/src/components/ChatBot.tsx:90-91 | the highest demand answer is given exactly to texts including "highest demand"; "maximum demand" alone does not get it |
| ChatbotComponent.RecommendationsUnreachable | copy/client/src/components/ChatBot.tsx:98-144 | no text ever gets the renewable energy recommendations answer |
| ChatbotComponent.NotRecognizedIffNoKeyword | copy/client/src/components/ChatBot.tsx:90-149 | "Question not recognized." is the answer exactly when the lower-cased text includes none of the eleven keywords |
| ChatbotComponent.SufficientPowerAnswersNo | copy/client/src/components/ChatBot.tsx:100-104 | a text reaching the sufficiency branch is answered "No" |
| ChatbotComponent.Chatbot.constructor | copy/client/src/components/ChatBot.tsx:20-21 | the input box and the log start empty |
| ChatbotComponent.Chatbot.HandleInputChange | copy/client/src/components/ChatBot.tsx:82-84 | the input box holds what was typed |
| ChatbotComponent.Chatbot.HandleSubmit | copy/client/src/components/ChatBot.tsx:86-156 | one entry, the text and its answer, is appended at the end of the log, and the input box is cleared |
| ChatbotComponent.Chatbot.HandleDelete | copy/client/src/components/ChatBot.tsx:175-177 | the log loses exactly the entry at `index`, one entry shorter; an index outside the log leaves it as it was |
| GridScheduling.EachCapacityWithinTotal | copy/client/src/scenes/gridschedule/index.tsx:29 | with no negative capacity, each grid's capacity is at most the total `GridScheduling.TotalGridCapacity`; with positive capacities a non-empty registry has a positive total |
| GridScheduling.RegistryTotal | copy/client/src/scenes/gridschedule/index.tsx:4-10 | the five capacities are positive and add up to 16785 MW |
| GridScheduling.Min | copy/client/src/scenes/gridschedule/index.tsx:54-57 | `Math.min` is at most each argument and equals one of them |
| GridScheduling.GridShare | copy/client/src/scenes/gridschedule/index.tsx:54-57 | a grid's share never exceeds its capacity |
| GridScheduling.ShareIsProportional | copy/client/src/scenes/gridschedule/index.tsx:54-57 | while the remainder does not exceed the total, the `Math.min` cap does not bind: the share is the capacity times remaining / total |
| GridScheduling.DemandFromInputReadsInteger | copy/client/src/scenes/gridschedule/index.tsx:23 | `GridScheduling.DemandFromInput`, the field's reading, `parseInt` or else 0, is any integer typed into the field, ignoring what follows its digits; text with no number gives 0 |
| GridScheduling.DistributionFollowsRegistry | copy/client/src/scenes/gridschedule/index.tsx:46-58 | both branches list every grid once, by name, in registry order |
| GridScheduling.ShortfallIffDemandExceedsCapacity | copy/client/src/scenes/gridschedule/index.tsx:33-44 | the warning appears exactly when the demand left after renewables strictly exceeds 16785 MW; the suggestions appear exactly with it, and they are the fixed five |
| GridScheduling.ShortfallAllocatesFullCapacity | copy/client/src/scenes/gridschedule/index.tsx:33-49 | in a shortfall every grid gets exactly its capacity, and the warning carries the positive excess remaining − 16785 |
| GridScheduling.SumOfUniformShares | copy/client/src/scenes/gridschedule/index.tsx:59 | a table giving every grid the same fraction `u` of its capacity hands out the total capacity times `u` |
| GridScheduling.ShareAtUtilisation | copy/client/src/scenes/gridschedule/index.tsx:54-57 | when the demand fits, a grid's share is its capacity times the utilisation (demand − 500) / 16785 |
| GridScheduling.SharesAtUtilisation | copy/client/src/scenes/gridschedule/index.tsx:50-63 | when the demand fits there is no warning, and every grid gets its capacity times the common utilisation |
| GridScheduling.ProportionalSharesWhenDemandFits | copy/client/src/scenes/gridschedule/index.tsx:50-63 | when the demand fits, every share is within its grid's capacity, and share / capacity is the same utilisation for every grid |
| GridScheduling.ProportionalTableIsUniform | copy/client/src/scenes/gridschedule/index.tsx:53-58 | below its total, a registry's proportional table gives every grid the fraction remaining / total of its capacity |
| GridScheduling.ProportionalTableSum | copy/client/src/scenes/gridschedule/index.tsx:52-60 | for any registry with no negative capacity and a positive total, the proportional shares add up exactly to the remainder |
| GridScheduling.ProportionalSharesAddUp | copy/client/src/scenes/gridschedule/index.tsx:52-60 | when the demand fits, the shares add up exactly to demand − 500: the running remainder ends at zero |
| GridScheduling.AllocationWithinCapacity | copy/client/src/scenes/gridschedule/index.tsx:46-58 | in both branches every grid gets at most its capacity |
| GridScheduling.DemandAtCapacityFillsEveryGrid | copy/client/src/scenes/gridschedule/index.tsx:33 | at exactly 17285 MW the strict test fails, so no warning is shown, yet every grid gets exactly its capacity |
| GridScheduling.DemandBelowRenewablesGivesNegativeShares | copy/client/src/scenes/gridschedule/index.tsx:28 | a demand below 500 MW is not clamped: there is no warning and every grid gets a negative share |
| GridScheduling.DistributionExamples | copy/client/src/scenes/gridschedule/index.tsx:28-63 | at 4000 MW the Northern Grid gets 12000 × 3500 / 16785 and the shares add up to 3500; at 20000 MW the warning reports 2715 MW, with the five suggestions |
| GridScheduling.GridSchedule.constructor | copy/client/src/scenes/gridschedule/index.tsx:16-19 | the demand starts at 0, with no table, warning or suggestions |
| GridScheduling.GridSchedule.HandleInputChange | copy/client/src/scenes/gridschedule/index.tsx:22-24 | the demand becomes `parseInt` of the field's text, or 0 when that is NaN |
| GridScheduling.GridSchedule.DistributePower | copy/client/src/scenes/gridschedule/index.tsx:27-66 | the table, warning and suggestions become `GridScheduling.Distribute` of the current demand, computed by the source's two loops; the running remainder ends at zero |
| DemandMapScene.FindFrom | copy/client/src/scenes/demandmap/index.tsx:50 | the position found is the first from `k` on whose name matches; there is none exactly when no name from `k` on matches |
| DemandMapScene.FindLocality | copy/client/src/scenes/demandmap/index.tsx:50 | `find` returns a locality exactly when some locality has the name, and what it returns is a table entry with that name |
| DemandMapScene.FindDistinctName | copy/client/src/scenes/demandmap/index.tsx:50 | in a table with distinct names, looking up an entry's name finds that entry |
| DemandMapScene.LoadShown | copy/client/src/scenes/demandmap/index.tsx:56 | the load shown is never blank: it is the demand text whenever that is non-empty, and otherwise the "175 MW" fallback |
| DemandMapScene.JsAddLaws | copy/client/src/scenes/demandmap/index.tsx:62 | the `reduce`'s starting 0 changes nothing, the order in which demands are added does not matter, and NaN absorbs |
| DemandMapScene.TotalDropsFractions | copy/client/src/scenes/demandmap/index.tsx:62 | `DemandMapScene.SumParsedDemands`, the `reduce`: when every demand text is a whole number followed by a non-digit, the total is the sum of the whole numbers |
| DemandMapScene.TotalIsNaNIffSomeDemandIsNaN | copy/client/src/scenes/demandmap/index.tsx:62 | the total is NaN exactly when some demand text has no number `parseInt` can read |
| DemandMapScene.TotalIgnoresPositions | copy/client/src/scenes/demandmap/index.tsx:62 | tables that agree on their demand texts have the same total |
| DemandMapScene.ShippedDemandsRead | copy/client/src/scenes/demandmap/index.tsx:9-18 | each shipped demand text is a three-digit whole number followed by a fraction and " MW" |
| DemandMapScene.ShippedWholesSum | copy/client/src/scenes/demandmap/index.tsx:9-18 | the whole parts of the shipped demands add up to 4690 |
| DemandMapScene.ShippedTotal | copy/client/src/scenes/demandmap/index.tsx:61-63 | with the shipped table the total is 4690 and the popup reads "4690 MW" |
| DemandMapScene.FractionText | copy/client/src/scenes/demandmap/index.tsx:9-18 | a demand's tail is a point, two digits naming the hundredths, and " MW" |
| DemandMapScene.ShippedDemandsAreDecimals | copy/client/src/scenes/demandmap/index.tsx:9-18 | every shipped demand is its whole part followed by its two-digit fraction and " MW" |
| DemandMapScene.ShippedExactTotal | copy/client/src/scenes/demandmap/index.tsx:9-18 | read exactly, whole parts plus hundredths, the shipped demands add up to 4694.00 MW, 4 MW more than the popup's 4690 |
| DemandMapScene.DemandNamesDistinct | copy/client/src/scenes/demandmap/index.tsx:9-18 | the ten locality names are pairwise distinct |
| DemandMapScene.NamesUnique | copy/client/src/scenes/demandmap/index.tsx:49-58 | choosing any locality's name from the menu selects that locality |
| DemandMapScene.FallbackNeverShown | copy/client/src/scenes/demandmap/index.tsx:56 | no shipped locality shows the "175 MW" fallback |
| DemandMapScene.DemandMap.constructor | copy/client/src/scenes/demandmap/index.tsx:42-47 | the first locality is selected and shown, with no total |
| DemandMapScene.DemandMap.HandleSelectChange | copy/client/src/scenes/demandmap/index.tsx:49-58 | a matching name shows that locality's position, name and load; a name not in the table changes nothing |
| DemandMapScene.DemandMap.CalculateTotalDemand | copy/client/src/scenes/demandmap/index.tsx:61-64 | the total popup shows `DemandMapScene.TotalDemandText`, the table's total followed by " MW" |
| DemandMapScene.DemandMap.ClearTotalDemand | copy/client/src/scenes/demandmap/index.tsx:136 | the total popup is hidden |

## Left out

- Rendering is not modelled: JSX, styling, the navigation bar, the map tiles, markers and polygon drawing, and the PDF export.
- Speech recognition and speech synthesis are not modelled. A recognised transcript reaches the model as an ordinary `HandleSubmit` text.
- The declaration file for the speech recognition API is not modelled, because it only declares types.
- Answer and warning texts are abstracted: each answer is a datatype value carrying the figures its template interpolates. The exact wording, `toFixed(2)` and `answer.trim()` are not modelled.
- Numbers are exact reals and unbounded integers. IEEE-754 rounding in the proportional shares is therefore not modelled, nor the `toFixed(2)` of the table. Under exact arithmetic the `Math.min` cap never binds while the demand fits.
- React's batching and its asynchronous state updates are not modelled. Each handler runs to completion on the state it reads.
- The demand map's latitude, longitude and region text fields are not modelled, and neither is the hard-coded popup position. Only the state the handlers set is modelled.
- Js.ParseInt: models radix 10 only. The "0x" hexadecimal prefix, which `parseInt` also accepts with no radix, is not modelled; no input of this code carries it.
- Js.TrimStart: models only the common white-space characters, not every Unicode space separator. Its contract states only that no white space is left at the start.
- Js.ToLowerCase: lowers the ASCII letters only; full Unicode case mapping is not modelled.
