# MediGuard popup — a verified model of the risk cascade

MediGuard is a browser extension that tells a patient whether a medicine is
safe for them. It reads the drug name and the patient's conditions, fetches
the drug's label, and asks three sources for a verdict in turn: the
browser's on-device language model, a cloud model (only with an API key),
and a curated local rule table. The first source that answers wins. Its
answer is normalised into a record with a risk text, an icon, a risk index
in [0, 1], a summary, a reason, advice and up to six signals. That record
is rendered in three switchable views: original, simplified and translated.

This project models the logic of `extension/popup.js` in Dafny and proves
what it promises:

- `Json`, `Text`: JSON values and the JavaScript string operations the
  popup uses (`trim`, `toLowerCase`, `includes`, `replaceAll`, `join`,
  `\s+` collapsing).
- `Lines`: the two newline operations, `replace(/\n{2,}/g, "\n")` and
  `split(/\n+/)`, with the law that joining the pieces with single
  newlines gives the collapsed text.
- `Extract`: `safeJsonIn`. The parser is a parameter.
- `Reasoning`: `normalizeReasoningV2` and `clamp01`.
- `LocalRules`: `localReasoning`, the three-drug rule table.
- `Label`: `fetchOpenFDAFull`. This covers the `firstOk` loop over query
  attempts and the snippet assembled from the fixed field list.
- `Cascade`: input normalisation, `cleanUserInput`, the two model adapters
  and the on-device → cloud → local cascade.
- `Presentation`: the view state as values (`switchView`, the
  simplify/translate updates, the reset after an analysis).
- `Popup`: the page's module-level variables as a class. Its handlers
  `AnalyzeDrug`, `SimplifyText`, `TranslateText` and `SwitchView` are proved
  against the `Presentation` and `Cascade` functions.
- `Html`: `escapeHtml` and `cleanFDAText`.
- `Availability`: `normalizeAvailability`.
- `Photo`: the name picked from the photo model's answer.

Every call to the outside world is an input. The on-device and cloud
replies, the label lookups, the proofreader and `JSON.parse` are values of
`Option` type, where `None` means the call threw or returned nothing.

Behaviour of the code that the model keeps as written:

- `risk` is not coerced to Safe/Caution/Danger. It is the string
  `String(parsed.risk || "Safe")`, and the tier is derived from it by a
  case-insensitive substring test. A risk of `"Danger?"` is a danger
  tier. A truthy non-string risk such as `[]` prints as `""` and is
  therefore treated as safe.
- JSON extraction is a greedy match from the first `{` to the last `}`:
  `{a} x {b}` yields the whole span, which the parser then rejects.
- The label snippet falls back to `description[0]` as a raw value. When
  that value is not a string (a number, say), the on-device prompt cannot
  be built for it (unless it is an array), and `localReasoning` or
  `cleanFDAText` throws on it, so `analyzeDrug` stops before it stores a
  report or resets the views. The model returns `None` for that path.

## Model

| member | source | states |
|---|---|---|
| Extract.JsonCandidate | extension/popup.js:275-277 | The candidate is absent exactly when no `{` has a `}` after it; otherwise it is the span from the first `{` to the last `}`, both included |
| Extract.SafeJsonIn | extension/popup.js:275-283 | `null` exactly when there is no candidate or the parser rejects it; otherwise the parse of the extracted candidate |
| Extract.CandidateIgnoresSurroundings | extension/popup.js:276 | Brace-free text before the first `{` or after the last `}` does not change the candidate |
| Reasoning.NormalizeReasoning | extension/popup.js:469-493 | Risk text kept as given, or "Safe" when falsy. The icon follows the tier of the risk text. A numeric `risk_index` gives the clamped score over 100 (exactly index/100 inside 0..100, 0 below, 1 above); otherwise the index is the tier default 0.2/0.55/0.9. Summary falls back to reason, then "No summary provided.". Why falls back to reason, then "". Advice falls back to "". Signals are the first min(n,6) entries of an array, `[]` for a non-array |
| Reasoning.PercentToIndex | extension/popup.js:477-478 | The clamped score divided by 100 lies in [0,1]; scores in 0..100 are kept exactly, below 0 give 0, above 100 give 1 |
| Reasoning.NormalizedIsWellFormed | extension/popup.js:469-493 | Whatever the model returned, the normalised record has an index in [0,1], the icon of its tier and at most six signals |
| Reasoning.OversizedScoreClamps | extension/popup.js:478 | A `risk_index` of 150 becomes 1.0 |
| Reasoning.Clamp01 | extension/popup.js:271-273 | The result is in [0,1]; a non-finite input gives 0; finite inputs are clamped |
| Reasoning.ClampKeepsWellFormedIndex | extension/popup.js:376 | The clamp before rendering is the identity on a well-formed record's index |
| Reasoning.TierNamesClassify | extension/popup.js:471-475 | "Danger"/"DANGER" read as danger, "Caution"/"caution" as caution, "Safe" as safe |
| LocalRules.AnyContained | extension/popup.js:593 | `keywords.some(c => conditions.includes(c))` holds exactly when some keyword occurs in the conditions |
| LocalRules.LocalVerdict | extension/popup.js:580-616 | The local rules' record as a value, which `LocalReasoning` is proved equal to; its own contract states that it is well-formed (index in [0,1], the icon of its tier, at most six signals) |
| LocalRules.LocalReasoning | extension/popup.js:580-616 | Equals `LocalVerdict`. Danger exactly when a danger keyword of a known drug occurs in the conditions. Caution exactly when none does and a caution keyword does. Safe otherwise, including for an unknown drug (index 0.9). Why, advice and signals are empty |
| LocalRules.IbuprofenUlcerWinsOverAsthma | extension/popup.js:593-602 | For ibuprofen with "ulcer, asthma", both a danger and a caution keyword match, so danger is chosen |
| LocalRules.IbuprofenAsthmaIsCaution | extension/popup.js:593-602 | For ibuprofen with asthma alone, caution is chosen and danger is not |
| LocalRules.NoConditionsIsSafe | extension/popup.js:593-602 | With no conditions, no keyword matches |
| Label.FirstOk | extension/popup.js:543-555 | Returns the first truthy row and makes no attempt after it; returns null exactly when no attempt yields a row, and then every attempt was made |
| Label.DescriptionFallback | extension/popup.js:575 | The description fallback, kept as a raw value: the first entry of a description array when truthy, the first character of a non-empty description string, null when there is no description |
| Label.SnippetOf | extension/popup.js:560-576 | The trimmed blank-line join of the present fields' lines when any field is present, otherwise the description fallback; a snippet is always truthy |
| Label.AssembleSnippet | extension/popup.js:560-576 | The field loop followed by the join computes exactly `SnippetOf(row)` |
| Label.FirstTruthy | extension/popup.js:543-555 | The index of the first attempt that yields a truthy row: every earlier attempt failed, and it is the number of attempts when all failed |
| Label.FetchLabel | extension/popup.js:534-577 | The snippet is null when no attempt yields a row, and otherwise the assembled snippet of the first row found; exactly the attempts up to that row are consulted |
| Label.NoPartsIffNoField | extension/popup.js:571-574 | No line is collected exactly when no listed field is present |
| Label.FieldLabelHasNoUnderscore | extension/popup.js:573 | The relabelled field name has no `_` left |
| Label.SnippetTextNotBlank | extension/popup.js:575 | When a field is present, the joined, trimmed text is non-empty, so the description fallback is not reached |
| Label.TwoFieldsInOrder | extension/popup.js:571-574 | With exactly two present fields, the lines are exactly those two, in field-list order |
| Cascade.NormalizeField | extension/popup.js:289-290 | The normalised field is the input with its surrounding white space removed and lower-cased; it is empty exactly when the input is all white space (the guard at line 291) |
| Cascade.NormalizeFieldIdempotent | extension/popup.js:289-290 | Normalising twice equals normalising once |
| Cascade.LowerThenTrim | extension/popup.js:654 | Lower-casing then trimming equals trimming then lower-casing |
| Cascade.CleanUserInput | extension/popup.js:38-48 | The proofreader's trimmed non-blank answer replaces the input; no answer, a throw, or a blank answer keeps the input; a non-empty input stays non-empty |
| Cascade.Adapter | extension/popup.js:348-351 | A reply yields a record exactly when its candidate parses to a value with truthy `risk` that `String()` can print (printing an object with its own `toString` key, or an array holding one, throws inside the stage's `try`); the record is that value normalised, and well-formed |
| Cascade.MalformedReplyFails | extension/popup.js:275-277 | A reply with no brace pair never yields a record, whatever the parser |
| Cascade.SnippetText | extension/popup.js:372 | The snippet is read as text exactly when it is a string, and then it is that string |
| Cascade.CascadeResult | extension/popup.js:325-373 | The first source that answers decides: on-device, then cloud, then the local rules; there is no result exactly when neither model answered and the snippet is not a string, so the local rules throw |
| Cascade.AskModels | extension/popup.js:328-368 | The on-device model is prompted exactly when a session exists and the prompt can be built; the cloud model is asked exactly when on-device gave nothing and a key exists; the answer is the first success |
| Cascade.RunCascade | extension/popup.js:312-373 | The label lookup runs only in hybrid mode and gives `LabelSnippet`, after consulting the attempts up to and including the first truthy row (all of them when none is). On-device is asked exactly when a session exists and the prompt can be built. Cloud is asked exactly when on-device failed and a key exists. Local rules run exactly when both failed, and their tier laws then hold. The result is `CascadeResult` and always well-formed |
| Cascade.NumericDescriptionAborts | extension/popup.js:346 | A label whose only text is the numeric description entry 5 gives the raw number as snippet; building the on-device prompt throws on it, so the prompt is not sent and, without a key, the analysis throws |
| Cascade.StringDescriptionSnippet | extension/popup.js:575 | A label whose only text is the description "Take with food" gives that string as snippet |
| Cascade.DescriptionOnly | extension/popup.js:560-575 | A row with only a description falls back to it |
| Cascade.OfflineIsLocal | extension/popup.js:371-373 | Without a session and a key, the local rules decide over the snippet text |
| Lines.CollapseNewlines | extension/popup.js:453 | No two newlines in a row remain, the first character is kept, and the text does not grow |
| Lines.CollapseNewlinesKeepsSingle | extension/popup.js:453 | Text with no doubled newline is unchanged |
| Lines.CollapseNewlinesAppend | extension/popup.js:453 | Collapsing distributes over a concatenation whose second part does not start with a newline |
| Lines.SplitLines | extension/popup.js:704 | Joining the pieces with single newlines gives back the text with its newline runs collapsed; no piece contains a newline, and a text without newlines is one piece |
| Lines.SplitAtNewline | extension/popup.js:704 | A newline-free piece followed by a newline is split off whole, and the rest is split after the newline run |
| Presentation.TextFor | extension/popup.js:877-881 | Original shows the original text. Simplified shows the simplified text, else the original. Translated shows the translated text, else the simplified, else the original |
| Presentation.AfterAnalysis | extension/popup.js:462-465 | The new state holds the plain original, no simplified or translated text, the original view, and shows the plain original |
| Presentation.SimplifyPost | extension/popup.js:703-708 | The simplified text has single plain spaces, no white space at the ends and no newline; a one-line answer is just whitespace-collapsed and trimmed |
| Presentation.SimplifyKeepsThreeLines | extension/popup.js:703-708 | An answer with more than three lines becomes its first three lines joined by spaces, whitespace-collapsed and trimmed; the rest is dropped |
| Presentation.SimplifyExactlyThreeLines | extension/popup.js:703-708 | An answer of exactly three lines becomes all three joined by spaces, whitespace-collapsed and trimmed |
| Presentation.SimplifyTwoLines | extension/popup.js:703-708 | An answer of two lines becomes both joined by a space, whitespace-collapsed and trimmed |
| Presentation.AfterSimplify | extension/popup.js:687-713 | Without visible text, a session or an answer, the state is unchanged; otherwise the post-processed answer is stored, the original is kept or filled with the page text, and the simplified view is shown |
| Presentation.TranslationOf | extension/popup.js:746 | The trimmed answer, or the trimmed page text when the answer is empty |
| Presentation.AfterTranslate | extension/popup.js:732-753 | For "en", without visible text, a session or an answer, the state is unchanged; otherwise the translation is stored, empty simplified and original texts are filled with the page text, and the translated view is shown |
| Presentation.ShownNeverEmpty | extension/popup.js:877-881 | With an original text, no view shows an empty text |
| Presentation.OriginalSurvives | extension/popup.js:710-750 | Simplify and translate never overwrite a non-empty original; a failed request changes nothing |
| Presentation.EnglishIsNoop | extension/popup.js:741 | Translating to "en" leaves the state unchanged |
| Presentation.AnalysisDoesNotLeak | extension/popup.js:462-465 | After an analysis, simplified and translated are empty, the original view is selected and shows the new text, whatever the state before |
| Presentation.OriginalRoundTrip | extension/popup.js:868-881 | Analyse, simplify, translate, then switch back to original: the original text is shown unchanged |
| Presentation.TranslationShown | extension/popup.js:746-752 | A successful translation selects the translated view and shows the trimmed answer; a blank answer falls back to the simplified text |
| Popup.PlainOriginal | extension/popup.js:451-454 | The plain original text starts with "Summary: ", has no white space at either end and no doubled newline |
| Popup.PlainOriginalOfOneLineFields | extension/popup.js:451-454 | With one-line fields and a trimmed, non-empty advice, the plain original is exactly "Summary: s\nWhy: w\nAdvice: a" |
| Popup.ReportSummary | extension/popup.js:441 | The report summary has no white space at either end |
| Popup.ReportSummaryAlone | extension/popup.js:441 | With no why and no advice, the report summary is the trimmed summary |
| Popup.ReportSummaryAllParts | extension/popup.js:441 | With all three parts present as trimmed text, the report summary is the summary, " — ", the why, two spaces, a bar, a space and the advice |
| Popup.ReportSnippet | extension/popup.js:442 | A non-empty snippet is kept; otherwise "No FDA data." in hybrid mode and "Offline." outside it; never empty |
| Popup.Page.SwitchView | extension/popup.js:868-912 | The new state is the old state switched to the view; the report is untouched |
| Popup.Analyze | extension/popup.js:292-443 | No result exactly when the snippet is not a string (the analysis throws). Otherwise the record is the cascade's result over the proofread drug and conditions, and the report holds exactly the proofread drug, age, gender, proofread conditions, mode, risk, report summary and report snippet |
| Popup.Page.AnalyzeDrug | extension/popup.js:285-466 | A result exactly when the normalised drug is non-empty and the snippet is a string; otherwise views and report are unchanged. With a result, it is the cascade's result, the view state is the reset around the plain original, and the report is stated in full with trimmed age and gender |
| Popup.Page.ShowAnalysis | extension/popup.js:433-465 | The report is stored, and the view state becomes the reset after an analysis around the plain original text |
| Popup.Page.SimplifyText | extension/popup.js:678-728 | The new view state is `AfterSimplify` of the old one. The report is untouched |
| Popup.Page.StoreSimplification | extension/popup.js:710-713 | Stores the simplified text, fills an empty original with the page text, switches to the simplified view, leaves the report alone |
| Popup.Page.TranslateText | extension/popup.js:730-768 | The new view state is `AfterTranslate` of the old one. The report is untouched |
| Popup.Page.StoreTranslation | extension/popup.js:748-753 | Stores the translation, fills an empty simplified or original text with the page text, switches to the translated view, leaves the report alone |
| Popup.TwoAnalysesDoNotLeak | extension/popup.js:462-465 | After a second analysis, whatever the first and the requests after it left, no simplified or translated text remains and the original is shown |
| Html.EscapeHtml | extension/popup.js:915-922 | A falsy value prints as ""; the output has no raw `<`, `>`, `"` or `'`, and every `&` starts one of the five entities |
| Html.EscapeChainIsOnePass | extension/popup.js:916-921 | The five chained replacements, `&` first, equal escaping each character on its own |
| Html.OnePassIsSafe | extension/popup.js:915-922 | Escaped text has no markup character and no bare `&` |
| Html.PlainTextUnchanged | extension/popup.js:915-922 | Text without special characters passes through unchanged |
| Html.StripFences | extension/popup.js:25 | Text without a backtick is unchanged, and the text never grows |
| Html.StripJsonFence | extension/popup.js:25 | A backtick-free body between "```json" and "```" comes out as the body alone |
| Html.StripFencesAfterPlain | extension/popup.js:25 | Backtick-free text in front is kept as it is, and the text after it is stripped on its own |
| Html.StripJsonFenceAt | extension/popup.js:25 | A "```json" fence after backtick-free text is dropped wherever it stands |
| Html.StripPlainFenceAt | extension/popup.js:25 | A "```" fence not followed by `json`, after backtick-free text, is dropped wherever it stands |
| Html.OneBacktickKept | extension/popup.js:25 | A lone backtick before another character is kept |
| Html.TwoBackticksKept | extension/popup.js:25 | Two backticks before another character are kept |
| Html.InsertPeriods | extension/popup.js:27 | After the pass, no lower-case letter runs into a capital; the spacing stays plain |
| Html.InsertPeriodsKeepsSeparated | extension/popup.js:27 | Text in which no lower-case letter meets a capital is unchanged |
| Html.InsertPeriodsAtSeam | extension/popup.js:27 | Where a lower-case letter meets a capital, and nowhere else, ". " is inserted |
| Html.SpaceAfterStops | extension/popup.js:28 | After the pass, no `.` or `,` is directly followed by a letter; earlier guarantees are kept |
| Html.SpaceAfterStopsKeepsSpaced | extension/popup.js:28 | Text in which no stop meets a letter is unchanged |
| Html.SpaceAfterStopsAtSeam | extension/popup.js:28 | Where a stop meets a letter, and nowhere else, a space is inserted |
| Html.CleanFdaText | extension/popup.js:22-30 | Empty or missing text gives "". The result is trimmed and has single plain spaces, a space after every stop before a letter, and no lower-to-capital run |
| Html.CleanTextKept | extension/popup.js:22-30 | Text that is already clean and has no backtick comes out unchanged |
| Html.CleanFencedBody | extension/popup.js:22-30 | A clean body inside a JSON fence comes out as the body: only the fence markers are removed |
| Availability.NormalizeAvailability | extension/popup.js:103-114 | String form: "unavailable" and "downloadable" map to unavailable and downloading, anything else to available. Object form: `available` "no" and "after-download" map the same way. The "no" answer carries its reason, and only it does |
| Photo.FirstCandidate | extension/popup.js:658 | The first entry of a candidates array, the first character of a candidates string, nothing for a missing, falsy, boolean or numeric value |
| Photo.LowerName | extension/popup.js:654 | A falsy value gives ""; a string gives its normalised form; any other truthy value throws |
| Photo.BestName | extension/popup.js:655-661 | Generic, else brand, else first candidate, evaluated lazily. A generic name that throws on lower-casing fails the detection; one with visible text is the name found. A detected name is non-empty, trimmed and lower-case. No name exactly when all three are blank |
| Photo.GenericWins | extension/popup.js:655-657 | A generic name with visible text is chosen whatever the other fields hold |
| Photo.DetectedIsNormal | extension/popup.js:654-661 | The detected name is already in the form the analysis normalises the drug field to |

## Left out

- Network, model and browser I/O are inputs. This covers `fetch`, the
  Gemini endpoints, `LanguageModel.create`/`prompt`, the proofreader,
  `chrome.storage` and the photo upload. Each call's outcome is passed
  in, and `None` stands for a throw or an empty answer. The prompts' text
  is not modelled; only whether the on-device prompt can be built is.
- `JSON.parse` is an uninterpreted function parameter. Only the
  substring selection and the use of the parsed value are modelled.
- Regular expressions are modelled as the specific left-to-right scans
  they perform, not as a regex engine.
- `toLowerCase` is ASCII lower-casing. Non-ASCII case mapping is not
  modelled.
- String lengths count characters, not UTF-16 code units. This affects
  the 100-character label excerpt for astral characters.
- Numbers parsed from JSON are exact reals with their printed form
  supplied by the parser. NaN cannot come out of `JSON.parse`, so the NaN
  pass-through of `Math.max`/`Math.min` does not arise. A literal beyond
  the double range, such as `1e400`, parses to an infinity in JavaScript;
  the model holds it as a large real instead. The clamp gives 1 for both,
  so the index agrees. `Number.isFinite` is a constructor of `JsNumber`.
- DOM rendering is not modelled. This covers `updateBadge`,
  `setRiskGlow`, the structured HTML block, the subtitle and guidance
  lines, the 350-character label preview, the view-toggle buttons and
  the fade timeout.
- Speech synthesis, report download, `FileReader`/base64 and the report
  timestamp (`toLocaleString`) are left out; the report keeps its other
  fields.
- Concurrency is not modelled: each handler runs to completion, in
  sequence.
- The local table is a three-entry map. A drug named like an
  Object-prototype key, such as "constructor", resolves through the
  prototype in JavaScript. That path is not modelled.
- `Cascade.RunCascade`'s `Trace` result and `Label.FirstOk`'s
  `consulted` count are modelling devices. They record which sources
  were asked, so the ordering can be stated.
- Label.FetchLabel: a throw outside the per-attempt `try` is not
  modelled; every failure is per attempt.
- SimplifyPost: its own contract gives the shape of the result for every
  answer and its content for one-line answers. The content for two-line,
  three-line and longer answers is stated by `SimplifyTwoLines`,
  `SimplifyExactlyThreeLines` and `SimplifyKeepsThreeLines`, for answers
  whose lines after the first are non-empty; a run of newlines counts as
  one line break, as `Lines.SplitLines` states.
- StripFences: its own contract gives the length bound and leaves
  backtick-free text unchanged; its content is stated by
  `StripFencesAfterPlain`, `StripJsonFenceAt`, `StripPlainFenceAt`,
  `OneBacktickKept`, `TwoBackticksKept` and `StripJsonFence`, one fence
  or backtick run at a time.
- InsertPeriods: its own contract gives the shape of the result; its
  content is stated by `InsertPeriodsKeepsSeparated` and
  `InsertPeriodsAtSeam`, for one seam at a time.
- SpaceAfterStops: its own contract gives the shape of the result; its
  content is stated by `SpaceAfterStopsKeepsSpaced` and
  `SpaceAfterStopsAtSeam`, for one seam at a time.
- CleanFdaText: its own contract gives the shape of the result; its
  content is stated by `CleanTextKept` and `CleanFencedBody`, for text
  that is already clean apart from a fence.
- ReportSummary: its own contract says only that the text is trimmed;
  its content is stated by `ReportSummaryAlone` and
  `ReportSummaryAllParts`.
- PlainOriginal: its own contract gives the prefix and the newline and
  trimming guarantees; the full text is stated by
  `PlainOriginalOfOneLineFields`, for one-line fields.
- Json.ToJsString: prints an object as "[object Object]". In JavaScript,
  `String()` and template literals throw on an object with its own
  `toString` key, and on an array holding one. The model keeps this throw
  only for the model reply's `risk` (`Cascade.Adapter`, where the stage's
  `try` catches it). It is not modelled where nothing catches it: the
  rendering of summary, why, advice and signals (popup.js:397-405), the
  report summary (popup.js:441) and the plain original text
  (popup.js:451-454), where the analysis would abort; nor in the label
  lines (popup.js:573), where the label lookup's `try` would leave the
  snippet empty.
- The extension's content, background and options scripts are not part of
  this model. They handle button injection, window creation and key
  storage.
