/** The canonical risk record and `normalizeReasoningV2`
    (extension/popup.js:469-493), which turns the JSON a language model
    returned into that record, plus `clamp01` (extension/popup.js:271-273). */
module Reasoning {
  import opened Wrappers
  import opened Json
  import opened Text

  /** The coarse risk tier read off a risk string. */
  datatype Tier = Safe | Caution | Danger

  /** The record every reasoning source produces. `risk` is kept exactly as
      the source gave it (after `String(...)`); the tier is derived from it.
      `summary`, `why`, `advice` and the signals keep the JSON values the
      model returned. */
  datatype Reasoning = Reasoning(
    risk: string,
    icon: string,
    riskIndex: real,
    summary: Json,
    why: Json,
    advice: Json,
    signals: seq<Json>)

  const DangerIcon := "\U{1F534}"
  const CautionIcon := "\U{1F7E0}"
  const SafeIcon := "\U{1F7E2}"

  /** `/danger/i` is tested before `/caution/i`; anything else is safe. */
  function TierOf(risk: string): Tier {
    if ContainsIgnoreCase(risk, "danger") then Danger
    else if ContainsIgnoreCase(risk, "caution") then Caution
    else Safe
  }

  function IconOf(t: Tier): string {
    match t
    case Danger => DangerIcon
    case Caution => CautionIcon
    case Safe => SafeIcon
  }

  /** The risk index used when the model gave no numeric `risk_index`. */
  function DefaultIndex(t: Tier): real {
    match t
    case Danger => 0.2
    case Caution => 0.55
    case Safe => 0.9
  }

  /** `Math.max(0, Math.min(100, x)) / 100`. */
  function PercentToIndex(x: real): (r: real)
    ensures 0.0 <= r <= 1.0
    ensures 0.0 <= x <= 100.0 ==> r * 100.0 == x
    ensures x <= 0.0 ==> r == 0.0
    ensures x >= 100.0 ==> r == 1.0
  {
    (if x < 0.0 then 0.0 else if x > 100.0 then 100.0 else x) / 100.0
  }

  /** `String(parsed.risk || "Safe")`. */
  function RiskString(parsed: Json): string {
    ToJsString(Or(Get(parsed, "risk"), JStr("Safe")))
  }

  /** The first (at most) six entries of an array, `[]` for anything else. */
  function Signals(v: Option<Json>): seq<Json> {
    if v.Some? && v.value.JArr? then
      (if |v.value.items| <= 6 then v.value.items else v.value.items[..6])
    else []
  }

  /** `normalizeReasoningV2(parsed)`. */
  function NormalizeReasoning(parsed: Json): (r: Reasoning)
    // the risk text is kept as given; a missing or falsy risk reads "Safe"
    ensures TruthyOpt(Get(parsed, "risk")) ==> r.risk == ToJsString(Get(parsed, "risk").value)
    ensures !TruthyOpt(Get(parsed, "risk")) ==> r.risk == "Safe"
    ensures TruthyOpt(Get(parsed, "risk")) && Get(parsed, "risk").value.JStr? ==>
              r.risk == Get(parsed, "risk").value.s
    // icon and index follow the tier of the kept risk text
    ensures r.icon == IconOf(TierOf(r.risk))
    ensures Get(parsed, "risk_index").Some? && Get(parsed, "risk_index").value.JNum? ==>
              r.riskIndex == PercentToIndex(Get(parsed, "risk_index").value.value)
              && 0.0 <= r.riskIndex <= 1.0
              && (0.0 <= Get(parsed, "risk_index").value.value <= 100.0 ==>
                    r.riskIndex * 100.0 == Get(parsed, "risk_index").value.value)
    ensures !(Get(parsed, "risk_index").Some? && Get(parsed, "risk_index").value.JNum?) ==>
              r.riskIndex == DefaultIndex(TierOf(r.risk))
    // summary falls back to reason, then to a fixed headline
    ensures TruthyOpt(Get(parsed, "summary")) ==> r.summary == Get(parsed, "summary").value
    ensures !TruthyOpt(Get(parsed, "summary")) && TruthyOpt(Get(parsed, "reason")) ==>
              r.summary == Get(parsed, "reason").value
    ensures !TruthyOpt(Get(parsed, "summary")) && !TruthyOpt(Get(parsed, "reason")) ==>
              r.summary == JStr("No summary provided.")
    // why falls back to reason, then to ""; advice to ""
    ensures TruthyOpt(Get(parsed, "why")) ==> r.why == Get(parsed, "why").value
    ensures !TruthyOpt(Get(parsed, "why")) && TruthyOpt(Get(parsed, "reason")) ==>
              r.why == Get(parsed, "reason").value
    ensures !TruthyOpt(Get(parsed, "why")) && !TruthyOpt(Get(parsed, "reason")) ==> r.why == JStr("")
    ensures r.advice == (if TruthyOpt(Get(parsed, "advice")) then Get(parsed, "advice").value else JStr(""))
    // signals: at most six, a prefix of the given array, [] for a non-array
    ensures |r.signals| <= 6
    ensures Get(parsed, "signals").Some? && Get(parsed, "signals").value.JArr? ==>
              |r.signals| == (if |Get(parsed, "signals").value.items| < 6
                              then |Get(parsed, "signals").value.items| else 6)
              && r.signals == Get(parsed, "signals").value.items[..|r.signals|]
    ensures !(Get(parsed, "signals").Some? && Get(parsed, "signals").value.JArr?) ==> r.signals == []
  {
    var risk := RiskString(parsed);
    var tier := TierOf(risk);
    var ri := Get(parsed, "risk_index");
    Reasoning(
      risk,
      IconOf(tier),
      if ri.Some? && ri.value.JNum? then PercentToIndex(ri.value.value) else DefaultIndex(tier),
      Or(Get(parsed, "summary"), Or(Get(parsed, "reason"), JStr("No summary provided."))),
      Or(Get(parsed, "why"), Or(Get(parsed, "reason"), JStr(""))),
      Or(Get(parsed, "advice"), JStr("")),
      Signals(Get(parsed, "signals")))
  }

  /** A record is well-formed when its index lies in [0, 1], its icon
      matches its risk text and it has at most six signals. */
  predicate WellFormed(r: Reasoning) {
    && 0.0 <= r.riskIndex <= 1.0
    && r.icon == IconOf(TierOf(r.risk))
    && |r.signals| <= 6
  }

  /** Every normalised record is well-formed, whatever the model returned. */
  lemma NormalizedIsWellFormed(parsed: Json)
    ensures WellFormed(NormalizeReasoning(parsed))
  {
    var t := TierOf(NormalizeReasoning(parsed).risk);
    assert 0.0 <= DefaultIndex(t) <= 1.0;
  }

  /** A raw score above 100 is clamped to the top of the scale. */
  lemma OversizedScoreClamps(parsed: Json)
    requires Get(parsed, "risk_index") == Some(JNum(150.0, "150"))
    ensures NormalizeReasoning(parsed).riskIndex == 1.0
  {
  }

  /** The number handed to `clamp01`: JavaScript's `Number.isFinite` guard
      sends NaN, the infinities and non-numbers to 0. */
  datatype JsNumber = Finite(v: real) | NotFinite

  /** `clamp01(x)`. */
  function Clamp01(x: JsNumber): (r: real)
    ensures 0.0 <= r <= 1.0
    ensures x.NotFinite? ==> r == 0.0
    ensures x.Finite? && 0.0 <= x.v <= 1.0 ==> r == x.v
    ensures x.Finite? && x.v < 0.0 ==> r == 0.0
    ensures x.Finite? && x.v > 1.0 ==> r == 1.0
  {
    var y := if x.Finite? then x.v else 0.0;
    if y < 0.0 then 0.0 else if y > 1.0 then 1.0 else y
  }

  /** The clamp applied before rendering changes nothing on a well-formed
      record: the bar shows exactly `riskIndex * 100` percent. */
  lemma ClampKeepsWellFormedIndex(r: Reasoning)
    requires WellFormed(r)
    ensures Clamp01(Finite(r.riskIndex)) == r.riskIndex
  {
  }

  /** The tier names the local rules and the prompt use classify as
      themselves, in any letter case the model might return. */
  lemma {:induction false} TierNamesClassify()
    ensures TierOf("Danger") == Danger && TierOf("DANGER") == Danger
    ensures TierOf("Caution") == Caution && TierOf("caution") == Caution
    ensures TierOf("Safe") == Safe
  {
    assert LowerAscii("Danger") == "danger";
    assert OccursAt(LowerAscii("Danger"), "danger", 0);
    assert LowerAscii("DANGER") == "danger";
    assert OccursAt(LowerAscii("DANGER"), "danger", 0);
    assert LowerAscii("Caution") == "caution";
    assert OccursAt(LowerAscii("Caution"), "caution", 0);
    assert OccursAt(LowerAscii("caution"), "caution", 0);
    assert !ContainsIgnoreCase("Safe", "danger");
    assert "caution"[0..6] == "cautio" && "caution"[1..7] == "aution";
    assert LowerAscii("caution") == "caution";
    assert !ContainsIgnoreCase("Caution", "danger");
    assert !ContainsIgnoreCase("caution", "danger");
    assert !ContainsIgnoreCase("Safe", "caution");
  }
}
