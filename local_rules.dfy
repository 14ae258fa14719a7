/** `localReasoning` (extension/popup.js:580-616): the curated three-drug
    rule table that is the cascade's last resort and always answers. */
module LocalRules {
  import opened Wrappers
  import opened Json
  import opened Text
  import opened Reasoning

  /** Condition keywords of one drug, by tier. */
  datatype Profile = Profile(caution: seq<string>, danger: seq<string>)

  /** The table, looked up by the exact (trimmed, lower-cased) drug name. */
  const LocalDB: map<string, Profile> := map[
    "ibuprofen" := Profile(["asthma", "hypertension"], ["ulcer", "pregnancy"]),
    "acetaminophen" := Profile(["alcohol"], ["liver"]),
    "naproxen" := Profile(["hypertension"], ["ulcer", "pregnancy"])
  ]

  const SafeReason := "No major issues detected."
  const DangerReason := "May worsen existing condition. Avoid unless prescribed."
  const CautionReason := "Monitor or seek advice before use."

  /** `keywords.some((c) => conditions.includes(c))`. */
  function AnyContained(keywords: seq<string>, conditions: string): (b: bool)
    ensures b <==> exists k :: 0 <= k < |keywords| && Contains(conditions, keywords[k])
  {
    if |keywords| == 0 then false
    else Contains(conditions, keywords[0]) || AnyContained(keywords[1..], conditions)
  }

  /** Some danger keyword of a known drug occurs in the conditions. */
  predicate DangerMatch(drug: string, conditions: string) {
    drug in LocalDB && exists k :: 0 <= k < |LocalDB[drug].danger| && Contains(conditions, LocalDB[drug].danger[k])
  }

  /** Some caution keyword of a known drug occurs in the conditions. */
  predicate CautionMatch(drug: string, conditions: string) {
    drug in LocalDB && exists k :: 0 <= k < |LocalDB[drug].caution| && Contains(conditions, LocalDB[drug].caution[k])
  }

  /** The first `n` characters of `s` (`s.substring(0, n)`). */
  function Prefix(s: string, n: nat): (r: string)
    ensures |r| == (if |s| < n then |s| else n) && r == s[..|r|]
  {
    if |s| < n then s else s[..n]
  }

  /** The answer of the rule table, stated through the keyword matches: a
      danger keyword decides before a caution keyword, and the index and
      icon are the ones the normaliser gives the tier. */
  function LocalVerdict(drug: string, conditions: string, fdaSnippet: Option<string>): (r: Reasoning)
    ensures WellFormed(r)
  {
    var risk := if DangerMatch(drug, conditions) then "Danger"
                else if CautionMatch(drug, conditions) then "Caution" else "Safe";
    var base := if risk == "Danger" then DangerReason
                else if risk == "Caution" then CautionReason else SafeReason;
    var summary := if fdaSnippet.Some? && fdaSnippet.value != ""
                   then base + " FDA: " + Prefix(fdaSnippet.value, 100) + "..."
                   else base;
    Reasoning(risk, IconOf(TierOf(risk)), DefaultIndex(TierOf(risk)), JStr(summary), JStr(""), JStr(""), [])
  }

  /** `localReasoning(drug, conditions, fdaSnippet)`. */
  method LocalReasoning(drug: string, conditions: string, fdaSnippet: Option<string>) returns (r: Reasoning)
    ensures r == LocalVerdict(drug, conditions, fdaSnippet)
    // danger keywords win over caution keywords; anything else is safe
    ensures r.risk == "Danger" <==> DangerMatch(drug, conditions)
    ensures r.risk == "Caution" <==> !DangerMatch(drug, conditions) && CautionMatch(drug, conditions)
    ensures r.risk == "Safe" <==> !DangerMatch(drug, conditions) && !CautionMatch(drug, conditions)
    ensures drug !in LocalDB ==> r.risk == "Safe" && r.riskIndex == 0.9
    // fixed indices, consistent with the tier the normaliser reads off the risk
    ensures r.riskIndex == DefaultIndex(TierOf(r.risk))
    ensures WellFormed(r)
    // the summary is the tier's reason, followed by a short label excerpt when one exists
    ensures var base := if r.risk == "Danger" then DangerReason
                        else if r.risk == "Caution" then CautionReason else SafeReason;
            r.summary == JStr(if fdaSnippet.Some? && fdaSnippet.value != ""
                              then base + " FDA: " + Prefix(fdaSnippet.value, 100) + "..."
                              else base)
    ensures r.why == JStr("") && r.advice == JStr("") && r.signals == []
  {
    TierNamesClassify();
    var risk, icon, reason, ri := "Safe", SafeIcon, SafeReason, 0.9;
    if drug in LocalDB {
      var profile := LocalDB[drug];
      if AnyContained(profile.danger, conditions) {
        risk, icon, reason, ri := "Danger", DangerIcon, DangerReason, 0.2;
      } else if AnyContained(profile.caution, conditions) {
        risk, icon, reason, ri := "Caution", CautionIcon, CautionReason, 0.55;
      }
    }
    if fdaSnippet.Some? && fdaSnippet.value != "" {
      reason := reason + " FDA: " + Prefix(fdaSnippet.value, 100) + "...";
    }
    r := Reasoning(risk, icon, ri, JStr(reason), JStr(""), JStr(""), []);
  }

  /** Ibuprofen with an ulcer is dangerous even when asthma (a caution
      keyword) is listed too. */
  lemma IbuprofenUlcerWinsOverAsthma()
    ensures DangerMatch("ibuprofen", "ulcer, asthma")
    ensures CautionMatch("ibuprofen", "ulcer, asthma")
  {
    assert OccursAt("ulcer, asthma", "ulcer", 0);
    assert "ulcer, asthma"[7..13] == "asthma";
    assert OccursAt("ulcer, asthma", "asthma", 7);
    assert LocalDB["ibuprofen"].danger[0] == "ulcer" && Contains("ulcer, asthma", "ulcer");
    assert LocalDB["ibuprofen"].caution[0] == "asthma" && Contains("ulcer, asthma", "asthma");
  }

  /** Ibuprofen with asthma alone calls for caution. */
  lemma IbuprofenAsthmaIsCaution()
    ensures !DangerMatch("ibuprofen", "asthma") && CautionMatch("ibuprofen", "asthma")
  {
    assert OccursAt("asthma", "asthma", 0);
    assert "asthma"[0..5] == "asthm" && "asthma"[1..6] == "sthma";
    assert !Contains("asthma", "ulcer");
    assert !Contains("asthma", "pregnancy");
    assert LocalDB["ibuprofen"].caution[0] == "asthma" && Contains("asthma", "asthma");
  }

  /** Without conditions no keyword can match: every known drug is safe. */
  lemma NoConditionsIsSafe(drug: string)
    ensures !DangerMatch(drug, "") && !CautionMatch(drug, "")
  {
  }
}
