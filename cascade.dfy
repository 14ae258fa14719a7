/** The reasoning cascade of `analyzeDrug` (extension/popup.js:285-373):
    input clean-up, the optional label lookup, then on-device model, cloud
    model and local rules in strict first-success order. Every external call
    is a parameter holding what it returned. */
module Cascade {
  import opened Wrappers
  import opened Json
  import opened Text
  import opened Extract
  import opened Reasoning
  import opened LocalRules
  import opened Label

  /** What the outside world answers during one analysis. */
  datatype Sources = Sources(
    session: bool,                      // an on-device model session exists
    onDeviceReply: Option<string>,      // the on-device reply; None when prompting threw
    cloudReply: Option<string>,         // the cloud reply text; None when the request threw
    labelAttempts: seq<Option<Json>>,   // the label query attempts, in order
    parse: string -> Option<Json>)      // JSON.parse; None where it throws

  /** Which external sources one analysis consulted. */
  datatype Trace = Trace(
    labelAttempts: nat,
    askedOnDevice: bool,
    askedCloud: bool,
    usedLocal: bool)

  /** `(value || "").trim().toLowerCase()`. */
  function NormalizeField(raw: string): (r: string)
    ensures |r| <= |raw| && Trimmed(r)
    ensures forall k :: 0 <= k < |r| ==> !('A' <= r[k] <= 'Z')
    ensures r == "" <==> AllSpace(raw)
    ensures exists i, j :: 0 <= i <= j <= |raw| && AllSpace(raw[..i]) && AllSpace(raw[j..])
                           && r == LowerAscii(raw[i..j])
  {
    var t := Trim(raw);
    var r := LowerAscii(t);
    LowerKeepsTrimmed(t);
    TrimBlankIffAllSpace(raw);
    TrimmedSpan(raw);
    r
  }

  /** The trimmed text is a span of the input with white space around it. */
  lemma TrimmedSpan(raw: string)
    ensures exists i, j :: 0 <= i <= j <= |raw| && AllSpace(raw[..i]) && AllSpace(raw[j..])
                           && LowerAscii(Trim(raw)) == LowerAscii(raw[i..j])
  {
    var i, j :| 0 <= i <= j <= |raw| && Trim(raw) == raw[i..j] && AllSpace(raw[..i]) && AllSpace(raw[j..]);
  }

  lemma LowerCharKeepsSpace(c: char)
    ensures IsJsSpace(LowerChar(c)) == IsJsSpace(c)
  {
    if 'A' <= c <= 'Z' {
      assert 'a' <= LowerChar(c) <= 'z';
    }
  }

  lemma LowerKeepsTrimmed(t: string)
    requires Trimmed(t)
    ensures Trimmed(LowerAscii(t))
  {
    if |t| > 0 {
      LowerCharKeepsSpace(t[0]);
      LowerCharKeepsSpace(t[|t| - 1]);
    }
  }

  lemma {:induction false} LowerFirstVisible(s: string, i: nat)
    requires i <= |s|
    ensures FirstVisible(LowerAscii(s), i) == FirstVisible(s, i)
    decreases |s| - i
  {
    if i < |s| {
      LowerCharKeepsSpace(s[i]);
      if IsJsSpace(s[i]) {
        LowerFirstVisible(s, i + 1);
      }
    }
  }

  lemma {:induction false} LowerVisibleEnd(s: string, i: nat, j: nat)
    requires i <= j <= |s|
    ensures VisibleEnd(LowerAscii(s), i, j) == VisibleEnd(s, i, j)
    decreases j
  {
    if j > i {
      LowerCharKeepsSpace(s[j - 1]);
      if IsJsSpace(s[j - 1]) {
        LowerVisibleEnd(s, i, j - 1);
      }
    }
  }

  /** Lower-casing and trimming commute: `s.toLowerCase().trim()`, as the
      photo handler writes it, is the normalised field. */
  lemma LowerThenTrim(s: string)
    ensures Trim(LowerAscii(s)) == NormalizeField(s)
  {
    var t := LowerAscii(s);
    var i := FirstVisible(s, 0);
    LowerFirstVisible(s, 0);
    var j := VisibleEnd(s, i, |s|);
    LowerVisibleEnd(s, i, |s|);
    assert Trim(t) == t[i..j];
    assert Trim(s) == s[i..j];
    LowerSlice(s, i, j);
  }

  /** Lower-casing commutes with slicing. */
  lemma LowerSlice(s: string, i: nat, j: nat)
    requires i <= j <= |s|
    ensures LowerAscii(s)[i..j] == LowerAscii(s[i..j])
  {
    var a, b := LowerAscii(s)[i..j], LowerAscii(s[i..j]);
    forall k | 0 <= k < j - i ensures a[k] == b[k] { }
  }

  /** Normalising twice changes nothing. */
  lemma NormalizeFieldIdempotent(raw: string)
    ensures NormalizeField(NormalizeField(raw)) == NormalizeField(raw)
  {
    var n := NormalizeField(raw);
    TrimOfTrimmed(n);
    LowerOfLower(n);
  }

  /** `cleanUserInput(input)`: the proofreader's trimmed answer, or the
      input itself when there is no proofreader, it threw or it answered
      only white space. */
  function CleanUserInput(input: string, reply: Option<string>): (r: string)
    ensures reply.Some? && Trim(reply.value) != "" ==> r == Trim(reply.value)
    ensures reply.None? || Trim(reply.value) == "" ==> r == input
    ensures input != "" ==> r != ""
  {
    if reply.Some? && Trim(reply.value) != "" then Trim(reply.value) else input
  }

  /** One model adapter: extract the JSON candidate of the reply, parse it
      and accept it only when its `risk` is truthy. When printing that risk
      throws, the normalization throws inside the stage's `try`, so the
      stage yields nothing as well. */
  function Adapter(reply: Option<string>, parse: string -> Option<Json>): (r: Option<Reasoning>)
    ensures r.Some? <==> reply.Some? && SafeJsonIn(reply.value, parse).Some?
                         && TruthyOpt(Get(SafeJsonIn(reply.value, parse).value, "risk"))
                         && !PrintThrows(Get(SafeJsonIn(reply.value, parse).value, "risk").value)
    ensures r.Some? ==> r.value == NormalizeReasoning(SafeJsonIn(reply.value, parse).value)
    ensures r.Some? ==> WellFormed(r.value)
  {
    if reply.None? then None
    else
      var parsed := SafeJsonIn(reply.value, parse);
      if parsed.Some? && TruthyOpt(Get(parsed.value, "risk"))
         && !PrintThrows(Get(parsed.value, "risk").value) then
        NormalizedIsWellFormed(parsed.value);
        Some(NormalizeReasoning(parsed.value))
      else None
  }

  /** A reply with no `{ ... }` in it never produces a result, whatever the parser. */
  lemma MalformedReplyFails(reply: string, parse: string -> Option<Json>)
    requires !HasBracePair(reply)
    ensures Adapter(Some(reply), parse).None?
  {
  }

  /** `fda.snippet.slice(0, 600)` in the on-device prompt throws: the
      snippet is truthy but neither a string nor an array. The throw is
      caught with the on-device `try`, so no prompt is sent. */
  predicate PromptThrows(snippet: Option<Json>) {
    snippet.Some? && !snippet.value.JStr? && !snippet.value.JArr?
  }

  /** The snippet is not a string: `fdaSnippet.substring` in
      `localReasoning` and `text.replace` in `cleanFDAText` throw on it, and
      nothing catches either throw. */
  predicate SnippetThrows(snippet: Option<Json>) {
    snippet.Some? && !snippet.value.JStr?
  }

  /** The snippet as the text the rest of the analysis reads. */
  function SnippetText(snippet: Option<Json>): (t: Option<string>)
    ensures t.Some? <==> snippet.Some? && snippet.value.JStr?
    ensures t.Some? ==> snippet == Some(JStr(t.value))
  {
    if snippet.Some? && snippet.value.JStr? then Some(snippet.value.s) else None
  }

  /** The label snippet the cascade sees: looked up only in hybrid mode. */
  function LabelFor(hybrid: bool, attempts: seq<Option<Json>>): Option<Json> {
    if hybrid then LabelSnippet(attempts) else None
  }

  /** The on-device source is prompted and succeeds. */
  predicate OnDeviceOk(src: Sources, snippet: Option<Json>) {
    src.session && !PromptThrows(snippet) && Adapter(src.onDeviceReply, src.parse).Some?
  }

  /** The cloud source is asked and succeeds. */
  predicate CloudOk(src: Sources, snippet: Option<Json>, apiKey: string) {
    !OnDeviceOk(src, snippet) && apiKey != "" && Adapter(src.cloudReply, src.parse).Some?
  }

  /** The outcome of the cascade for the given inputs and label snippet:
      the first source that answers decides; the local rules throw (None)
      on a snippet that is not a string. */
  function CascadeResult(drug: string, conditions: string, snippet: Option<Json>,
                         apiKey: string, src: Sources): (r: Option<Reasoning>)
    ensures r.Some? ==> WellFormed(r.value)
    ensures r.None? <==> !OnDeviceOk(src, snippet) && !CloudOk(src, snippet, apiKey) && SnippetThrows(snippet)
  {
    if OnDeviceOk(src, snippet) then Adapter(src.onDeviceReply, src.parse)
    else if CloudOk(src, snippet, apiKey) then Adapter(src.cloudReply, src.parse)
    else if SnippetThrows(snippet) then None
    else Some(LocalVerdict(drug, conditions, SnippetText(snippet)))
  }

  /** The cascade: label lookup (hybrid mode only), then on-device, then
      cloud (only with an API key), then local rules; the first source that
      answers decides. `None` means the local rules threw. */
  method RunCascade(drug: string, conditions: string, hybrid: bool, apiKey: string, src: Sources)
    returns (r: Option<Reasoning>, snippet: Option<Json>, trace: Trace)
    ensures snippet == LabelFor(hybrid, src.labelAttempts)
    ensures r == CascadeResult(drug, conditions, snippet, apiKey, src)
    // the label lookup runs only in hybrid mode
    ensures !hybrid ==> snippet.None? && trace.labelAttempts == 0
    // in hybrid mode the attempts are consulted up to the first usable one
    ensures hybrid ==>
              (trace.labelAttempts ==
                 if FirstTruthy(src.labelAttempts) < |src.labelAttempts|
                 then FirstTruthy(src.labelAttempts) + 1 else |src.labelAttempts|)
    ensures trace.labelAttempts <= |src.labelAttempts|
    // strict first-success order
    ensures trace.askedOnDevice <==> src.session && !PromptThrows(snippet)
    ensures trace.askedCloud <==> !OnDeviceOk(src, snippet) && apiKey != ""
    ensures trace.usedLocal <==> !OnDeviceOk(src, snippet) && !CloudOk(src, snippet, apiKey)
    ensures OnDeviceOk(src, snippet) ==> r == Adapter(src.onDeviceReply, src.parse)
    ensures CloudOk(src, snippet, apiKey) ==> r == Adapter(src.cloudReply, src.parse)
    ensures r.None? <==> trace.usedLocal && SnippetThrows(snippet)
    ensures trace.usedLocal && r.Some? ==>
              (r.value.risk == "Danger" <==> DangerMatch(drug, conditions))
              && (r.value.risk == "Caution" <==> !DangerMatch(drug, conditions) && CautionMatch(drug, conditions))
              && (r.value.risk == "Safe" <==> !DangerMatch(drug, conditions) && !CautionMatch(drug, conditions))
    // whatever source answered, the record is well-formed
    ensures r.Some? ==> WellFormed(r.value)
  {
    snippet := None;
    var consulted := 0;
    if hybrid {
      snippet, consulted := FetchLabel(src.labelAttempts);
    }
    var reasoning, prompted, askedCloud := AskModels(snippet, apiKey, src);
    var usedLocal := false;
    if reasoning.None? {
      usedLocal := true;
      if SnippetThrows(snippet) {
        r := None;
      } else {
        var local := LocalReasoning(drug, conditions, SnippetText(snippet));
        r := Some(local);
      }
    } else {
      r := reasoning;
    }
    trace := Trace(consulted, prompted, askedCloud, usedLocal);
  }

  /** The two model stages of the cascade: the on-device model when a
      session exists and the prompt can be built, then the cloud model when
      that gave nothing and a key exists. */
  method AskModels(snippet: Option<Json>, apiKey: string, src: Sources)
    returns (reasoning: Option<Reasoning>, prompted: bool, askedCloud: bool)
    ensures prompted <==> src.session && !PromptThrows(snippet)
    ensures askedCloud <==> !OnDeviceOk(src, snippet) && apiKey != ""
    ensures OnDeviceOk(src, snippet) ==> reasoning == Adapter(src.onDeviceReply, src.parse)
    ensures CloudOk(src, snippet, apiKey) ==> reasoning == Adapter(src.cloudReply, src.parse)
    ensures reasoning.None? <==> !OnDeviceOk(src, snippet) && !CloudOk(src, snippet, apiKey)
  {
    reasoning := None;
    prompted := false;
    if src.session && !PromptThrows(snippet) {
      prompted := true;
      reasoning := Adapter(src.onDeviceReply, src.parse);
    }
    askedCloud := false;
    if reasoning.None? && apiKey != "" {
      askedCloud := true;
      reasoning := Adapter(src.cloudReply, src.parse);
    }
  }

  /** A label whose only usable text is a numeric description entry: the
      snippet is that raw number, so the on-device prompt is never sent and,
      without a cloud answer, the local rules throw. */
  lemma NumericDescriptionAborts(drug: string, conditions: string, src: Sources)
    requires src.labelAttempts == [Some(JObj(map["description" := JArr([JNum(5.0, "5")])]))]
    ensures LabelFor(true, src.labelAttempts) == Some(JNum(5.0, "5"))
    ensures PromptThrows(LabelFor(true, src.labelAttempts))
    ensures !OnDeviceOk(src, LabelFor(true, src.labelAttempts))
    ensures CascadeResult(drug, conditions, LabelFor(true, src.labelAttempts), "", src).None?
  {
    NumericDescriptionSnippet(src.labelAttempts);
  }

  lemma NumericDescriptionSnippet(attempts: seq<Option<Json>>)
    requires attempts == [Some(JObj(map["description" := JArr([JNum(5.0, "5")])]))]
    ensures LabelFor(true, attempts) == Some(JNum(5.0, "5"))
  {
    DescriptionOnly(attempts[0].value);
    assert FirstTruthy(attempts) == 0;
  }

  /** Without a model session and without an API key the local rules
      decide, over the label text when there is one. */
  lemma OfflineIsLocal(drug: string, conditions: string, snippet: Option<Json>, src: Sources)
    requires !src.session && !SnippetThrows(snippet)
    ensures CascadeResult(drug, conditions, snippet, "", src)
              == Some(LocalVerdict(drug, conditions, SnippetText(snippet)))
  {
  }

  /** A label whose only usable text is a string description gives that
      string as the snippet. */
  lemma StringDescriptionSnippet(attempts: seq<Option<Json>>)
    requires attempts == [Some(JObj(map["description" := JArr([JStr("Take with food")])]))]
    ensures LabelFor(true, attempts) == Some(JStr("Take with food"))
  {
    DescriptionOnly(attempts[0].value);
    assert FirstTruthy(attempts) == 0;
  }

  /** A row with a description and none of the listed fields falls back to
      the description. */
  lemma DescriptionOnly(row: Json)
    requires row.JObj? && row.fields.Keys == {"description"}
    ensures SnippetOf(row) == DescriptionFallback(row)
  {
    forall k | 0 <= k < |Fields| ensures !Present(row, Fields[k]) {
      assert Fields[k] != "description" by {
        assert |Fields[k]| != 11 || Fields[k][0] != 'd';
      }
    }
    NoPartsIffNoField(row, Fields);
  }
}
