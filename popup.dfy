/** The module-level state of the popup script and the handlers that change
    it: `analyzeDrug` (extension/popup.js:285-466), `simplifyText`,
    `translateText` and `switchView`. */
module Popup {
  import opened Wrappers
  import opened Json
  import opened Text
  import opened Reasoning
  import opened Cascade
  import opened Presentation
  import opened Lines

  /** The snapshot kept for the report download (the timestamp is left out). */
  datatype Report = Report(
    drug: string,
    age: string,
    gender: string,
    conditions: string,
    hybrid: bool,
    risk: string,
    summary: string,
    fdaSnippet: string)

  /** The three labelled lines of the plain original text, before clean-up. */
  function PlainText(summary: string, why: string, advice: string): string {
    "Summary: " + summary + "\nWhy: " + why + "\nAdvice: " + advice
  }

  /** The plain text of the original view: "Summary: ..." with the why and
      advice lines, newline runs collapsed, trimmed. */
  function PlainOriginal(r: Reasoning): (t: string)
    ensures Trimmed(t) && SingleNewlines(t)
    ensures |t| >= 9 && t[..9] == "Summary: "
  {
    var c := CollapseNewlines(PlainText(ToJsString(r.summary), ToJsString(r.why), ToJsString(r.advice)));
    PlainHead(ToJsString(r.summary), ToJsString(r.why), ToJsString(r.advice));
    var m := 9 + |CollapseNewlines(ToJsString(r.summary) + "\n")|;
    TrimKeepsFront(c, m);
    var t := Trim(c);
    SliceSingleNewlines(c, 0, |t|);
    assert c[0..|t|] == t;
    assert t[..9] == c[..9];
    t
  }

  /** After collapsing, the text still opens with "Summary: ", and the "W"
      of "Why:" follows the collapsed summary line. */
  lemma PlainHead(summary: string, why: string, advice: string)
    ensures var c := CollapseNewlines(PlainText(summary, why, advice));
            var m := 9 + |CollapseNewlines(summary + "\n")|;
            m < |c| && c[..9] == "Summary: " && c[0] == 'S' && c[m] == 'W'
  {
    var rest := "Why: " + why + "\nAdvice: " + advice;
    assert PlainText(summary, why, advice) == "Summary: " + (summary + "\n") + rest;
    CollapseLabelled("Summary: ", summary, rest);
  }

  /** A newline-free tag, a field and its newline, then text that does not
      start with a newline: the tag passes through and the seam holds. */
  lemma CollapseLabelled(tag: string, x: string, rest: string)
    requires '\n' !in tag && |rest| > 0 && rest[0] != '\n'
    ensures CollapseNewlines(tag + (x + "\n") + rest)
              == tag + CollapseNewlines(x + "\n") + CollapseNewlines(rest)
  {
    CollapseNewlinesAppend(tag + (x + "\n"), rest);
    CollapseNewlinesPlainPrefix(tag, x + "\n");
  }

  /** When no field holds a newline and the advice is non-empty text with no
      white space at its end, the plain original is the three lines as they
      are. */
  lemma PlainOriginalOfOneLineFields(r: Reasoning)
    requires '\n' !in ToJsString(r.summary) && '\n' !in ToJsString(r.why)
    requires '\n' !in ToJsString(r.advice) && ToJsString(r.advice) != ""
    requires Trimmed(ToJsString(r.advice))
    ensures PlainOriginal(r) == PlainText(ToJsString(r.summary), ToJsString(r.why), ToJsString(r.advice))
  {
    var a := ToJsString(r.advice);
    var raw := PlainText(ToJsString(r.summary), ToJsString(r.why), a);
    OneLineFieldsKept(ToJsString(r.summary), ToJsString(r.why), a);
    assert raw[0] == 'S' && raw[|raw| - 1] == a[|a| - 1];
    TrimOfTrimmed(raw);
  }

  /** Three newline-free fields: the collapse leaves the text as it is. */
  lemma OneLineFieldsKept(s: string, w: string, a: string)
    requires '\n' !in s && '\n' !in w && '\n' !in a
    ensures CollapseNewlines(PlainText(s, w, a)) == PlainText(s, w, a)
  {
    var r2 := "Advice: " + a;
    var r1 := "Why: " + (w + "\n") + r2;
    var raw := "Summary: " + (s + "\n") + r1;
    assert CollapseNewlines(r2) == r2 by {
      CollapseNewlinesPlainPrefix("Advice: ", a);
      NewlineFreeKept(a);
    }
    assert CollapseNewlines(r1) == r1 by {
      CollapseLabelled("Why: ", w, r2);
      OneNewlineAtEnd(w);
      CollapseNewlinesKeepsSingle(w + "\n");
    }
    assert CollapseNewlines(raw) == raw by {
      CollapseLabelled("Summary: ", s, r1);
      OneNewlineAtEnd(s);
      CollapseNewlinesKeepsSingle(s + "\n");
    }
    PlainTextRegrouped(s, w, a);
  }

  lemma PlainTextRegrouped(s: string, w: string, a: string)
    ensures PlainText(s, w, a) == "Summary: " + (s + "\n") + ("Why: " + (w + "\n") + ("Advice: " + a))
  {
    var tail := "\nAdvice: " + a;
    assert "\nAdvice: " + a == "\n" + ("Advice: " + a);
    assert "\nWhy: " + w + tail == "\n" + ("Why: " + (w + "\n") + ("Advice: " + a));
    assert PlainText(s, w, a) == "Summary: " + s + ("\nWhy: " + w + tail);
  }

  lemma OneNewlineAtEnd(x: string)
    requires '\n' !in x
    ensures SingleNewlines(x + "\n")
  {
    var y := x + "\n";
    forall k | 0 <= k < |y| - 1 ensures y[k] != '\n' {
      assert y[k] == x[k] && x[k] in x;
    }
  }

  /** `${summary} ${why ? "— " + why : ""} ${advice ? " | " + advice : ""}`, trimmed. */
  function ReportSummary(r: Reasoning): (s: string)
    ensures Trimmed(s)
  {
    Trim(ToJsString(r.summary) + " "
         + (if Truthy(r.why) then "\U{2014} " + ToJsString(r.why) else "") + " "
         + (if Truthy(r.advice) then " | " + ToJsString(r.advice) else ""))
  }

  /** With no why and no advice, the report summary is the trimmed summary. */
  lemma ReportSummaryAlone(r: Reasoning)
    requires !Truthy(r.why) && !Truthy(r.advice)
    ensures ReportSummary(r) == Trim(ToJsString(r.summary))
  {
    var s := ToJsString(r.summary);
    assert s + " " + "" + " " + "" == s + "  ";
    TrimDropsTrailingSpace(s, "  ");
  }

  /** With all three parts present as trimmed text, the report summary is
      "summary — why  | advice". */
  lemma ReportSummaryAllParts(r: Reasoning, s: string, w: string, a: string)
    requires r.summary == JStr(s) && r.why == JStr(w) && r.advice == JStr(a)
    requires s != "" && w != "" && a != "" && Trimmed(s) && Trimmed(a)
    ensures ReportSummary(r) == s + " \U{2014} " + w + "  | " + a
  {
    var full := s + " \U{2014} " + w + "  | " + a;
    assert s + " " + ("\U{2014} " + w) + " " + (" | " + a) == full;
    assert full[0] == s[0] && full[|full| - 1] == a[|a| - 1];
    TrimOfTrimmed(full);
  }

  /** `fda?.snippet || (hybridEnabled ? "No FDA data." : "Offline.")`. */
  function ReportSnippet(snippet: Option<string>, hybrid: bool): (t: string)
    ensures t != ""
    ensures snippet.Some? && snippet.value != "" ==> t == snippet.value
    ensures snippet.None? || snippet.value == "" ==> t == (if hybrid then "No FDA data." else "Offline.")
  {
    if snippet.Some? && snippet.value != "" then snippet.value
    else if hybrid then "No FDA data." else "Offline."
  }

  /** What one analysis produces: the record and the report snapshot. */
  datatype Analysis = Analysis(reasoning: Reasoning, report: Report)

  /** The middle of `analyzeDrug` for a non-empty drug name: proofreading
      of both inputs, the cascade, and the report snapshot. `None` means the
      analysis threw before the report was taken: the label snippet was not
      a string, so `localReasoning` or `cleanFDAText` failed on it. */
  method Analyze(drug: string, conditions: string, age: string, gender: string,
                 hybrid: bool, apiKey: string,
                 proofreadDrug: Option<string>, proofreadConditions: Option<string>,
                 src: Sources)
    returns (result: Option<Analysis>)
    ensures var d := CleanUserInput(drug, proofreadDrug);
            var c := CleanUserInput(conditions, proofreadConditions);
            var lbl := LabelFor(hybrid, src.labelAttempts);
            && (result.None? <==> SnippetThrows(lbl))
            && (result.Some? ==>
                  && CascadeResult(d, c, lbl, apiKey, src) == Some(result.value.reasoning)
                  && result.value.report
                     == Report(d, age, gender, c, hybrid, result.value.reasoning.risk,
                               ReportSummary(result.value.reasoning),
                               ReportSnippet(SnippetText(lbl), hybrid)))
    ensures result.Some? ==> WellFormed(result.value.reasoning)
    ensures drug != "" && result.Some? ==> result.value.report.drug != ""
  {
    var cleanDrug := CleanUserInput(drug, proofreadDrug);
    var cleanConditions := CleanUserInput(conditions, proofreadConditions);
    var r, snippet, trace := RunCascade(cleanDrug, cleanConditions, hybrid, apiKey, src);
    if SnippetThrows(snippet) {
      return None;
    }
    var report := Report(cleanDrug, age, gender, cleanConditions, hybrid, r.value.risk,
                         ReportSummary(r.value), ReportSnippet(SnippetText(snippet), hybrid));
    result := Some(Analysis(r.value, report));
  }

  /** The popup page: its view globals and the last report. */
  class Page {
    var originalText: string
    var simplifiedText: string
    var translatedText: string
    var currentView: View
    var shownText: string
    var lastReport: Option<Report>

    // The contracts below spell the view state out as
    // `PState(originalText, simplifiedText, translatedText, currentView, shownText)`
    // and tie it to the `Presentation` functions.

    constructor ()
      ensures PState(originalText, simplifiedText, translatedText, currentView, shownText)
              == PState("", "", "", Original, "")
      ensures lastReport == None
    {
      originalText, simplifiedText, translatedText := "", "", "";
      currentView, shownText := Original, "";
      lastReport := None;
    }

    /** `switchView(view)`. */
    method SwitchView(view: View)
      modifies this
      ensures PState(originalText, simplifiedText, translatedText, currentView, shownText)
              == Switched(PState(old(originalText), old(simplifiedText), old(translatedText), old(currentView), old(shownText)), view)
      ensures lastReport == old(lastReport)
    {
      currentView := view;
      shownText := TextFor(PState(originalText, simplifiedText, translatedText, currentView, shownText), view);
    }

    /** `analyzeDrug()`: guard, cascade, report, view reset. Returns the
        result, or `None` when the drug name is empty (the user is asked
        for one and nothing else happens). */
    method AnalyzeDrug(rawDrug: string, rawConditions: string, rawAge: string, rawGender: string,
                       hybrid: bool, apiKey: string,
                       proofreadDrug: Option<string>, proofreadConditions: Option<string>,
                       src: Sources)
      returns (result: Option<Reasoning>)
      modifies this
      ensures var lbl := LabelFor(hybrid, src.labelAttempts);
              result.Some? <==> NormalizeField(rawDrug) != "" && !SnippetThrows(lbl)
      ensures result.None? ==>
                && PState(originalText, simplifiedText, translatedText, currentView, shownText)
                   == PState(old(originalText), old(simplifiedText), old(translatedText), old(currentView), old(shownText))
                && lastReport == old(lastReport)
      ensures var d := CleanUserInput(NormalizeField(rawDrug), proofreadDrug);
              var c := CleanUserInput(NormalizeField(rawConditions), proofreadConditions);
              var lbl := LabelFor(hybrid, src.labelAttempts);
              result.Some? ==>
                && CascadeResult(d, c, lbl, apiKey, src) == result
                && PState(originalText, simplifiedText, translatedText, currentView, shownText)
                   == AfterAnalysis(PState(old(originalText), old(simplifiedText), old(translatedText), old(currentView), old(shownText)),
                                    PlainOriginal(result.value))
                && lastReport == Some(Report(d, Trim(rawAge), Trim(rawGender), c, hybrid, result.value.risk,
                                             ReportSummary(result.value),
                                             ReportSnippet(SnippetText(lbl), hybrid)))
      ensures result.Some? ==> WellFormed(result.value) && lastReport.value.drug != ""
    {
      var drug := NormalizeField(rawDrug);
      if drug == "" {
        return None;
      }
      var analysis := Analyze(drug, NormalizeField(rawConditions), Trim(rawAge), Trim(rawGender),
                              hybrid, apiKey, proofreadDrug, proofreadConditions, src);
      if analysis.None? {
        return None;
      }
      ShowAnalysis(analysis.value.reasoning, analysis.value.report);
      result := Some(analysis.value.reasoning);
    }

    /** The end of `analyzeDrug`: keep the report, set the plain original
        text, clear the other two and switch to the original view. */
    method ShowAnalysis(r: Reasoning, report: Report)
      modifies this
      ensures PState(originalText, simplifiedText, translatedText, currentView, shownText)
              == AfterAnalysis(PState(old(originalText), old(simplifiedText), old(translatedText), old(currentView), old(shownText)),
                               PlainOriginal(r))
      ensures lastReport == Some(report)
    {
      lastReport := Some(report);
      originalText, simplifiedText, translatedText := PlainOriginal(r), "", "";
      SwitchView(Original);
    }

    /** `simplifyText()`: `allText` is the text gathered from the page,
        `session` whether a model session exists, `reply` the model's answer
        (None when it threw). */
    method SimplifyText(allText: string, session: bool, reply: Option<string>)
      modifies this
      ensures PState(originalText, simplifiedText, translatedText, currentView, shownText)
              == AfterSimplify(PState(old(originalText), old(simplifiedText), old(translatedText), old(currentView), old(shownText)),
                               allText, session, reply)
      ensures lastReport == old(lastReport)
    {
      if SimplificationGoesAhead(allText, session, reply) {
        StoreSimplification(SimplifyPost(reply.value), allText);
      }
    }

    /** The assignments of `simplifyText` once the model answered. */
    method StoreSimplification(simplified: string, allText: string)
      modifies this
      ensures PState(originalText, simplifiedText, translatedText, currentView, shownText)
              == WithSimplification(PState(old(originalText), old(simplifiedText), old(translatedText), old(currentView), old(shownText)),
                                    simplified, allText)
      ensures lastReport == old(lastReport)
    {
      simplifiedText := simplified;
      if originalText == "" {  // originalText ||= allText
        originalText := allText;
      }
      SwitchView(Simplified);
    }

    /** `translateText()` into `lang`. */
    method TranslateText(allText: string, lang: string, session: bool, reply: Option<string>)
      modifies this
      ensures PState(originalText, simplifiedText, translatedText, currentView, shownText)
              == AfterTranslate(PState(old(originalText), old(simplifiedText), old(translatedText), old(currentView), old(shownText)),
                                allText, lang, session, reply)
      ensures lastReport == old(lastReport)
    {
      if TranslationGoesAhead(allText, lang, session, reply) {
        StoreTranslation(TranslationOf(allText, reply.value), allText);
      }
    }

    /** The assignments of `translateText` once the model answered. */
    method StoreTranslation(translated: string, allText: string)
      modifies this
      ensures PState(originalText, simplifiedText, translatedText, currentView, shownText)
              == WithTranslation(PState(old(originalText), old(simplifiedText), old(translatedText), old(currentView), old(shownText)),
                                 translated, allText)
      ensures lastReport == old(lastReport)
    {
      translatedText := translated;
      if simplifiedText == "" {  // simplifiedText ||= allText
        simplifiedText := allText;
      }
      if originalText == "" {  // originalText ||= allText
        originalText := allText;
      }
      SwitchView(Translated);
    }
  }

  /** Two analyses in a row: whatever the first one and the requests after
      it left, the second starts with no simplified or translated text and
      shows its own original. */
  method TwoAnalysesDoNotLeak(page: Page, d1: string, d2: string, allText: string,
                              src1: Sources, src2: Sources)
    requires NormalizeField(d2) != ""
    modifies page
    ensures page.simplifiedText == "" && page.translatedText == ""
    ensures page.currentView == Original && page.shownText == page.originalText
  {
    var r1 := page.AnalyzeDrug(d1, "", "", "", false, "", None, None, src1);
    page.SimplifyText(allText, true, Some("short"));
    page.TranslateText(allText, "fr", true, Some("court"));
    var r2 := page.AnalyzeDrug(d2, "", "", "", false, "", None, None, src2);
  }
}
