/** The three text views of a result (original, simplified, translated)
    and the transitions between them: `switchView`
    (extension/popup.js:868-912), the reset at the end of `analyzeDrug`
    (extension/popup.js:462-465), and the state updates of `simplifyText`
    and `translateText` (extension/popup.js:678-768). The model answers are
    parameters. */
module Presentation {
  import opened Wrappers
  import opened Text
  import opened Lines

  datatype View = Original | Simplified | Translated

  /** The popup's view globals: the three texts, the selected view and the
      text shown under the structured summary. */
  datatype PState = PState(original: string, simplified: string, translated: string, view: View, shown: string)

  /** The `map` of `switchView`: a view with no text yet falls back to the
      next more basic one. */
  function TextFor(p: PState, v: View): (t: string)
    ensures v == Original ==> t == p.original
    ensures v == Simplified ==> t == (if p.simplified != "" then p.simplified else p.original)
    ensures v == Translated ==> t == (if p.translated != "" then p.translated
                                      else if p.simplified != "" then p.simplified else p.original)
  {
    match v
    case Original => p.original
    case Simplified => if p.simplified != "" then p.simplified else p.original
    case Translated =>
      if p.translated != "" then p.translated
      else if p.simplified != "" then p.simplified else p.original
  }

  /** `switchView(v)`. */
  function Switched(p: PState, v: View): PState {
    p.(view := v, shown := TextFor(p, v))
  }

  /** The end of `analyzeDrug`: the new plain original, no simplified or
      translated text, original view selected. */
  function AfterAnalysis(p: PState, plain: string): (q: PState)
    ensures q == PState(plain, "", "", Original, plain)
  {
    Switched(PState(plain, "", "", p.view, p.shown), Original)
  }

  /** The post-processing of a simplifier answer: the first three pieces
      between newline runs, joined by spaces, white space collapsed and
      trimmed. */
  function SimplifyPost(out: string): (r: string)
    ensures Tidy(r) && '\n' !in r
    ensures '\n' !in out ==> r == Squish(out)
  {
    var chunks := SplitLines(out);
    var r := Squish(Join(chunks[..if |chunks| <= 3 then |chunks| else 3], " "));
    assert IsJsSpace('\n');
    r
  }

  /** An answer of three or more lines is cut to its first three lines,
      joined by spaces; newline runs between them count as one. */
  lemma SimplifyKeepsThreeLines(l1: string, l2: string, l3: string, rest: string)
    requires '\n' !in l1 && '\n' !in l2 && '\n' !in l3
    requires l2 != "" && l3 != ""
    ensures SimplifyPost(l1 + "\n" + l2 + "\n" + l3 + "\n" + rest) == Squish(l1 + " " + l2 + " " + l3)
  {
    FirstThreeLines(l1, l2, l3, rest);
    JoinThree(l1, l2, l3);
  }

  /** An answer of exactly three lines keeps all three, joined by spaces. */
  lemma SimplifyExactlyThreeLines(l1: string, l2: string, l3: string)
    requires '\n' !in l1 && '\n' !in l2 && '\n' !in l3
    requires l2 != "" && l3 != ""
    ensures SimplifyPost(l1 + "\n" + l2 + "\n" + l3) == Squish(l1 + " " + l2 + " " + l3)
  {
    ExactlyThreeLines(l1, l2, l3);
    var chunks := [l1, l2, l3];
    assert chunks[..3] == chunks;
    JoinThree(l1, l2, l3);
  }

  lemma ExactlyThreeLines(l1: string, l2: string, l3: string)
    requires '\n' !in l1 && '\n' !in l2 && '\n' !in l3
    requires l2 != "" && l3 != ""
    ensures SplitLines(l1 + "\n" + l2 + "\n" + l3) == [l1, l2, l3]
  {
    var q2 := l2 + "\n" + l3;
    TwoLinesSplit(l2, l3);
    SplitBeforeLine(l1, l2, q2);
    assert l1 + "\n" + l2 + "\n" + l3 == l1 + "\n" + q2;
  }

  lemma TwoLinesSplit(l1: string, l2: string)
    requires '\n' !in l1 && '\n' !in l2 && l2 != ""
    ensures SplitLines(l1 + "\n" + l2) == [l1, l2]
  {
    SplitBeforeLine(l1, l2, l2);
    assert SplitLines(l2) == [l2];
  }

  lemma JoinThree(l1: string, l2: string, l3: string)
    ensures Join([l1, l2, l3], " ") == l1 + " " + l2 + " " + l3
  {
    assert [l1, l2, l3][1..] == [l2, l3] && [l2, l3][1..] == [l3];
    assert Join([l2, l3], " ") == l2 + " " + l3;
    assert l1 + " " + (l2 + " " + l3) == l1 + " " + l2 + " " + l3;
  }

  /** An answer of two lines keeps both, joined by a space. */
  lemma SimplifyTwoLines(l1: string, l2: string)
    requires '\n' !in l1 && '\n' !in l2 && l2 != ""
    ensures SimplifyPost(l1 + "\n" + l2) == Squish(l1 + " " + l2)
  {
    TwoLinesSplit(l1, l2);
    var chunks := [l1, l2];
    assert chunks[..2] == chunks;
    assert Join([l1, l2], " ") == l1 + " " + l2 by {
      assert [l1, l2][1..] == [l2];
    }
  }

  lemma FirstThreeLines(l1: string, l2: string, l3: string, rest: string)
    requires '\n' !in l1 && '\n' !in l2 && '\n' !in l3
    requires l2 != "" && l3 != ""
    ensures var chunks := SplitLines(l1 + "\n" + l2 + "\n" + l3 + "\n" + rest);
            |chunks| > 3 && chunks[..3] == [l1, l2, l3]
  {
    var q3 := l3 + "\n" + rest;
    var q2 := l2 + "\n" + q3;
    var c3 := SplitLines(q3);
    var c2 := SplitLines(q2);
    var c1 := SplitLines(l1 + "\n" + q2);
    assert |c3| > 1 && c3[0] == l3 by { SplitAtNewline(l3, rest); }
    assert c2 == [l2] + c3 by { SplitBeforeLine(l2, l3, q3); }
    assert c1 == [l1] + c2 by { SplitBeforeLine(l1, l2, q2); }
    assert l1 + "\n" + l2 + "\n" + l3 + "\n" + rest == l1 + "\n" + q2;
  }

  /** A newline-free piece is split off whole when the next line starts
      right after its newline. */
  lemma SplitBeforeLine(p: string, next: string, q: string)
    requires '\n' !in p && next != "" && '\n' !in next
    requires |q| >= |next| && q[..|next|] == next
    ensures SplitLines(p + "\n" + q) == [p] + SplitLines(q)
  {
    SplitAtNewline(p, q);
    assert q[0] == next[0] && next[0] in next;
  }

  /** Whether `simplifyText()` gets as far as storing a simplification. */
  predicate SimplificationGoesAhead(allText: string, session: bool, reply: Option<string>) {
    Trim(allText) != "" && session && reply.Some?
  }

  /** `simplifyText()` with the visible text `allText`, whether a model
      session exists, and the model's answer (None when it threw). A failure
      leaves the state as it was. */
  function AfterSimplify(p: PState, allText: string, session: bool, reply: Option<string>): (q: PState)
    ensures !SimplificationGoesAhead(allText, session, reply) ==> q == p
    ensures SimplificationGoesAhead(allText, session, reply) ==>
              && q.simplified == SimplifyPost(reply.value)
              && q.translated == p.translated
              && q.original == (if p.original != "" then p.original else allText)
              && q.view == Simplified && q.shown == TextFor(q, Simplified)
  {
    if !SimplificationGoesAhead(allText, session, reply) then p
    else WithSimplification(p, SimplifyPost(reply.value), allText)
  }

  /** The state updates of a simplification that went ahead: store the text,
      `originalText ||= allText`, switch to the simplified view. */
  function WithSimplification(p: PState, simplified: string, allText: string): PState {
    var q := p.(simplified := simplified,
                original := if p.original != "" then p.original else allText);
    Switched(q, Simplified)
  }

  /** Whether `translateText()` gets as far as storing a translation. */
  predicate TranslationGoesAhead(allText: string, lang: string, session: bool, reply: Option<string>) {
    Trim(allText) != "" && lang != "en" && session && reply.Some?
  }

  /** `(out || text).trim()`, where `text` is already trimmed. */
  function TranslationOf(allText: string, reply: string): (t: string)
    ensures Trimmed(t)
    ensures reply != "" ==> t == Trim(reply)
    ensures reply == "" ==> t == Trim(allText)
  {
    TrimOfTrimmed(Trim(allText));
    Trim(if reply != "" then reply else Trim(allText))
  }

  /** `translateText()` to language `lang`; "en" is the page's own language. */
  function AfterTranslate(p: PState, allText: string, lang: string, session: bool, reply: Option<string>): (q: PState)
    ensures !TranslationGoesAhead(allText, lang, session, reply) ==> q == p
    ensures TranslationGoesAhead(allText, lang, session, reply) ==>
              && q.translated == TranslationOf(allText, reply.value)
              && q.simplified == (if p.simplified != "" then p.simplified else allText)
              && q.original == (if p.original != "" then p.original else allText)
              && q.view == Translated && q.shown == TextFor(q, Translated)
  {
    if !TranslationGoesAhead(allText, lang, session, reply) then p
    else WithTranslation(p, TranslationOf(allText, reply.value), allText)
  }

  /** The state updates of a translation that went ahead: store the text,
      `simplifiedText ||= allText`, `originalText ||= allText`, switch to
      the translated view. */
  function WithTranslation(p: PState, translated: string, allText: string): PState {
    var q := p.(translated := translated,
                simplified := if p.simplified != "" then p.simplified else allText,
                original := if p.original != "" then p.original else allText);
    Switched(q, Translated)
  }

  /** The shown text is never empty once there is an original text. */
  lemma ShownNeverEmpty(p: PState, v: View)
    requires p.original != ""
    ensures TextFor(p, v) != ""
  {
  }

  /** Simplifying and translating never overwrite an original text, and a
      failed request changes nothing. */
  lemma OriginalSurvives(p: PState, allText: string, lang: string, session: bool, reply: Option<string>)
    requires p.original != ""
    ensures AfterSimplify(p, allText, session, reply).original == p.original
    ensures AfterTranslate(p, allText, lang, session, reply).original == p.original
    ensures reply.None? ==> AfterSimplify(p, allText, session, reply) == p
    ensures reply.None? ==> AfterTranslate(p, allText, lang, session, reply) == p
  {
  }

  /** Translating into the page's own language is a no-op. */
  lemma EnglishIsNoop(p: PState, allText: string, session: bool, reply: Option<string>)
    ensures AfterTranslate(p, allText, "en", session, reply) == p
  {
  }

  /** A new analysis starts from a clean slate, whatever the previous one left. */
  lemma AnalysisDoesNotLeak(p: PState, q: PState, plain: string)
    ensures AfterAnalysis(p, plain) == AfterAnalysis(q, plain)
    ensures AfterAnalysis(p, plain).simplified == "" && AfterAnalysis(p, plain).translated == ""
    ensures AfterAnalysis(p, plain).view == Original && AfterAnalysis(p, plain).shown == plain
  {
  }

  /** Analyse, simplify, translate, then go back to the original view: the
      original text is shown unchanged. */
  lemma OriginalRoundTrip(p: PState, plain: string, allText: string, lang: string,
                          session: bool, r1: Option<string>, r2: Option<string>)
    requires plain != ""
    ensures var p1 := AfterSimplify(AfterAnalysis(p, plain), allText, session, r1);
            var p2 := AfterTranslate(p1, allText, lang, session, r2);
            Switched(p2, Original).shown == plain
  {
    OriginalSurvives(AfterAnalysis(p, plain), allText, lang, session, r1);
    var p1 := AfterSimplify(AfterAnalysis(p, plain), allText, session, r1);
    OriginalSurvives(p1, allText, lang, session, r2);
  }

  /** After a successful translation the translated view is selected and
      shows the trimmed answer; an answer of white space only leaves the
      translation empty, so the view falls back to the simplified text. */
  lemma TranslationShown(p: PState, allText: string, lang: string, reply: string)
    requires Trim(allText) != "" && lang != "en"
    ensures var q := AfterTranslate(p, allText, lang, true, Some(reply));
            && q.view == Translated
            && (reply != "" ==> q.translated == Trim(reply))
            && (Trim(reply) != "" ==> q.shown == Trim(reply))
            && (reply != "" && Trim(reply) == "" ==> q.shown == q.simplified)
  {
  }
}
