/** Text clean-up before display: `escapeHtml` (extension/popup.js:915-922)
    and `cleanFDAText` (extension/popup.js:22-30). Each global regular
    expression replacement is written out as the left-to-right scan that
    `String.prototype.replace` performs: try a match at the current
    position, and after a match continue behind it. */
module Html {
  import opened Wrappers
  import opened Json
  import opened Text

  /** `s.replaceAll("&", "&amp;").replaceAll("<", "&lt;")...`, in the
      source's order: the ampersand goes first. */
  function EscapeText(s: string): string {
    ReplaceChar(ReplaceChar(ReplaceChar(ReplaceChar(ReplaceChar(
      s, '&', "&amp;"), '<', "&lt;"), '>', "&gt;"), '"', "&quot;"), '\'', "&#039;")
  }

  /** `escapeHtml(s)`: a falsy value prints as "". */
  function EscapeHtml(v: Option<Json>): (r: string)
    ensures !TruthyOpt(v) ==> r == ""
    ensures NoMarkup(r) && AmpersandsAreEntities(r)
  {
    var s := if TruthyOpt(v) then ToJsString(v.value) else "";
    EscapeChainIsOnePass(s);
    OnePassIsSafe(s);
    EscapeText(s)
  }

  /** The entity a character is written as, or the character itself. */
  function EscapeChar(c: char): string {
    if c == '&' then "&amp;"
    else if c == '<' then "&lt;"
    else if c == '>' then "&gt;"
    else if c == '"' then "&quot;"
    else if c == '\'' then "&#039;"
    else [c]
  }

  /** Reference definition: every character escaped on its own, in one pass. */
  function EscapeOnePass(s: string): string
    decreases |s|
  {
    if |s| == 0 then "" else EscapeChar(s[0]) + EscapeOnePass(s[1..])
  }

  /** None of the characters that would open markup or end an attribute. */
  predicate NoMarkup(s: string) {
    '<' !in s && '>' !in s && '"' !in s && '\'' !in s
  }

  /** The text at `i` is one of the five entities. */
  predicate EntityAt(s: string, i: int) {
    OccursAt(s, "&amp;", i) || OccursAt(s, "&lt;", i) || OccursAt(s, "&gt;", i)
    || OccursAt(s, "&quot;", i) || OccursAt(s, "&#039;", i)
  }

  /** Every `&` starts an entity: no character was double-escaped away or left bare. */
  predicate AmpersandsAreEntities(s: string) {
    forall i :: 0 <= i < |s| && s[i] == '&' ==> EntityAt(s, i)
  }

  lemma ReplaceCharAbsent(s: string, c: char, rep: string)
    requires c !in s
    ensures ReplaceChar(s, c, rep) == s
  {
    if |s| > 0 { ReplaceCharAbsent(s[1..], c, rep); }
  }

  lemma ReplaceCharOne(c: char, d: char, rep: string)
    ensures ReplaceChar([c], d, rep) == if c == d then rep else [c]
  {
    assert [c][1..] == [];
  }

  /** The chain distributes over concatenation. */
  lemma EscapeTextAppend(a: string, b: string)
    ensures EscapeText(a + b) == EscapeText(a) + EscapeText(b)
  {
    var a1, b1 := ReplaceChar(a, '&', "&amp;"), ReplaceChar(b, '&', "&amp;");
    ReplaceCharAppend(a, b, '&', "&amp;");
    var a2, b2 := ReplaceChar(a1, '<', "&lt;"), ReplaceChar(b1, '<', "&lt;");
    ReplaceCharAppend(a1, b1, '<', "&lt;");
    var a3, b3 := ReplaceChar(a2, '>', "&gt;"), ReplaceChar(b2, '>', "&gt;");
    ReplaceCharAppend(a2, b2, '>', "&gt;");
    var a4, b4 := ReplaceChar(a3, '"', "&quot;"), ReplaceChar(b3, '"', "&quot;");
    ReplaceCharAppend(a3, b3, '"', "&quot;");
    ReplaceCharAppend(a4, b4, '\'', "&#039;");
  }

  /** On one character the chain gives that character's entity: the entity
      written for `&` is not touched again by the later replacements. */
  lemma EscapeTextChar(c: char)
    ensures EscapeText([c]) == EscapeChar(c)
  {
    ReplaceCharOne(c, '&', "&amp;");
    if c == '&' {
      LaterStagesKeep("&amp;", 1);
    } else {
      ReplaceCharOne(c, '<', "&lt;");
      if c == '<' {
        LaterStagesKeep("&lt;", 2);
      } else {
        ReplaceCharOne(c, '>', "&gt;");
        if c == '>' {
          LaterStagesKeep("&gt;", 3);
        } else {
          ReplaceCharOne(c, '"', "&quot;");
          if c == '"' {
            LaterStagesKeep("&quot;", 4);
          } else {
            ReplaceCharOne(c, '\'', "&#039;");
          }
        }
      }
    }
  }

  /** The replacements after stage `stage` of the chain (1 for `&`, ...,
      4 for `"`) leave a string without their characters as it is. */
  lemma LaterStagesKeep(e: string, stage: nat)
    requires 1 <= stage <= 4
    requires stage < 2 ==> '<' !in e
    requires stage < 3 ==> '>' !in e
    requires stage < 4 ==> '"' !in e
    requires '\'' !in e
    ensures stage == 1 ==> ReplaceChar(ReplaceChar(ReplaceChar(ReplaceChar(
                             e, '<', "&lt;"), '>', "&gt;"), '"', "&quot;"), '\'', "&#039;") == e
    ensures stage == 2 ==> ReplaceChar(ReplaceChar(ReplaceChar(
                             e, '>', "&gt;"), '"', "&quot;"), '\'', "&#039;") == e
    ensures stage == 3 ==> ReplaceChar(ReplaceChar(e, '"', "&quot;"), '\'', "&#039;") == e
    ensures stage == 4 ==> ReplaceChar(e, '\'', "&#039;") == e
  {
    if stage < 2 { ReplaceCharAbsent(e, '<', "&lt;"); }
    if stage < 3 { ReplaceCharAbsent(e, '>', "&gt;"); }
    if stage < 4 { ReplaceCharAbsent(e, '"', "&quot;"); }
    ReplaceCharAbsent(e, '\'', "&#039;");
  }

  /** The source's chain of five `replaceAll`s equals the one-pass escape. */
  lemma {:induction false} EscapeChainIsOnePass(s: string)
    ensures EscapeText(s) == EscapeOnePass(s)
    decreases |s|
  {
    if |s| == 0 {
      assert EscapeText(s) == "";
    } else {
      assert s == [s[0]] + s[1..];
      EscapeTextAppend([s[0]], s[1..]);
      EscapeTextChar(s[0]);
      EscapeChainIsOnePass(s[1..]);
    }
  }

  lemma OccursAtShift(a: string, b: string, e: string, k: int)
    requires OccursAt(b, e, k)
    ensures OccursAt(a + b, e, |a| + k)
  {
    assert (a + b)[|a| + k..|a| + k + |e|] == b[k..k + |e|];
  }

  lemma OccursAtExtend(a: string, b: string, e: string, k: int)
    requires OccursAt(a, e, k)
    ensures OccursAt(a + b, e, k)
  {
    assert (a + b)[k..k + |e|] == a[k..k + |e|];
  }

  /** Both properties survive concatenation: an entity never straddles the seam. */
  lemma SafeAppend(a: string, b: string)
    requires NoMarkup(a) && AmpersandsAreEntities(a)
    requires NoMarkup(b) && AmpersandsAreEntities(b)
    ensures NoMarkup(a + b) && AmpersandsAreEntities(a + b)
  {
    var out := a + b;
    forall i | 0 <= i < |out| && out[i] == '&'
      ensures EntityAt(out, i)
    {
      if i < |a| {
        assert a[i] == '&';
        if OccursAt(a, "&amp;", i) { OccursAtExtend(a, b, "&amp;", i); }
        else if OccursAt(a, "&lt;", i) { OccursAtExtend(a, b, "&lt;", i); }
        else if OccursAt(a, "&gt;", i) { OccursAtExtend(a, b, "&gt;", i); }
        else if OccursAt(a, "&quot;", i) { OccursAtExtend(a, b, "&quot;", i); }
        else { OccursAtExtend(a, b, "&#039;", i); }
      } else {
        var k := i - |a|;
        assert b[k] == '&';
        if OccursAt(b, "&amp;", k) { OccursAtShift(a, b, "&amp;", k); }
        else if OccursAt(b, "&lt;", k) { OccursAtShift(a, b, "&lt;", k); }
        else if OccursAt(b, "&gt;", k) { OccursAtShift(a, b, "&gt;", k); }
        else if OccursAt(b, "&quot;", k) { OccursAtShift(a, b, "&quot;", k); }
        else { OccursAtShift(a, b, "&#039;", k); }
      }
    }
  }

  lemma EscapeCharSafe(c: char)
    ensures NoMarkup(EscapeChar(c)) && AmpersandsAreEntities(EscapeChar(c))
  {
    var e := EscapeChar(c);
    forall i | 0 <= i < |e| && e[i] == '&'
      ensures EntityAt(e, i)
    {
      assert i == 0;
      assert e[..|e|] == e;
    }
  }

  /** The one-pass escape leaves no markup character and every `&` it
      writes starts an entity. */
  lemma {:induction false} OnePassIsSafe(s: string)
    ensures NoMarkup(EscapeOnePass(s)) && AmpersandsAreEntities(EscapeOnePass(s))
    decreases |s|
  {
    if |s| > 0 {
      OnePassIsSafe(s[1..]);
      EscapeCharSafe(s[0]);
      SafeAppend(EscapeChar(s[0]), EscapeOnePass(s[1..]));
    }
  }

  /** Text without special characters is shown as it is. */
  lemma {:induction false} PlainTextUnchanged(s: string)
    requires '&' !in s && NoMarkup(s)
    ensures EscapeOnePass(s) == s
    decreases |s|
  {
    if |s| > 0 {
      PlainTextUnchanged(s[1..]);
    }
  }

  // ---------------------------------------------------------------------
  // cleanFDAText

  /** `.replace(/```json|```/g, "")`: the longer alternative is tried first. */
  function StripFences(s: string): (r: string)
    ensures |r| <= |s|
    ensures '`' !in s ==> r == s
    decreases |s|
  {
    assert |s| > 0 ==> s[0] in s;
    assert |s| >= 3 ==> s[..3][0] == s[0];
    assert |s| >= 7 ==> s[..7][0] == s[0];
    if |s| >= 7 && s[..7] == "```json" then StripFences(s[7..])
    else if |s| >= 3 && s[..3] == "```" then StripFences(s[3..])
    else if |s| == 0 then ""
    else
      var rest := StripFences(s[1..]);
      assert '`' !in s ==> '`' !in s[1..] by {
        forall c | c in s[1..] ensures c in s { }
      }
      assert [s[0]] + s[1..] == s;
      [s[0]] + rest
  }

  /** Text that does not start with a backtick keeps its first character. */
  lemma StripFencesPlainFront(s: string)
    requires |s| > 0 && s[0] != '`'
    ensures StripFences(s) == [s[0]] + StripFences(s[1..])
  {
    assert |s| >= 3 ==> s[..3][0] == s[0];
    assert |s| >= 7 ==> s[..7][0] == s[0];
  }

  /** A body with no backtick, fenced as a JSON block, comes out as the
      body alone. */
  lemma StripJsonFence(b: string)
    requires '`' !in b
    ensures StripFences("```json" + b + "```") == b
  {
    var s := "```json" + b + "```";
    assert s[..7] == "```json" && s[7..] == b + "```";
    StripClosingFence(b);
  }

  /** A closing fence after backtick-free text is dropped. */
  lemma {:induction false} StripClosingFence(b: string)
    requires '`' !in b
    ensures StripFences(b + "```") == b
    decreases |b|
  {
    var s := b + "```";
    if |b| == 0 {
      assert s == "```" && s[3..] == "";
    } else {
      assert s[0] == b[0] && b[0] in b && s[1..] == b[1..] + "```";
      StripFencesPlainFront(s);
      assert '`' !in b[1..] by { forall c | c in b[1..] ensures c in b { } }
      StripClosingFence(b[1..]);
      assert [b[0]] + b[1..] == b;
    }
  }

  /** Backtick-free text in front passes through unchanged; what follows
      it is stripped on its own. */
  lemma {:induction false} StripFencesAfterPlain(a: string, t: string)
    requires '`' !in a
    ensures StripFences(a + t) == a + StripFences(t)
    decreases |a|
  {
    if |a| > 0 {
      Uncons(a, t);
      var s := [a[0]] + (a[1..] + t);
      assert s[0] == a[0] && a[0] in a && s[1..] == a[1..] + t;
      StripFencesPlainFront(s);
      assert '`' !in a[1..] by { forall c | c in a[1..] ensures c in a { } }
      StripFencesAfterPlain(a[1..], t);
      Recons(a, "", StripFences(t));
      assert a[1..] + "" == a[1..] && a + "" == a;
    } else {
      assert a + t == t;
    }
  }

  /** A fence `"```json"` anywhere is dropped. */
  lemma StripJsonFenceAt(a: string, b: string)
    requires '`' !in a
    ensures StripFences(a + "```json" + b) == a + StripFences(b)
  {
    var s := "```json" + b;
    assert s[..7] == "```json" && s[7..] == b;
    assert a + "```json" + b == a + s;
    StripFencesAfterPlain(a, s);
  }

  /** A plain fence `"```"` anywhere is dropped, when `json` does not
      follow it. */
  lemma StripPlainFenceAt(a: string, b: string)
    requires '`' !in a
    requires |b| < 4 || b[..4] != "json"
    ensures StripFences(a + "```" + b) == a + StripFences(b)
  {
    var s := "```" + b;
    assert s[..3] == "```" && s[3..] == b;
    assert |s| >= 7 ==> s[3..7] == b[..4];
    assert a + "```" + b == a + s;
    StripFencesAfterPlain(a, s);
  }

  /** A lone backtick before another character is kept. */
  lemma OneBacktickKept(b: string)
    requires |b| > 0 && b[0] != '`'
    ensures StripFences("`" + b) == "`" + StripFences(b)
  {
    var s := "`" + b;
    assert s[1] == b[0];
    assert |s| >= 3 ==> s[..3] != "```" by {
      if |s| >= 3 { assert s[..3][1] == b[0]; }
    }
    assert |s| >= 7 ==> s[..7] != "```json" by {
      if |s| >= 7 { assert s[..7][1] == b[0]; }
    }
    assert s[1..] == b && s[0] == '`';
  }

  /** Two backticks before another character are kept. */
  lemma TwoBackticksKept(b: string)
    requires |b| > 0 && b[0] != '`'
    ensures StripFences("``" + b) == "``" + StripFences(b)
  {
    var s := "``" + b;
    assert s[2] == b[0];
    assert |s| >= 3 ==> s[..3] != "```" by {
      if |s| >= 3 { assert s[..3][2] == b[0]; }
    }
    assert |s| >= 7 ==> s[..7] != "```json" by {
      if |s| >= 7 { assert s[..7][2] == b[0]; }
    }
    assert s[1..] == "`" + b && s[0] == '`';
    OneBacktickKept(b);
  }

  predicate IsLowerAscii(c: char) { 'a' <= c <= 'z' }
  predicate IsUpperAscii(c: char) { 'A' <= c <= 'Z' }
  predicate IsLetterAscii(c: char) { IsLowerAscii(c) || IsUpperAscii(c) }
  predicate IsStop(c: char) { c == '.' || c == ',' }

  /** No `.` or `,` directly followed by a letter. */
  predicate SpacedAfterStops(s: string) {
    forall k :: 0 <= k < |s| - 1 ==> !(IsStop(s[k]) && IsLetterAscii(s[k + 1]))
  }

  /** Two plainly spaced strings stay so when joined without two spaces meeting. */
  lemma SpacesArePlainAppend(a: string, b: string)
    ensures SpacesArePlain(a) && SpacesArePlain(b)
            && (|a| > 0 && |b| > 0 ==> !(a[|a| - 1] == ' ' && b[0] == ' '))
            ==> SpacesArePlain(a + b)
  {
    var s := a + b;
    if SpacesArePlain(a) && SpacesArePlain(b) && (|a| > 0 && |b| > 0 ==> !(a[|a| - 1] == ' ' && b[0] == ' ')) {
      forall k | 0 <= k < |s| - 1
        ensures !(s[k] == ' ' && s[k + 1] == ' ')
      {
        if k + 1 < |a| {
          assert s[k] == a[k] && s[k + 1] == a[k + 1];
        } else if k >= |a| {
          assert s[k] == b[k - |a|] && s[k + 1] == b[k + 1 - |a|];
        }
      }
    }
  }

  lemma SpacedAfterStopsAppend(a: string, b: string)
    requires SpacedAfterStops(a) && SpacedAfterStops(b)
    requires |a| > 0 && |b| > 0 ==> !(IsStop(a[|a| - 1]) && IsLetterAscii(b[0]))
    ensures SpacedAfterStops(a + b)
  {
    var s := a + b;
    forall k | 0 <= k < |s| - 1
      ensures !(IsStop(s[k]) && IsLetterAscii(s[k + 1]))
    {
      if k + 1 < |a| {
        assert s[k] == a[k] && s[k + 1] == a[k + 1];
      } else if k >= |a| {
        assert s[k] == b[k - |a|] && s[k + 1] == b[k + 1 - |a|];
      }
    }
  }

  /** No lower-case letter directly followed by a capital. */
  predicate CaseSeparated(s: string) {
    forall k :: 0 <= k < |s| - 1 ==> !(IsLowerAscii(s[k]) && IsUpperAscii(s[k + 1]))
  }

  lemma CaseSeparatedAppend(a: string, b: string)
    ensures CaseSeparated(a) && CaseSeparated(b)
            && (|a| > 0 && |b| > 0 ==> !(IsLowerAscii(a[|a| - 1]) && IsUpperAscii(b[0])))
            ==> CaseSeparated(a + b)
  {
    var s := a + b;
    if CaseSeparated(a) && CaseSeparated(b) && (|a| > 0 && |b| > 0 ==> !(IsLowerAscii(a[|a| - 1]) && IsUpperAscii(b[0]))) {
      forall k | 0 <= k < |s| - 1
        ensures !(IsLowerAscii(s[k]) && IsUpperAscii(s[k + 1]))
      {
        if k + 1 < |a| {
          assert s[k] == a[k] && s[k + 1] == a[k + 1];
        } else if k >= |a| {
          assert s[k] == b[k - |a|] && s[k + 1] == b[k + 1 - |a|];
        }
      }
    }
  }

  lemma CaseSeparatedSuffix(s: string, i: nat)
    requires i <= |s|
    ensures CaseSeparated(s) ==> CaseSeparated(s[i..])
  {
    var r := s[i..];
    if CaseSeparated(s) {
      forall k | 0 <= k < |r| - 1
        ensures !(IsLowerAscii(r[k]) && IsUpperAscii(r[k + 1]))
      {
        assert r[k] == s[i + k] && r[k + 1] == s[i + k + 1];
      }
    }
  }

  lemma SpacedSuffix(s: string, i: nat)
    requires i <= |s|
    ensures SpacedAfterStops(s) ==> SpacedAfterStops(s[i..])
  {
    var r := s[i..];
    if SpacedAfterStops(s) {
      forall k | 0 <= k < |r| - 1
        ensures !(IsStop(r[k]) && IsLetterAscii(r[k + 1]))
      {
        assert r[k] == s[i + k] && r[k + 1] == s[i + k + 1];
      }
    }
  }

  lemma SeparatedSlice(c: string, i: nat, j: nat)
    requires i <= j <= |c| && SpacedAfterStops(c) && CaseSeparated(c)
    ensures SpacedAfterStops(c[i..j]) && CaseSeparated(c[i..j])
  {
    var r := c[i..j];
    forall k | 0 <= k < |r| ensures r[k] == c[i + k] { }
  }

  lemma PlainSuffix(s: string, i: nat)
    requires i <= |s|
    ensures SpacesArePlain(s) ==> SpacesArePlain(s[i..])
  {
    if SpacesArePlain(s) { SliceSpacesArePlain(s, i, |s|); }
  }

  /** `.replace(/([a-z])([A-Z])/g, "$1. $2")`: a period and a space go
      between a lower-case letter and the capital that follows it. */
  function InsertPeriods(s: string): (r: string)
    ensures |s| > 0 ==> |r| > 0 && r[0] == s[0]
    ensures SpacesArePlain(s) ==> SpacesArePlain(r)
    ensures CaseSeparated(r)
    decreases |s|
  {
    if |s| >= 2 && IsLowerAscii(s[0]) && IsUpperAscii(s[1]) then
      var rest := InsertPeriods(s[2..]);
      PlainSuffix(s, 2);
      SpacesArePlainAppend([s[0], '.', ' ', s[1]], rest);
      CaseSeparatedAppend([s[0], '.', ' ', s[1]], rest);
      [s[0], '.', ' ', s[1]] + rest
    else if |s| == 0 then ""
    else
      var rest := InsertPeriods(s[1..]);
      PlainSuffix(s, 1);
      SpacesArePlainAppend([s[0]], rest);
      CaseSeparatedAppend([s[0]], rest);
      [s[0]] + rest
  }

  /** `.replace(/([.,])([A-Za-z])/g, "$1 $2")`: a space goes between a
      period or comma and the letter that follows it. */
  function SpaceAfterStops(s: string): (r: string)
    ensures |s| > 0 ==> |r| > 0 && r[0] == s[0]
    ensures SpacesArePlain(s) ==> SpacesArePlain(r)
    ensures SpacedAfterStops(r)
    ensures CaseSeparated(s) ==> CaseSeparated(r)
    decreases |s|
  {
    if |s| >= 2 && IsStop(s[0]) && IsLetterAscii(s[1]) then
      var rest := SpaceAfterStops(s[2..]);
      SpacedStep(s, [s[0], ' ', s[1]], 2, rest);
      [s[0], ' ', s[1]] + rest
    else if |s| == 0 then ""
    else
      var rest := SpaceAfterStops(s[1..]);
      SpacedStep(s, [s[0]], 1, rest);
      [s[0]] + rest
  }

  /** The invariants of `SpaceAfterStops` carry over from the rest of the
      text to the text with the piece written for its front. */
  lemma SpacedStep(s: string, front: string, n: nat, rest: string)
    requires 1 <= n <= 2 && n <= |s|
    requires n == 1 ==> front == [s[0]] && !(|s| >= 2 && IsStop(s[0]) && IsLetterAscii(s[1]))
    requires n == 2 ==> front == [s[0], ' ', s[1]] && IsStop(s[0]) && IsLetterAscii(s[1])
    requires |s| > n ==> |rest| > 0 && rest[0] == s[n]
    requires |s| == n ==> rest == ""
    requires SpacesArePlain(s[n..]) ==> SpacesArePlain(rest)
    requires SpacedAfterStops(rest)
    requires CaseSeparated(s[n..]) ==> CaseSeparated(rest)
    ensures SpacesArePlain(s) ==> SpacesArePlain(front + rest)
    ensures SpacedAfterStops(front + rest)
    ensures CaseSeparated(s) ==> CaseSeparated(front + rest)
  {
    PlainSuffix(s, n);
    CaseSeparatedSuffix(s, n);
    assert front[|front| - 1] == s[n - 1];
    SpacesArePlainAppend(front, rest);
    SpacedAfterStopsAppend(front, rest);
    CaseSeparatedAppend(front, rest);
  }

  /** One step of `InsertPeriods` where no lower-case letter meets a capital. */
  lemma InsertPeriodsPlainFront(c: char, t: string)
    requires !(|t| > 0 && IsLowerAscii(c) && IsUpperAscii(t[0]))
    ensures InsertPeriods([c] + t) == [c] + InsertPeriods(t)
  {
    var s := [c] + t;
    assert s[0] == c && s[1..] == t;
    assert |s| >= 2 ==> s[1] == t[0];
  }

  /** One step of `InsertPeriods` where a lower-case letter meets a capital. */
  lemma InsertPeriodsPairFront(c: char, b: string)
    requires |b| > 0 && IsLowerAscii(c) && IsUpperAscii(b[0])
    ensures InsertPeriods([c] + b) == [c, '.', ' ', b[0]] + InsertPeriods(b[1..])
  {
    var s := [c] + b;
    assert s[0] == c && s[1] == b[0] && s[2..] == b[1..];
  }

  /** One step of `SpaceAfterStops` where no stop meets a letter. */
  lemma SpaceAfterStopsPlainFront(c: char, t: string)
    requires !(|t| > 0 && IsStop(c) && IsLetterAscii(t[0]))
    ensures SpaceAfterStops([c] + t) == [c] + SpaceAfterStops(t)
  {
    var s := [c] + t;
    assert s[0] == c && s[1..] == t;
    assert |s| >= 2 ==> s[1] == t[0];
  }

  /** One step of `SpaceAfterStops` where a stop meets a letter. */
  lemma SpaceAfterStopsPairFront(c: char, b: string)
    requires |b| > 0 && IsStop(c) && IsLetterAscii(b[0])
    ensures SpaceAfterStops([c] + b) == [c, ' ', b[0]] + SpaceAfterStops(b[1..])
  {
    var s := [c] + b;
    assert s[0] == c && s[1] == b[0] && s[2..] == b[1..];
  }

  lemma Uncons(a: string, b: string)
    requires |a| > 0
    ensures a + b == [a[0]] + (a[1..] + b) && (|a| > 1 ==> (a[1..] + b)[0] == a[1])
  {
  }

  lemma Recons(a: string, sep: string, b: string)
    requires |a| > 0
    ensures [a[0]] + (a[1..] + sep + b) == a + sep + b
  {
  }

  lemma Rejoin(c: char, sep: string, b: string)
    requires |b| > 0
    ensures [c] + sep + [b[0]] + b[1..] == [c] + sep + b
  {
  }

  /** Text with no lower-case letter running into a capital is left as it is. */
  lemma {:induction false} InsertPeriodsKeepsSeparated(s: string)
    requires CaseSeparated(s)
    ensures InsertPeriods(s) == s
    decreases |s|
  {
    if |s| > 0 {
      var t := s[1..];
      assert s == [s[0]] + t;
      assert |t| > 0 ==> t[0] == s[1];
      InsertPeriodsPlainFront(s[0], t);
      CaseSeparatedSuffix(s, 1);
      InsertPeriodsKeepsSeparated(t);
    }
  }

  /** Text with a space after every stop that precedes a letter is left as it is. */
  lemma {:induction false} SpaceAfterStopsKeepsSpaced(s: string)
    requires SpacedAfterStops(s)
    ensures SpaceAfterStops(s) == s
    decreases |s|
  {
    if |s| > 0 {
      var t := s[1..];
      assert s == [s[0]] + t;
      assert |t| > 0 ==> t[0] == s[1];
      SpaceAfterStopsPlainFront(s[0], t);
      SpacedSuffix(s, 1);
      SpaceAfterStopsKeepsSpaced(t);
    }
  }

  /** Where a lower-case letter meets a capital, and nowhere else, the
      text gets a period and a space. */
  lemma {:induction false} InsertPeriodsAtSeam(a: string, b: string)
    requires |a| > 0 && |b| > 0 && IsLowerAscii(a[|a| - 1]) && IsUpperAscii(b[0])
    requires CaseSeparated(a) && CaseSeparated(b)
    ensures InsertPeriods(a + b) == a + ". " + b
    decreases |a|
  {
    if |a| == 1 {
      assert a == [a[0]];
      InsertPeriodsAtSeamOne(a[0], b);
    } else {
      Uncons(a, b);
      CaseSeparatedSuffix(a, 1);
      InsertPeriodsAtSeam(a[1..], b);
      InsertPeriodsPlainFront(a[0], a[1..] + b);
      Recons(a, ". ", b);
    }
  }

  lemma InsertPeriodsAtSeamOne(c: char, b: string)
    requires |b| > 0 && IsLowerAscii(c) && IsUpperAscii(b[0]) && CaseSeparated(b)
    ensures InsertPeriods([c] + b) == [c] + ". " + b
  {
    InsertPeriodsPairFront(c, b);
    CaseSeparatedSuffix(b, 1);
    InsertPeriodsKeepsSeparated(b[1..]);
    Rejoin(c, ". ", b);
    assert [c, '.', ' ', b[0]] == [c] + ". " + [b[0]];
  }

  /** Where a period or comma meets a letter, and nowhere else, the text
      gets a space. */
  lemma {:induction false} SpaceAfterStopsAtSeam(a: string, b: string)
    requires |a| > 0 && |b| > 0 && IsStop(a[|a| - 1]) && IsLetterAscii(b[0])
    requires SpacedAfterStops(a) && SpacedAfterStops(b)
    ensures SpaceAfterStops(a + b) == a + " " + b
    decreases |a|
  {
    if |a| == 1 {
      assert a == [a[0]];
      SpaceAfterStopsAtSeamOne(a[0], b);
    } else {
      Uncons(a, b);
      SpacedSuffix(a, 1);
      SpaceAfterStopsAtSeam(a[1..], b);
      SpaceAfterStopsPlainFront(a[0], a[1..] + b);
      Recons(a, " ", b);
    }
  }

  lemma SpaceAfterStopsAtSeamOne(c: char, b: string)
    requires |b| > 0 && IsStop(c) && IsLetterAscii(b[0]) && SpacedAfterStops(b)
    ensures SpaceAfterStops([c] + b) == [c] + " " + b
  {
    SpaceAfterStopsPairFront(c, b);
    SpacedSuffix(b, 1);
    SpaceAfterStopsKeepsSpaced(b[1..]);
    Rejoin(c, " ", b);
    assert [c, ' ', b[0]] == [c] + " " + [b[0]];
  }

  /** `cleanFDAText(text)`: a missing or empty text gives ""; otherwise the
      result has no white space at either end, only single plain spaces
      inside, a space after every period or comma that precedes a
      letter, and no lower-case letter running into a capital. */
  function CleanFdaText(text: Option<string>): (r: string)
    ensures text.None? || text.value == "" ==> r == ""
    ensures Tidy(r) && SpacedAfterStops(r) && CaseSeparated(r)
    ensures text.Some? ==> |r| <= |SpaceAfterStops(InsertPeriods(CollapseSpaces(StripFences(text.value))))|
  {
    if text.None? || text.value == "" then ""
    else
      var c := SpaceAfterStops(InsertPeriods(CollapseSpaces(StripFences(text.value))));
      var r := Trim(c);
      var i, j :| 0 <= i <= j <= |c| && r == c[i..j] && AllSpace(c[..i]) && AllSpace(c[j..]);
      SliceSpacesArePlain(c, i, j);
      SeparatedSlice(c, i, j);
      r
  }

  /** Text that is already clean (tidy spacing, spaced stops, separated
      case, no backtick) comes out of `cleanFDAText` as it went in. */
  lemma CleanTextKept(t: string)
    requires t != "" && '`' !in t
    requires Tidy(t) && SpacedAfterStops(t) && CaseSeparated(t)
    ensures CleanFdaText(Some(t)) == t
  {
    CollapseSpacesKeepsPlain(t);
    InsertPeriodsKeepsSeparated(t);
    SpaceAfterStopsKeepsSpaced(t);
    TrimOfTrimmed(t);
  }

  /** A clean body inside a JSON fence comes out as the body: the fence
      markers are all that is removed. */
  lemma CleanFencedBody(b: string)
    requires b != "" && '`' !in b
    requires Tidy(b) && SpacedAfterStops(b) && CaseSeparated(b)
    ensures CleanFdaText(Some("```json" + b + "```")) == b
  {
    StripJsonFence(b);
    CleanTextKept(b);
  }
}
