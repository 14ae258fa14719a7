/** `safeJsonIn` (extension/popup.js:275-283): picks the JSON candidate out
    of a model's reply with the greedy pattern `/\{[\s\S]*\}/` and hands it to
    `JSON.parse`. The parser is a parameter: it returns `None` where
    `JSON.parse` throws. */
module Extract {
  import opened Wrappers
  import opened Json

  /** Index of the first occurrence of `c` in `s`. */
  function FirstIndex(s: string, c: char): (r: Option<nat>)
    ensures r.Some? ==> r.value < |s| && s[r.value] == c && c !in s[..r.value]
    ensures r.None? ==> c !in s
  {
    if |s| == 0 then None
    else if s[0] == c then Some(0)
    else
      var t := FirstIndex(s[1..], c);
      if t.None? then None
      else
        assert s[..t.value + 1] == [s[0]] + s[1..][..t.value];
        Some(t.value + 1)
  }

  /** Index of the last occurrence of `c` in `s`. */
  function LastIndex(s: string, c: char): (r: Option<nat>)
    ensures r.Some? ==> r.value < |s| && s[r.value] == c && c !in s[r.value + 1..]
    ensures r.None? ==> c !in s
  {
    if |s| == 0 then None
    else if s[|s| - 1] == c then Some(|s| - 1)
    else
      var t := LastIndex(s[..|s| - 1], c);
      if t.None? then None
      else
        assert s[t.value + 1..] == s[..|s| - 1][t.value + 1..] + [s[|s| - 1]];
        t
  }

  /** Some `{` of `text` has a `}` somewhere after it. */
  predicate HasBracePair(text: string) {
    exists i, j :: 0 <= i < j < |text| && text[i] == '{' && text[j] == '}'
  }

  /** The substring the greedy pattern matches: from the first `{` to the
      last `}`, both included, when the last `}` comes after the first `{`.
      Braces are not balanced: `{a} x {b}` yields the whole string. */
  function JsonCandidate(text: string): (r: Option<string>)
    ensures r.None? <==> !HasBracePair(text)
    ensures r.Some? ==> exists i, j ::
      && 0 <= i < j < |text|
      && r.value == text[i..j + 1]
      && text[i] == '{' && '{' !in text[..i]
      && text[j] == '}' && '}' !in text[j + 1..]
  {
    var first := FirstIndex(text, '{');
    var last := LastIndex(text, '}');
    if first.Some? && last.Some? && first.value < last.value then
      Some(text[first.value..last.value + 1])
    else
      NoPairWhenOutOfOrder(text, first, last);
      None
  }

  lemma {:induction false} FirstIndexAtMost(s: string, c: char, i: nat)
    requires i < |s| && s[i] == c
    ensures FirstIndex(s, c).Some? && FirstIndex(s, c).value <= i
  {
    if s[0] != c {
      FirstIndexAtMost(s[1..], c, i - 1);
    }
  }

  lemma {:induction false} LastIndexAtLeast(s: string, c: char, j: nat)
    requires j < |s| && s[j] == c
    ensures LastIndex(s, c).Some? && LastIndex(s, c).value >= j
  {
    if s[|s| - 1] != c {
      LastIndexAtLeast(s[..|s| - 1], c, j);
    }
  }

  lemma NoPairWhenOutOfOrder(text: string, first: Option<nat>, last: Option<nat>)
    requires first == FirstIndex(text, '{') && last == LastIndex(text, '}')
    ensures HasBracePair(text) ==> first.Some? && last.Some? && first.value < last.value
  {
    if HasBracePair(text) {
      var i, j :| 0 <= i < j < |text| && text[i] == '{' && text[j] == '}';
      FirstIndexAtMost(text, '{', i);
      LastIndexAtLeast(text, '}', j);
    }
  }

  /** Text without `c` in front of `b` shifts the first `c` of `b`. */
  lemma {:induction false} FirstIndexSkipsPrefix(a: string, b: string, c: char)
    requires c !in a
    ensures FirstIndex(a + b, c) ==
      (if FirstIndex(b, c).Some? then Some(FirstIndex(b, c).value + |a|) else None)
  {
    if |a| > 0 {
      assert (a + b)[1..] == a[1..] + b;
      FirstIndexSkipsPrefix(a[1..], b, c);
    } else {
      assert a + b == b;
    }
  }

  /** Text without `c` after `a` leaves the last `c` of `a` where it was. */
  lemma {:induction false} LastIndexSkipsSuffix(a: string, b: string, c: char)
    requires c !in b
    ensures LastIndex(a + b, c) == LastIndex(a, c)
  {
    if |b| > 0 {
      var n := |a + b|;
      assert (a + b)[..n - 1] == a + b[..|b| - 1];
      assert (a + b)[n - 1] == b[|b| - 1];
      LastIndexSkipsSuffix(a, b[..|b| - 1], c);
    } else {
      assert a + b == a;
    }
  }

  /** `safeJsonIn(text)`: `null` when there is no candidate or the parser
      rejects it; otherwise the parsed candidate. */
  function SafeJsonIn(text: string, parse: string -> Option<Json>): (r: Option<Json>)
    ensures !HasBracePair(text) ==> r.None?
    ensures r.Some? ==> JsonCandidate(text).Some? && r == parse(JsonCandidate(text).value)
    ensures JsonCandidate(text).Some? ==> r == parse(JsonCandidate(text).value)
    ensures JsonCandidate(text).None? ==> r.None?
  {
    var m := JsonCandidate(text);
    if m.None? then None else parse(m.value)
  }

  /** The candidate ignores everything outside the outermost braces: text
      added before the first `{` or after the last `}` that contains no
      braces of its own leaves the candidate unchanged. */
  lemma {:induction false} CandidateIgnoresSurroundings(pre: string, body: string, post: string)
    requires '{' !in pre && '}' !in post && '{' !in post && '}' !in pre
    requires |body| >= 2 && body[0] == '{' && body[|body| - 1] == '}'
    ensures JsonCandidate(pre + body + post) == Some(body)
  {
    var t := pre + body + post;
    FirstIndexSkipsPrefix(pre, body + post, '{');
    assert t == pre + (body + post);
    LastIndexSkipsSuffix(pre + body, post, '}');
    assert (pre + body)[|pre + body| - 1] == '}';
    assert t[|pre|..|pre| + |body|] == body;
  }
}
