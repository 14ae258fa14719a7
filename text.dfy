/** The JavaScript string operations the popup relies on: `trim`, ASCII
    lower-casing, `includes`, `replaceAll` of one character, `join` and the
    whitespace-collapsing replacement `/\s+/g -> " "`. */
module Text {

  /** A character matched by JavaScript's `\s` and removed by `trim`:
      the white-space and line-terminator characters of ECMAScript. */
  predicate IsJsSpace(c: char) {
    c == '\t' || c == '\n' || c == '\U{B}' || c == '\U{C}' || c == '\r' || c == ' '
    || c == '\U{A0}' || c == '\U{1680}' || ('\U{2000}' <= c <= '\U{200A}')
    || c == '\U{2028}' || c == '\U{2029}' || c == '\U{202F}' || c == '\U{205F}'
    || c == '\U{3000}' || c == '\U{FEFF}'
  }

  predicate AllSpace(s: string) {
    forall k :: 0 <= k < |s| ==> IsJsSpace(s[k])
  }

  /** A string as `trim` leaves it: no white space at either end. */
  predicate Trimmed(s: string) {
    |s| > 0 ==> !IsJsSpace(s[0]) && !IsJsSpace(s[|s| - 1])
  }

  /** The first index at or after `i` whose character is not white space
      (`|s|` when there is none). */
  function FirstVisible(s: string, i: nat): (n: nat)
    requires i <= |s|
    ensures i <= n <= |s|
    ensures forall k :: i <= k < n ==> IsJsSpace(s[k])
    ensures n < |s| ==> !IsJsSpace(s[n])
    decreases |s| - i
  {
    if i < |s| && IsJsSpace(s[i]) then FirstVisible(s, i + 1) else i
  }

  /** Going back from `j`, but not past `i`, over white space: the end of
      the last visible character after `i`. */
  function VisibleEnd(s: string, i: nat, j: nat): (n: nat)
    requires i <= j <= |s|
    ensures i <= n <= j
    ensures forall k :: n <= k < j ==> IsJsSpace(s[k])
    ensures n > i ==> !IsJsSpace(s[n - 1])
    decreases j
  {
    if j > i && IsJsSpace(s[j - 1]) then VisibleEnd(s, i, j - 1) else j
  }

  /** `s.trim()`: the result is the middle of `s` once the white space at
      both ends is cut off. */
  function Trim(s: string): (r: string)
    ensures Trimmed(r)
    ensures exists i, j :: 0 <= i <= j <= |s| && r == s[i..j] && AllSpace(s[..i]) && AllSpace(s[j..])
  {
    var i := FirstVisible(s, 0);
    var j := VisibleEnd(s, i, |s|);
    assert AllSpace(s[..i]) by {
      forall k | 0 <= k < i ensures s[..i][k] == s[k] { }
    }
    assert AllSpace(s[j..]) by {
      forall k | 0 <= k < |s| - j ensures s[j..][k] == s[j + k] { }
    }
    s[i..j]
  }

  /** `trim` leaves a trimmed string as it is. */
  lemma TrimOfTrimmed(s: string)
    requires Trimmed(s)
    ensures Trim(s) == s
  {
    if |s| > 0 {
      assert FirstVisible(s, 0) == 0;
      assert VisibleEnd(s, 0, |s|) == |s|;
      assert s[0..|s|] == s;
    }
  }

  /** `trim` of a string that starts with a visible character keeps it. */
  lemma TrimKeepsVisibleStart(s: string)
    requires |s| > 0 && !IsJsSpace(s[0])
    ensures |Trim(s)| > 0 && Trim(s)[0] == s[0]
  {
    assert FirstVisible(s, 0) == 0;
  }

  /** `trim` is fixed by its contract: a trimmed middle with nothing but
      white space around it is what `trim` returns. */
  lemma TrimUnique(s: string, i: nat, j: nat)
    requires i <= j <= |s|
    requires AllSpace(s[..i]) && AllSpace(s[j..]) && Trimmed(s[i..j])
    ensures Trim(s) == s[i..j]
  {
    forall k | 0 <= k < i ensures IsJsSpace(s[k]) { assert s[..i][k] == s[k]; }
    forall k | j <= k < |s| ensures IsJsSpace(s[k]) { assert s[j..][k - j] == s[k]; }
    if i == j {
      assert FirstVisible(s, 0) == |s|;
    } else {
      assert s[i] == s[i..j][0] && s[j - 1] == s[i..j][j - i - 1];
      assert FirstVisible(s, 0) == i;
      assert VisibleEnd(s, i, |s|) == j;
    }
  }

  /** `s.trim()` is empty exactly when `s` is all white space. */
  lemma TrimBlankIffAllSpace(s: string)
    ensures Trim(s) == "" <==> AllSpace(s)
  {
    var i, j :| 0 <= i <= j <= |s| && Trim(s) == s[i..j] && AllSpace(s[..i]) && AllSpace(s[j..]);
    if Trim(s) == "" {
      forall k | 0 <= k < |s| ensures IsJsSpace(s[k]) {
        if k < i { assert s[..i][k] == s[k]; } else { assert s[j..][k - j] == s[k]; }
      }
    }
    if AllSpace(s) {
      assert s[..|s|] == s;
      TrimUnique(s, |s|, |s|);
    }
  }

  /** White space added at the end does not change the trimmed text. */
  lemma TrimDropsTrailingSpace(x: string, y: string)
    requires AllSpace(y)
    ensures Trim(x + y) == Trim(x)
  {
    var s := x + y;
    var i := FirstVisible(x, 0);
    var j := VisibleEnd(x, i, |x|);
    assert forall k :: 0 <= k < |x| ==> s[k] == x[k];
    assert forall k :: |x| <= k < |s| ==> s[k] == y[k - |x|];
    var i' := FirstVisible(s, 0);
    if i == |x| {
      assert i' == |s|;
    } else {
      assert i' == i;
      assert VisibleEnd(s, i, |s|) == j;
      assert s[i..j] == x[i..j];
    }
  }

  /** A string that starts with a visible character and has another visible
      character at `m` is trimmed to a prefix that reaches past `m`. */
  lemma TrimKeepsFront(s: string, m: nat)
    requires m < |s| && !IsJsSpace(s[0]) && !IsJsSpace(s[m])
    ensures m < |Trim(s)| && Trim(s) == s[..|Trim(s)|]
  {
    assert FirstVisible(s, 0) == 0;
    var j := VisibleEnd(s, 0, |s|);
    assert m < j;
  }

  function LowerChar(c: char): char {
    if 'A' <= c <= 'Z' then (c as int - 'A' as int + 'a' as int) as char else c
  }

  /** `s.toLowerCase()` on the ASCII letters. */
  function LowerAscii(s: string): (r: string)
    ensures |r| == |s|
    ensures forall k :: 0 <= k < |s| ==> r[k] == LowerChar(s[k])
  {
    seq(|s|, k requires 0 <= k < |s| => LowerChar(s[k]))
  }

  /** Lower-casing a string without capitals changes nothing. */
  lemma LowerOfLower(s: string)
    requires forall k :: 0 <= k < |s| ==> !('A' <= s[k] <= 'Z')
    ensures LowerAscii(s) == s
  {
    var r := LowerAscii(s);
    forall k | 0 <= k < |s| ensures r[k] == s[k] { }
  }

  /** `hay.includes(needle)`. */
  predicate Contains(hay: string, needle: string) {
    exists i :: 0 <= i <= |hay| - |needle| && OccursAt(hay, needle, i)
  }

  predicate OccursAt(hay: string, needle: string, i: int) {
    0 <= i <= |hay| - |needle| && hay[i..i + |needle|] == needle
  }

  /** A regular expression test `/needle/i.test(hay)` for a lower-case ASCII
      literal `needle`: JavaScript folds case by upper-casing both sides and
      never folds a non-ASCII character onto an ASCII one. */
  predicate ContainsIgnoreCase(hay: string, needle: string) {
    Contains(LowerAscii(hay), needle)
  }

  /** `s.replaceAll(c, rep)` for a one-character pattern. */
  function ReplaceChar(s: string, c: char, rep: string): (r: string)
    decreases |s|
  {
    if |s| == 0 then "" else (if s[0] == c then rep else [s[0]]) + ReplaceChar(s[1..], c, rep)
  }

  lemma {:induction false} ReplaceCharAppend(a: string, b: string, c: char, rep: string)
    ensures ReplaceChar(a + b, c, rep) == ReplaceChar(a, c, rep) + ReplaceChar(b, c, rep)
    decreases |a|
  {
    if |a| > 0 {
      assert (a + b)[1..] == a[1..] + b;
      ReplaceCharAppend(a[1..], b, c, rep);
    } else {
      assert a + b == b;
    }
  }

  /** Replacing a character by a string that does not contain it leaves no
      occurrence of it, and every other character is kept in order. */
  lemma {:induction false} ReplaceCharRemoves(s: string, c: char, rep: string)
    requires c !in rep
    ensures c !in ReplaceChar(s, c, rep)
    ensures rep == " " && ' ' !in s ==> |ReplaceChar(s, c, rep)| == |s|
    decreases |s|
  {
    if |s| > 0 {
      ReplaceCharRemoves(s[1..], c, rep);
    }
  }

  /** `parts.join(sep)`. */
  function Join(parts: seq<string>, sep: string): string {
    if |parts| == 0 then ""
    else if |parts| == 1 then parts[0]
    else parts[0] + sep + Join(parts[1..], sep)
  }

  lemma {:induction false} JoinStartsWithFirst(parts: seq<string>, sep: string)
    requires |parts| > 0
    ensures |Join(parts, sep)| >= |parts[0]| && Join(parts, sep)[..|parts[0]|] == parts[0]
  {
  }

  /** `s.replace(/\s+/g, " ")`: every maximal run of white space becomes a
      single plain space. */
  function CollapseSpaces(s: string): (r: string)
    ensures |r| <= |s|
    ensures forall k :: 0 <= k < |r| && IsJsSpace(r[k]) ==> r[k] == ' '
    ensures forall k :: 0 <= k < |r| - 1 ==> !(r[k] == ' ' && r[k + 1] == ' ')
    ensures |r| > 0 <==> |s| > 0
    ensures |s| > 0 ==> (IsJsSpace(r[0]) <==> IsJsSpace(s[0]))
    decreases |s|
  {
    if |s| == 0 then ""
    else if IsJsSpace(s[0]) then " " + CollapseSpaces(SkipSpaces(s[1..]))
    else [s[0]] + CollapseSpaces(s[1..])
  }

  /** Drops the white space at the front of `s`. */
  function SkipSpaces(s: string): (r: string)
    ensures |r| <= |s|
    ensures |r| > 0 ==> !IsJsSpace(r[0])
  {
    if |s| > 0 && IsJsSpace(s[0]) then SkipSpaces(s[1..]) else s
  }

  /** `s` is a non-empty run of white space. */
  predicate SpaceRun(w: string) {
    |w| > 0 && AllSpace(w)
  }

  lemma {:induction false} SkipSpacesAppend(x: string, y: string)
    ensures SkipSpaces(x + y) == if SkipSpaces(x) == "" then SkipSpaces(y) else SkipSpaces(x) + y
    decreases |x|
  {
    if |x| == 0 {
      assert x + y == y;
    } else if IsJsSpace(x[0]) {
      assert (x + y)[1..] == x[1..] + y;
      SkipSpacesAppend(x[1..], y);
    }
  }

  lemma {:induction false} SkipAllSpace(w: string)
    requires AllSpace(w)
    ensures SkipSpaces(w) == ""
    decreases |w|
  {
    if |w| > 0 {
      assert AllSpace(w[1..]) by {
        forall k | 0 <= k < |w| - 1 ensures IsJsSpace(w[1..][k]) { assert w[1..][k] == w[k + 1]; }
      }
      SkipAllSpace(w[1..]);
    }
  }

  /** A run of white space of any length and kind collapses exactly like a
      single plain space. */
  lemma CollapseSpacesMergesRun(a: string, w: string, b: string)
    requires SpaceRun(w)
    ensures CollapseSpaces(a + w + b) == CollapseSpaces(a + " " + b)
  {
    assert a + w + b == a + (w + b);
    assert a + " " + b == a + (" " + b);
    MergesRunBehind(a, w, b);
  }

  lemma {:induction false} MergesRunBehind(a: string, w: string, b: string)
    requires SpaceRun(w)
    ensures CollapseSpaces(a + (w + b)) == CollapseSpaces(a + (" " + b))
    decreases |a|
  {
    if |a| == 0 {
      assert a + (w + b) == w + b && a + (" " + b) == " " + b;
      RunInFront(w, b);
    } else {
      FrontStep(a, w + b);
      FrontStep(a, " " + b);
      var y := SkipSpaces(a[1..]);
      if !IsJsSpace(a[0]) {
        MergesRunBehind(a[1..], w, b);
      } else if y == "" {
        SkipAllSpace(w);
        SkipSpacesAppend(w, b);
        SkipSpacesAppend(" ", b);
      } else {
        MergesRunBehind(y, w, b);
      }
    }
  }

  /** One step of the collapse at the front of `a + t`. */
  lemma FrontStep(a: string, t: string)
    requires |a| > 0
    ensures !IsJsSpace(a[0]) ==> CollapseSpaces(a + t) == [a[0]] + CollapseSpaces(a[1..] + t)
    ensures IsJsSpace(a[0]) ==>
              CollapseSpaces(a + t) == " " + CollapseSpaces(
                if SkipSpaces(a[1..]) == "" then SkipSpaces(t) else SkipSpaces(a[1..]) + t)
  {
    assert (a + t)[0] == a[0];
    assert (a + t)[1..] == a[1..] + t;
    SkipSpacesAppend(a[1..], t);
  }

  /** A string that starts with a white-space run collapses behind one space. */
  lemma RunInFront(w: string, b: string)
    requires SpaceRun(w)
    ensures CollapseSpaces(w + b) == CollapseSpaces(" " + b)
  {
    FrontStep(w, b);
    FrontStep(" ", b);
    assert AllSpace(w[1..]) by {
      forall k | 0 <= k < |w| - 1 ensures IsJsSpace(w[1..][k]) { assert w[1..][k] == w[k + 1]; }
    }
    SkipAllSpace(w[1..]);
  }

  /** Text whose spacing is already plain passes through unchanged. */
  lemma {:induction false} CollapseSpacesKeepsPlain(s: string)
    requires SpacesArePlain(s)
    ensures CollapseSpaces(s) == s
    decreases |s|
  {
    if |s| > 0 {
      var t := s[1..];
      SliceSpacesArePlain(s, 1, |s|);
      CollapseSpacesKeepsPlain(t);
      if IsJsSpace(s[0]) {
        assert |t| > 0 ==> !IsJsSpace(t[0]) by {
          if |t| > 0 { assert s[1] == t[0]; }
        }
      }
      assert s == [s[0]] + t;
    }
  }

  /** A string made of visible characters separated by single plain spaces,
      with no space at either end: what `.replace(/\s+/g, " ").trim()` yields. */
  predicate Tidy(s: string) {
    && Trimmed(s)
    && SpacesArePlain(s)
  }

  /** Every white-space character is a plain space and no two are adjacent. */
  predicate SpacesArePlain(s: string) {
    && (forall k :: 0 <= k < |s| && IsJsSpace(s[k]) ==> s[k] == ' ')
    && (forall k :: 0 <= k < |s| - 1 ==> !(s[k] == ' ' && s[k + 1] == ' '))
  }

  lemma SliceSpacesArePlain(c: string, i: nat, j: nat)
    requires i <= j <= |c| && SpacesArePlain(c)
    ensures SpacesArePlain(c[i..j])
  {
    var r := c[i..j];
    forall k | 0 <= k < |r| ensures r[k] == c[i + k] { }
  }

  /** `s.replace(/\s+/g, " ").trim()`. */
  function Squish(s: string): (r: string)
    ensures Tidy(r)
  {
    var c := CollapseSpaces(s);
    var r := Trim(c);
    var i, j :| 0 <= i <= j <= |c| && r == c[i..j] && AllSpace(c[..i]) && AllSpace(c[j..]);
    SliceSpacesArePlain(c, i, j);
    r
  }
}
