/** Newline handling of the popup: `replace(/\n{2,}/g, "\n")` when the
    plain original text is built (extension/popup.js:453) and
    `split(/\n+/)` on a simplifier answer (extension/popup.js:704). */
module Lines {
  import opened Text

  /** No two newlines in a row. */
  predicate SingleNewlines(s: string) {
    forall k :: 0 <= k < |s| - 1 ==> !(s[k] == '\n' && s[k + 1] == '\n')
  }

  /** Drops the newlines at the front of `s`. */
  function SkipNewlines(s: string): (r: string)
    ensures |r| <= |s|
    ensures |r| > 0 ==> r[0] != '\n'
  {
    if |s| > 0 && s[0] == '\n' then SkipNewlines(s[1..]) else s
  }

  /** `s.replace(/\n{2,}/g, "\n")`: every run of newlines becomes one. */
  function CollapseNewlines(s: string): (r: string)
    ensures |r| <= |s|
    ensures SingleNewlines(r)
    ensures |s| > 0 ==> |r| > 0 && r[0] == s[0]
    decreases |s|
  {
    if |s| == 0 then ""
    else if s[0] == '\n' then "\n" + CollapseNewlines(SkipNewlines(s[1..]))
    else [s[0]] + CollapseNewlines(s[1..])
  }

  /** `s.split(/\n+/)`: the pieces between maximal runs of newlines; a
      leading or trailing run gives an empty first or last piece. Joining
      the pieces back with single newlines gives the text with its newline
      runs collapsed, so no character other than a newline is lost. */
  function SplitLines(s: string): (chunks: seq<string>)
    ensures |chunks| > 0
    ensures forall k :: 0 <= k < |chunks| ==> '\n' !in chunks[k]
    ensures '\n' !in s ==> chunks == [s]
    ensures Join(chunks, "\n") == CollapseNewlines(s)
    decreases |s|
  {
    if |s| == 0 then [""]
    else if s[0] == '\n' then
      var rest := SplitLines(SkipNewlines(s[1..]));
      JoinBehindEmpty(rest);
      [""] + rest
    else
      var rest := SplitLines(s[1..]);
      JoinExtendsFirst(s[0], rest);
      var chunks := [[s[0]] + rest[0]] + rest[1..];
      assert '\n' !in chunks[0];
      assert '\n' !in s ==> chunks == [s] by {
        if '\n' !in s {
          assert '\n' !in s[1..] by { forall c | c in s[1..] ensures c in s { } }
          assert [s[0]] + s[1..] == s;
        }
      }
      chunks
  }

  lemma {:induction false} JoinBehindEmpty(parts: seq<string>)
    requires |parts| > 0
    ensures Join([""] + parts, "\n") == "\n" + Join(parts, "\n")
  {
    assert ([""] + parts)[1..] == parts;
  }

  lemma {:induction false} JoinExtendsFirst(c: char, parts: seq<string>)
    requires |parts| > 0
    ensures Join([[c] + parts[0]] + parts[1..], "\n") == [c] + Join(parts, "\n")
  {
    var q := [[c] + parts[0]] + parts[1..];
    if |parts| > 1 {
      assert q[1..] == parts[1..];
    }
  }

  /** A newline-free piece followed by a newline is split off whole. */
  lemma {:induction false} SplitAtNewline(p: string, q: string)
    requires '\n' !in p
    ensures SplitLines(p + "\n" + q) == [p] + SplitLines(SkipNewlines(q))
    decreases |p|
  {
    var s := p + "\n" + q;
    if |p| == 0 {
      assert s == "\n" + q && s[1..] == q;
    } else {
      assert s[0] == p[0] && s[1..] == p[1..] + "\n" + q;
      assert '\n' !in p[1..] by { forall c | c in p[1..] ensures c in p { } }
      SplitAtNewline(p[1..], q);
      assert [p[0]] + p[1..] == p;
    }
  }

  /** Text with no doubled newline is left as it is. */
  lemma {:induction false} CollapseNewlinesKeepsSingle(s: string)
    requires SingleNewlines(s)
    ensures CollapseNewlines(s) == s
    decreases |s|
  {
    if |s| > 0 {
      var t := s[1..];
      assert SingleNewlines(t) by {
        forall k | 0 <= k < |t| - 1 ensures !(t[k] == '\n' && t[k + 1] == '\n') {
          assert t[k] == s[k + 1] && t[k + 1] == s[k + 2];
        }
      }
      CollapseNewlinesKeepsSingle(t);
      if s[0] == '\n' && |t| > 0 {
        assert t[0] == s[1];
      }
      assert s == [s[0]] + t;
    }
  }

  lemma {:induction false} SkipNewlinesAppend(x: string, y: string)
    ensures SkipNewlines(x + y) == if SkipNewlines(x) == "" then SkipNewlines(y) else SkipNewlines(x) + y
    decreases |x|
  {
    if |x| > 0 {
      assert (x + y)[0] == x[0];
      if x[0] == '\n' {
        assert (x + y)[1..] == x[1..] + y;
        SkipNewlinesAppend(x[1..], y);
      }
    } else {
      assert x + y == y;
    }
  }

  /** One step of the collapse at the front of `a + t`, for a visible first
      character and for a newline. */
  lemma CollapseVisibleFront(a: string, t: string)
    requires |a| > 0 && a[0] != '\n'
    ensures CollapseNewlines(a + t) == [a[0]] + CollapseNewlines(a[1..] + t)
  {
    assert (a + t)[0] == a[0];
    assert (a + t)[1..] == a[1..] + t;
  }

  lemma CollapseNewlineFront(a: string, t: string)
    requires |a| > 0 && a[0] == '\n'
    ensures CollapseNewlines(a + t) == "\n" + CollapseNewlines(SkipNewlines(a[1..] + t))
  {
    assert (a + t)[0] == a[0];
    assert (a + t)[1..] == a[1..] + t;
  }

  /** Collapsing distributes over a concatenation whose second part does
      not start with a newline. */
  lemma {:induction false} CollapseNewlinesAppend(a: string, b: string)
    requires |b| > 0 && b[0] != '\n'
    ensures CollapseNewlines(a + b) == CollapseNewlines(a) + CollapseNewlines(b)
    decreases |a|
  {
    if |a| == 0 {
      assert a + b == b;
    } else if a[0] != '\n' {
      VisibleFrontAppend(a, b);
    } else {
      NewlineFrontAppend(a, b);
    }
  }

  lemma {:induction false} VisibleFrontAppend(a: string, b: string)
    requires |a| > 0 && a[0] != '\n'
    requires |b| > 0 && b[0] != '\n'
    ensures CollapseNewlines(a + b) == CollapseNewlines(a) + CollapseNewlines(b)
    decreases |a|, 0
  {
    CollapseVisibleFront(a, b);
    CollapseNewlinesAppend(a[1..], b);
    var u, v := CollapseNewlines(a[1..]), CollapseNewlines(b);
    assert [a[0]] + (u + v) == ([a[0]] + u) + v;
  }

  lemma {:induction false} NewlineFrontAppend(a: string, b: string)
    requires |a| > 0 && a[0] == '\n'
    requires |b| > 0 && b[0] != '\n'
    ensures CollapseNewlines(a + b) == CollapseNewlines(a) + CollapseNewlines(b)
    decreases |a|, 0
  {
    CollapseNewlineFront(a, b);
    SkipNewlinesAppend(a[1..], b);
    var y := SkipNewlines(a[1..]);
    assert SkipNewlines(b) == b;
    assert SkipNewlines(a[1..] + b) == y + b;
    CollapseNewlinesAppend(y, b);
    var u, v := CollapseNewlines(y), CollapseNewlines(b);
    assert "\n" + (u + v) == ("\n" + u) + v;
  }

  /** A newline-free prefix passes through the collapse unchanged. */
  lemma {:induction false} CollapseNewlinesPlainPrefix(p: string, y: string)
    requires '\n' !in p
    ensures CollapseNewlines(p + y) == p + CollapseNewlines(y)
    decreases |p|
  {
    if |p| == 0 {
      assert p + y == y;
    } else {
      assert p[0] in p;
      CollapseVisibleFront(p, y);
      assert '\n' !in p[1..] by { forall c | c in p[1..] ensures c in p { } }
      CollapseNewlinesPlainPrefix(p[1..], y);
      assert [p[0]] + (p[1..] + CollapseNewlines(y)) == p + CollapseNewlines(y);
    }
  }

  /** Newline-free text is a fixpoint of the collapse. */
  lemma NewlineFreeKept(p: string)
    requires '\n' !in p
    ensures CollapseNewlines(p) == p
  {
    assert SingleNewlines(p) by {
      forall k | 0 <= k < |p| - 1 ensures p[k] != '\n' { assert p[k] in p; }
    }
    CollapseNewlinesKeepsSingle(p);
  }

  lemma SliceSingleNewlines(c: string, i: nat, j: nat)
    requires i <= j <= |c| && SingleNewlines(c)
    ensures SingleNewlines(c[i..j])
  {
    var r := c[i..j];
    forall k | 0 <= k < |r| ensures r[k] == c[i + k] { }
  }
}
