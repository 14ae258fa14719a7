/** `fetchOpenFDAFull` (extension/popup.js:534-577): takes the first label
    record one of the query attempts returns, then assembles a text snippet
    from a fixed, ordered list of label fields. The HTTP requests are not
    modelled: each attempt is given as the value of `data?.results?.[0]`
    it produced, or `None` when the response was not ok, the request or the
    JSON decoding threw, or there was no first result. */
module Label {
  import opened Wrappers
  import opened Json
  import opened Text

  /** `firstOk(urls)`: tries the attempts in order and returns the first
      truthy row; `consulted` counts the attempts that were made, so the
      attempts after the one that succeeded are never made. */
  method FirstOk(attempts: seq<Option<Json>>) returns (row: Option<Json>, consulted: nat)
    ensures consulted <= |attempts|
    ensures row.None? <==> forall k :: 0 <= k < |attempts| ==> !TruthyOpt(attempts[k])
    ensures row.None? ==> consulted == |attempts|
    ensures row.Some? ==> 0 < consulted && row == attempts[consulted - 1] && Truthy(row.value)
    ensures row.Some? ==> forall k :: 0 <= k < consulted - 1 ==> !TruthyOpt(attempts[k])
  {
    var i := 0;
    while i < |attempts|
      invariant 0 <= i <= |attempts|
      invariant forall k :: 0 <= k < i ==> !TruthyOpt(attempts[k])
    {
      var r := attempts[i];
      if TruthyOpt(r) {
        return r, i + 1;
      }
      i := i + 1;
    }
    return None, i;
  }

  /** The label sections collected, in this order. */
  const Fields: seq<string> := [
    "warnings",
    "warnings_and_cautions",
    "contraindications",
    "precautions",
    "drug_interactions",
    "adverse_reactions",
    "indications_and_usage"
  ]

  /** `f.replaceAll("_", " ")`. */
  function FieldLabel(f: string): string {
    ReplaceChar(f, '_', " ")
  }

  /** `Array.isArray(v) && v[0]` for `v = row[f]`. */
  predicate Present(row: Json, f: string) {
    var v := Get(row, f);
    v.Some? && v.value.JArr? && |v.value.items| > 0 && Truthy(v.value.items[0])
  }

  /** The line a present field contributes: `${label}: ${v[0]}`. */
  function PartFor(row: Json, f: string): string
    requires Present(row, f)
  {
    FieldLabel(f) + ": " + ToJsString(Get(row, f).value.items[0])
  }

  /** The lines the present fields among `fs` contribute, in the order of `fs`. */
  function SnippetParts(row: Json, fs: seq<string>): (parts: seq<string>)
    ensures |parts| <= |fs|
  {
    if |fs| == 0 then []
    else
      var last := fs[|fs| - 1];
      SnippetParts(row, fs[..|fs| - 1]) + (if Present(row, last) then [PartFor(row, last)] else [])
  }

  /** `row.description?.[0] || null`: the first entry of a description
      array (the first character of a description string), kept as the raw
      value. It is not printed, so it may be a number or an object. */
  function DescriptionFallback(row: Json): (d: Option<Json>)
    ensures d.Some? ==> Truthy(d.value)
    ensures var v := Get(row, "description");
            v.Some? && v.value.JArr? ==>
              d == (if |v.value.items| > 0 && Truthy(v.value.items[0]) then Some(v.value.items[0]) else None)
    ensures var v := Get(row, "description");
            v.Some? && v.value.JStr? ==> d == (if v.value.s != "" then Some(JStr([v.value.s[0]])) else None)
    ensures Get(row, "description").None? ==> d.None?
  {
    var d := Index0(Get(row, "description"));
    if TruthyOpt(d) then d else None
  }

  /** The snippet `fetchOpenFDAFull` returns for a found row: the trimmed
      blank-line join of the field lines, or the description fallback when
      that text is empty. */
  function SnippetOf(row: Json): (snippet: Option<Json>)
    ensures snippet.Some? ==> Truthy(snippet.value)
    ensures SnippetParts(row, Fields) != [] ==>
              snippet == Some(JStr(Trim(Join(SnippetParts(row, Fields), "\n\n"))))
    ensures SnippetParts(row, Fields) == [] ==> snippet == DescriptionFallback(row)
  {
    SnippetTextNotBlank(row, Fields);
    var text := Trim(Join(SnippetParts(row, Fields), "\n\n"));
    if text != "" then Some(JStr(text)) else DescriptionFallback(row)
  }

  /** The snippet assembly of `fetchOpenFDAFull` for a found row. */
  method AssembleSnippet(row: Json) returns (snippet: Option<Json>)
    ensures snippet == SnippetOf(row)
    ensures SnippetParts(row, Fields) != [] ==>
              snippet == Some(JStr(Trim(Join(SnippetParts(row, Fields), "\n\n"))))
    ensures SnippetParts(row, Fields) == [] ==> snippet == DescriptionFallback(row)
  {
    var parts: seq<string> := [];
    for i := 0 to |Fields|
      invariant parts == SnippetParts(row, Fields[..i])
    {
      var f := Fields[i];
      assert Fields[..i + 1][..i] == Fields[..i];
      if Present(row, f) {
        parts := parts + [PartFor(row, f)];
      }
    }
    assert Fields[..|Fields|] == Fields;
    var joined := Trim(Join(parts, "\n\n"));
    if joined != "" {
      snippet := Some(JStr(joined));
    } else {
      snippet := DescriptionFallback(row);
    }
  }

  /** The index of the first attempt that yields a truthy row, or the number
      of attempts when none does. */
  function FirstTruthy(attempts: seq<Option<Json>>): (k: nat)
    ensures k <= |attempts|
    ensures forall j :: 0 <= j < k ==> !TruthyOpt(attempts[j])
    ensures k < |attempts| ==> TruthyOpt(attempts[k])
  {
    if |attempts| == 0 then 0
    else if TruthyOpt(attempts[0]) then 0
    else
      var k := FirstTruthy(attempts[1..]);
      assert forall j :: 1 <= j < k + 1 ==> attempts[j] == attempts[1..][j - 1];
      k + 1
  }

  /** What `fetchOpenFDAFull` returns as `snippet`: null when no attempt
      yields a row, otherwise the snippet of the first row found. */
  function LabelSnippet(attempts: seq<Option<Json>>): Option<Json> {
    var k := FirstTruthy(attempts);
    if k == |attempts| then None else SnippetOf(attempts[k].value)
  }

  /** `fetchOpenFDAFull(drug)`: `{ snippet: null }` when no attempt yields a
      row, otherwise the assembled snippet of the first row found. */
  method FetchLabel(attempts: seq<Option<Json>>) returns (snippet: Option<Json>, consulted: nat)
    ensures snippet == LabelSnippet(attempts)
    ensures consulted == (if FirstTruthy(attempts) < |attempts| then FirstTruthy(attempts) + 1 else |attempts|)
    ensures consulted <= |attempts|
    ensures (forall k :: 0 <= k < |attempts| ==> !TruthyOpt(attempts[k])) ==> snippet.None?
    ensures snippet.Some? ==> exists k :: 0 <= k < consulted && TruthyOpt(attempts[k])
  {
    var row;
    row, consulted := FirstOk(attempts);
    var k := FirstTruthy(attempts);
    if row.None? {
      snippet := None;
    } else {
      assert consulted - 1 == k by {
        if consulted - 1 < k {
          assert TruthyOpt(attempts[consulted - 1]);
        }
      }
      snippet := AssembleSnippet(row.value);
    }
  }

  /** No present field means no line. */
  lemma {:induction false} NoPartsIffNoField(row: Json, fs: seq<string>)
    ensures SnippetParts(row, fs) == [] <==> forall k :: 0 <= k < |fs| ==> !Present(row, fs[k])
  {
    if |fs| > 0 {
      var init := fs[..|fs| - 1];
      NoPartsIffNoField(row, init);
      assert forall k :: 0 <= k < |init| ==> init[k] == fs[k];
    }
  }

  /** A label keeps the first character of a field name without `_`. */
  lemma FieldLabelStart(f: string)
    requires |f| > 0 && f[0] != '_'
    ensures |FieldLabel(f)| > 0 && FieldLabel(f)[0] == f[0]
  {
  }

  /** Labels have no underscore left. */
  lemma FieldLabelHasNoUnderscore(f: string)
    ensures '_' !in FieldLabel(f)
  {
    ReplaceCharRemoves(f, '_', " ");
  }

  /** Every line assembled from the field list starts with a visible character. */
  lemma {:induction false} PartsStartVisible(row: Json, fs: seq<string>)
    requires forall k :: 0 <= k < |fs| ==> |fs[k]| > 0 && 'a' <= fs[k][0] <= 'z'
    ensures forall k :: 0 <= k < |SnippetParts(row, fs)| ==>
              |SnippetParts(row, fs)[k]| > 0 && !IsJsSpace(SnippetParts(row, fs)[k][0])
  {
    if |fs| > 0 {
      var last := fs[|fs| - 1];
      PartsStartVisible(row, fs[..|fs| - 1]);
      FieldLabelStart(last);
    }
  }

  /** When some field is present, the trimmed, joined text is not blank, so
      the description fallback is never reached. */
  lemma SnippetTextNotBlank(row: Json, fs: seq<string>)
    requires fs == Fields
    ensures SnippetParts(row, fs) != [] ==> Trim(Join(SnippetParts(row, fs), "\n\n")) != ""
  {
    var parts := SnippetParts(row, fs);
    if parts != [] {
      PartsStartVisible(row, fs);
      var text := Join(parts, "\n\n");
      JoinStartsWithFirst(parts, "\n\n");
      assert text[0] == parts[0][0];
      TrimKeepsVisibleStart(text);
    }
  }

  /** A record in which exactly two of the listed fields are present yields
      exactly those two lines, in the order of the field list (for instance
      `warnings` then `drug_interactions`); no other field shows up. */
  lemma TwoFieldsInOrder(row: Json, fs: seq<string>, i: nat, j: nat)
    requires i < j < |fs|
    requires forall k :: 0 <= k < |fs| ==> (Present(row, fs[k]) <==> k == i || k == j)
    ensures SnippetParts(row, fs) == [PartFor(row, fs[i]), PartFor(row, fs[j])]
  {
    TwoFieldsPrefix(row, fs, i, j, |fs|);
    assert fs[..|fs|] == fs;
  }

  lemma {:induction false} TwoFieldsPrefix(row: Json, fs: seq<string>, i: nat, j: nat, n: nat)
    requires i < j < |fs| && n <= |fs|
    requires forall k :: 0 <= k < |fs| ==> (Present(row, fs[k]) <==> k == i || k == j)
    ensures SnippetParts(row, fs[..n]) ==
              if n <= i then [] else if n <= j then [PartFor(row, fs[i])]
              else [PartFor(row, fs[i]), PartFor(row, fs[j])]
  {
    if n == 0 {
      assert fs[..0] == [];
    } else {
      TwoFieldsPrefix(row, fs, i, j, n - 1);
      PrefixStep(row, fs, n - 1);
    }
  }

  /** One step of the field loop. */
  lemma PrefixStep(row: Json, fs: seq<string>, i: nat)
    requires i < |fs|
    ensures SnippetParts(row, fs[..i + 1]) == SnippetParts(row, fs[..i])
              + (if Present(row, fs[i]) then [PartFor(row, fs[i])] else [])
  {
    assert fs[..i + 1][..i] == fs[..i];
  }
}
