/** The name chosen from the photo model's answer (extension/popup.js:652-660):
    generic name, else brand name, else the first candidate, each lower-cased
    and trimmed. The picture upload and the model call are not modelled: the
    parsed answer is the input. */
module Photo {
  import opened Wrappers
  import opened Json
  import opened Text
  import opened Cascade

  /** What the photo handler ends with. `Failed` is the `catch` branch:
      calling `toLowerCase` on a truthy value that is not a string throws. */
  datatype Outcome = Detected(name: string) | NoName | Failed

  /** `lower(v)`: `(v || "").toLowerCase().trim()`; None when it throws. */
  function LowerName(v: Option<Json>): (r: Option<string>)
    ensures !TruthyOpt(v) ==> r == Some("")
    ensures TruthyOpt(v) ==> (r.Some? <==> v.value.JStr?)
    ensures TruthyOpt(v) && v.value.JStr? ==> r == Some(NormalizeField(v.value.s))
    ensures r.Some? ==> Trimmed(r.value) && NoCapitals(r.value)
  {
    if !TruthyOpt(v) then Some("")
    else if v.value.JStr? then
      LowerThenTrim(v.value.s);
      Some(Trim(LowerAscii(v.value.s)))
    else None
  }

  predicate NoCapitals(s: string) {
    forall k :: 0 <= k < |s| ==> !('A' <= s[k] <= 'Z')
  }

  /** `(parsed?.candidates || [])[0]`. */
  function FirstCandidate(parsed: Option<Json>): (c: Option<Json>)
    ensures !TruthyOpt(GetOpt(parsed, "candidates")) ==> c.None?
    ensures var v := GetOpt(parsed, "candidates");
            v.Some? && v.value.JArr? ==>
              c == (if |v.value.items| > 0 then Some(v.value.items[0]) else None)
    ensures var v := GetOpt(parsed, "candidates");
            TruthyOpt(v) && v.value.JStr? ==> c == Some(JStr([v.value.s[0]]))
    ensures var v := GetOpt(parsed, "candidates");
            v.Some? && (v.value.JBool? || v.value.JNum?) ==> c.None?
  {
    Index0(Some(Or(GetOpt(parsed, "candidates"), JArr([]))))
  }

  /** The `best` name, evaluated left to right as `||` does: a later field
      is looked at only when every earlier one gave "". */
  function BestName(parsed: Option<Json>): (r: Outcome)
    ensures r.Detected? ==> r.name != "" && Trimmed(r.name) && NoCapitals(r.name)
    // a generic name that throws aborts; one with visible text wins
    ensures LowerName(GetOpt(parsed, "generic")).None? ==> r == Failed
    ensures LowerName(GetOpt(parsed, "generic")).Some? && LowerName(GetOpt(parsed, "generic")).value != "" ==>
              r == Detected(LowerName(GetOpt(parsed, "generic")).value)
    ensures LowerName(GetOpt(parsed, "generic")) == Some("") ==>
              r == (match LowerName(GetOpt(parsed, "brand"))
                    case None => Failed
                    case Some(b) => if b != "" then Detected(b)
                                    else match LowerName(FirstCandidate(parsed))
                                         case None => Failed
                                         case Some(c) => if c != "" then Detected(c) else NoName)
    ensures r == NoName <==> (LowerName(GetOpt(parsed, "generic")) == Some("")
                              && LowerName(GetOpt(parsed, "brand")) == Some("")
                              && LowerName(FirstCandidate(parsed)) == Some(""))
  {
    match LowerName(GetOpt(parsed, "generic"))
    case None => Failed
    case Some(g) =>
      if g != "" then Detected(g)
      else match LowerName(GetOpt(parsed, "brand"))
        case None => Failed
        case Some(b) =>
          if b != "" then Detected(b)
          else match LowerName(FirstCandidate(parsed))
            case None => Failed
            case Some(c) => if c != "" then Detected(c) else NoName
  }

  /** A generic name with visible text wins, whatever the brand and the
      candidates say (even values that would have thrown). */
  lemma GenericWins(parsed: Option<Json>, generic: string)
    requires GetOpt(parsed, "generic") == Some(JStr(generic))
    requires NormalizeField(generic) != ""
    ensures BestName(parsed) == Detected(NormalizeField(generic))
  {
    var v := GetOpt(parsed, "generic");
    assert |NormalizeField(generic)| <= |generic|;
    assert TruthyOpt(v);
    assert LowerName(v) == Some(NormalizeField(generic));
  }

  /** The detected name is already in the form the analysis normalises the
      drug field to, so analysing it looks up exactly that name. */
  lemma DetectedIsNormal(parsed: Option<Json>)
    requires BestName(parsed).Detected?
    ensures NormalizeField(BestName(parsed).name) == BestName(parsed).name
  {
    var n := BestName(parsed).name;
    TrimOfTrimmed(n);
    LowerOfLower(n);
  }
}
