/** `normalizeAvailability` (extension/popup.js:103-114): the on-device
    model's availability answer, which comes either as a string or as an
    object, mapped to one of three states. */
module Availability {
  import opened Wrappers
  import opened Json

  datatype State = Unavailable | Downloading | Available

  /** `{ state, reason }`; only the object form's "no" answer carries a reason. */
  datatype Status = Status(state: State, reason: Option<Json>)

  /** `normalizeAvailability(av)`; `av` is None when the answer is undefined. */
  function NormalizeAvailability(av: Option<Json>): (r: Status)
    ensures av.Some? && av.value.JStr? ==>
              r.state == (if av.value.s == "unavailable" then Unavailable
                          else if av.value.s == "downloadable" then Downloading
                          else Available)
    ensures !(av.Some? && av.value.JStr?) ==>
              (r.state == Unavailable <==> GetOpt(av, "available") == Some(JStr("no")))
              && (r.state == Downloading <==> GetOpt(av, "available") == Some(JStr("after-download")))
    ensures r.reason.Some? ==> r.state == Unavailable && r.reason == GetOpt(av, "reason")
    ensures !(av.Some? && av.value.JStr?) && GetOpt(av, "available") == Some(JStr("no")) ==>
              r.reason == GetOpt(av, "reason")
    ensures r.state != Unavailable ==> r.reason.None?
  {
    if av.Some? && av.value.JStr? then
      var s := av.value.s;
      if s == "unavailable" then Status(Unavailable, None)
      else if s == "downloadable" then Status(Downloading, None)
      else Status(Available, None)
    else if GetOpt(av, "available") == Some(JStr("no")) then
      Status(Unavailable, GetOpt(av, "reason"))
    else if GetOpt(av, "available") == Some(JStr("after-download")) then
      Status(Downloading, None)
    else Status(Available, None)
  }

  /** Both forms of the answer agree: the string and the object spelling of
      "not available" and of "needs a download" map to the same state. */
  lemma FormsAgree()
    ensures NormalizeAvailability(Some(JStr("unavailable"))).state
         == NormalizeAvailability(Some(JObj(map["available" := JStr("no")]))).state
    ensures NormalizeAvailability(Some(JStr("downloadable"))).state
         == NormalizeAvailability(Some(JObj(map["available" := JStr("after-download")]))).state
  {
  }

  /** Anything the popup does not recognise counts as available, so the
      popup goes on to create a session. */
  lemma UnknownIsAvailable(av: Option<Json>)
    requires av.None? || (av.value.JStr? && av.value.s != "unavailable" && av.value.s != "downloadable")
                      || (!av.value.JStr? && !av.value.JObj?)
    ensures NormalizeAvailability(av) == Status(Available, None)
  {
  }
}
