/**
 * What the request handlers read and what they report. A posted form field
 * is either absent or the string submitted; a handler's result is the
 * category of the flash message it shows, or the HTTP error it aborts with.
 */
module Web {
  import opened Wrappers

  /** One field of `request.form`: None when the field was not posted. */
  type Field = Option<string>

  /** The outcome of a request in place of its redirect and flash message. */
  datatype Outcome =
    | Success    // flash category "success"
    | Info       // flash category "info"
    | Warning    // flash category "warning"
    | Danger     // flash category "danger"
    | Forbidden  // abort(403)
    | NotFound   // abort(404)
    | Quiet      // a redirect that flashes nothing

  /**
   * `request.form.get(key) or ""`, which for a posted string is also
   * `request.form.get(key, "")`.
   */
  function Posted(field: Field): (r: string)
    ensures field.Some? ==> r == field.value
    ensures field.None? ==> r == ""
  {
    field.GetOr("")
  }
}
