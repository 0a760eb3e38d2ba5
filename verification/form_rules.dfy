/** What the two submission forms share: error records keyed by field name, and the
    three-way length rule applied to every free-text field. */
module FormRules {
  import opened Wrappers
  import opened Text

  /** `Record<string, string>`: field name to error message. */
  type Errors = map<string, string>

  /** The checks in the order the forms make them: blank after trimming, then the raw
      `length` (in UTF-16 code units) below `min`, then above `max`. */
  function LengthRule(s: string, min: nat, max: nat, required: string, tooShort: string, tooLong: string): (r: Option<string>)
    requires min <= max
    ensures r.None? <==> !IsBlank(s) && min <= |Utf16(s)| <= max
    ensures r == Some(required) <== IsBlank(s)
    ensures r == Some(tooShort) <== !IsBlank(s) && |Utf16(s)| < min
    ensures r == Some(tooLong) <== !IsBlank(s) && |Utf16(s)| > max
  {
    if IsBlank(s) then Some(required)
    else if |Utf16(s)| < min then Some(tooShort)
    else if |Utf16(s)| > max then Some(tooLong)
    else None
  }

  /** Records the rule's message under `field`, if there is one. */
  function Record(errors: Errors, field: string, e: Option<string>): (r: Errors)
    ensures e.None? ==> r == errors
    ensures e.Some? ==> r == errors[field := e.value]
  {
    match e
    case None => errors
    case Some(msg) => errors[field := msg]
  }

  /** A field that passes the rule is, once trimmed, non-empty and at most `max` long. */
  lemma PassedFieldTrims(s: string, min: nat, max: nat, required: string, tooShort: string, tooLong: string)
    requires min <= max
    requires LengthRule(s, min, max, required, tooShort, tooLong).None?
    ensures Trim(s) != "" && |Utf16(Trim(s))| <= max
  {
    assert !IsBlank(s) && |Utf16(s)| <= max;
    var a, t := LeadingSpace(s), Trim(s);
    assert t == s[a..a + |t|];
    Utf16Slice(s, a, a + |t|);
  }

  /** Editing `field` clears its error if one is shown (a non-empty message is truthy);
      every other entry stays as it was. */
  function ClearError(errors: Errors, field: string): (r: Errors)
    ensures field in errors && errors[field] != "" ==> field !in r
    ensures !(field in errors && errors[field] != "") ==> r == errors
    ensures forall k :: k != field ==> (k in r <==> k in errors)
    ensures forall k :: k != field && k in errors ==> r[k] == errors[k]
    ensures r.Keys <= errors.Keys
  {
    if field in errors && errors[field] != "" then errors - {field} else errors
  }
}
