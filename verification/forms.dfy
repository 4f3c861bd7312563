/**
 * The pieces of the form schemas that the profile, registration and challenge forms share. A form
 * entry is absent or text; every rule rejects an absent entry, as `z.string()` rejects `undefined`.
 */
module Forms {
  import opened Results
  import opened Text

  /** `z.string().min(lo).max(hi)`: the length lies in `[lo, hi]`. */
  predicate LengthBetween(s: string, lo: nat, hi: nat) {
    lo <= |s| <= hi
  }

  /**
   * `z.string().trim().email()`: the trimmed text, when the email check accepts it. The check is
   * a parameter; it sees the text after trimming.
   */
  function Email(field: Option<string>, isEmail: string -> bool): (r: Option<string>)
    ensures r.Some? <==> field.Some? && isEmail(Trim(field.value))
    ensures r.Some? ==> r.value == Trim(field.value)
  {
    match field
    case None => None
    case Some(raw) => if isEmail(Trim(raw)) then Some(Trim(raw)) else None
  }

  /** An accepted email is accepted again unchanged: the trim is idempotent. */
  lemma EmailStable(field: Option<string>, isEmail: string -> bool)
    requires Email(field, isEmail).Some?
    ensures Email(Some(Email(field, isEmail).value), isEmail) == Email(field, isEmail)
  {
    TrimIdempotent(field.value);
  }
}
