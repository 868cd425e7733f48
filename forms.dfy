/** Form-field decoding shared by the routes. */
module Forms {
  import opened Common
  import opened JsString
  import opened JsNumber

  /** The zod schema `z.string().transform(v => isNaN(parseInt(v)) ? null : parseInt(v))`
      applied to a form field: `None` when the field is missing (or not a
      string) and when parseInt gives NaN. */
  function ParseIdField(field: Option<string>): (r: Option<int>)
    ensures field.None? ==> r.None?
    ensures field.Some? ==> r == ParseInt(field.value)
  {
    if field.None? then None else ParseInt(field.value)
  }

  /** `z.string().trim().min(lo).max(hi)`: the trimmed value when its length
      is within the bounds. */
  predicate TrimmedWithin(s: string, lo: nat, hi: nat) {
    lo <= |Trim(s)| <= hi
  }

  /** JavaScript truthiness of the session's `user` number (`session.data.user ? … : …`):
      absent and 0 are falsy. */
  predicate Truthy(v: Option<int>) {
    v.Some? && v.value != 0
  }

  /** A numeric id, written in decimal, is read back by the id field decoder. */
  lemma ParseIdFieldOfId(id: int)
    ensures ParseIdField(Some(IntToString(id))) == Some(id)
  {
    ParseIntOfIntToString(id, []);
    assert IntToString(id) + [] == IntToString(id);
  }
}
