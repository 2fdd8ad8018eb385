/** `RedactionType`: how sensitive information on a profile page is hidden. */
module RedactionTypes {
  import opened Wrappers
  import opened Text

  datatype RedactionType =
    | OVERLAY  // a solid box with a title drawn over the sensitive text
    | TEXT     // the sensitive text replaced by placeholder text

  /** `toString`: the constant's own name. */
  function RedactionTypeName(t: RedactionType): string {
    match t
    case OVERLAY => "OVERLAY"
    case TEXT => "TEXT"
  }

  /**
   * `get`: the value whose name equals the input ignoring case, or nothing. The values
   * are searched in declaration order.
   */
  function Get(input: string): (r: Option<RedactionType>)
    ensures r.Some? ==> EqualsIgnoreCase(RedactionTypeName(r.value), input)
    ensures r.None? ==> forall t: RedactionType :: !EqualsIgnoreCase(RedactionTypeName(t), input)
  {
    if EqualsIgnoreCase(RedactionTypeName(OVERLAY), input) then Some(OVERLAY)
    else if EqualsIgnoreCase(RedactionTypeName(TEXT), input) then Some(TEXT)
    else None
  }

  /** No input matches both names, so the order of the search does not matter. */
  lemma GetIsUnambiguous(input: string, t: RedactionType)
    requires EqualsIgnoreCase(RedactionTypeName(t), input)
    ensures Get(input) == Some(t)
  {
    assert ToLower("OVERLAY")[0] != ToLower("TEXT")[0];
  }

  /** Every value is found again from its name, and from its name in lower case. */
  lemma GetRoundTrip(t: RedactionType)
    ensures Get(RedactionTypeName(t)) == Some(t)
    ensures Get(ToLower(RedactionTypeName(t))) == Some(t)
  {
    ToLowerIdempotent(RedactionTypeName(t));
    GetIsUnambiguous(RedactionTypeName(t), t);
    GetIsUnambiguous(ToLower(RedactionTypeName(t)), t);
  }
}
