/** The two PHP language rules the adapter's decisions depend on. */
module Php {
  import opened Wrappers

  /**
   * PHP's `empty()` applied to a `null|string`: `null`, `""` and `"0"` are
   * empty, every other string is not.
   */
  predicate IsEmpty(s: Option<string>) {
    s == None || s == Some("") || s == Some("0")
  }

  /** `empty()` on a value declared `string` (never null). */
  predicate IsEmptyString(s: string) {
    IsEmpty(Some(s))
  }

  /** PHP's `(string)` cast of a `null|string`: null becomes `""`. */
  function ToString(s: Option<string>): (r: string)
    ensures s.Some? ==> r == s.value
    ensures s.None? ==> r == ""
  {
    s.GetOr("")
  }
}
