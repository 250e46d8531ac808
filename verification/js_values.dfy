/** JavaScript truthiness of the string-valued fields the program reads.
    A field that is missing (`undefined`), `null` or the empty string is
    falsy; every other string is truthy. */
module JsValues {
  import opened Wrappers

  predicate Truthy(o: Option<string>) {
    o.Some? && o.value != ""
  }

  /** The expression `o || fallback` for a string-or-absent `o`. */
  function Or(o: Option<string>, fallback: string): (r: string)
    ensures Truthy(o) ==> r == o.value
    ensures !Truthy(o) ==> r == fallback
  {
    if Truthy(o) then o.value else fallback
  }
}
