/**
 * Values shared by every module: an optional value (JavaScript `null` /
 * `undefined`) and the truthiness tests the TypeScript code applies to
 * nullable columns.
 */
module Common {

  datatype Option<T> = None | Some(value: T)

  /** `if (s)` on a nullable text value: null and "" are falsy. */
  predicate Truthy(s: Option<string>)
  {
    s.Some? && s.value != ""
  }

  /** `if (n)` on a nullable number: null and 0 are falsy. */
  predicate NumTruthy(n: Option<int>)
  {
    n.Some? && n.value != 0
  }

  /** `s || fallback` on a nullable text value. */
  function OrElse(s: Option<string>, fallback: string): string
  {
    if Truthy(s) then s.value else fallback
  }

  /** A non-empty sequence is its prefix followed by its last element. */
  lemma SplitLast<T>(s: seq<T>)
    requires |s| > 0
    ensures s == s[..|s| - 1] + [s[|s| - 1]]
  {
  }
}
