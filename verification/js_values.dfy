/** JavaScript value conventions the backend relies on: optional values
    (`undefined`/`null`), the truthiness of strings used by `||` and `!x`
    guards, and `String.prototype.length`, which counts UTF-16 code units. */
module JsValues {

  /** A value that may be `undefined` or `null` on the JavaScript side. */
  datatype Option<+T> = None | Some(value: T) {
    function GetOr(default: T): T {
      match this
      case Some(v) => v
      case None => default
    }
  }

  /** Success or a failure value; used for the database callbacks that
      either resolve or reject. */
  datatype Result<+T, +E> = Ok(value: T) | Err(error: E)

  /** A string-valued field is truthy when it is present and not "". */
  predicate Truthy(s: Option<string>) {
    s.Some? && s.value != ""
  }

  /** `s || fallback` for a string-valued field: the result is one of the
      two, and it is empty only when neither offers a non-empty string. */
  function OrElse(s: Option<string>, fallback: string): (r: string)
    ensures Some(r) == s || r == fallback
    ensures r == "" <==> !Truthy(s) && fallback == ""
  {
    if Truthy(s) then s.value else fallback
  }

  /** `s || null` for a string-valued field: "" collapses to null, so a
      present result is never empty. */
  function OrNull(s: Option<string>): (r: Option<string>)
    ensures r == s || r.None?
    ensures r.Some? ==> r.value != ""
  {
    if Truthy(s) then s else None
  }

  /** `s.includes(sub)`: `sub` is a prefix of `s` or of one of its
      suffixes. */
  predicate Includes(s: string, sub: string)
    decreases |s|
  {
    (|sub| <= |s| && s[..|sub|] == sub) || (s != [] && Includes(s[1..], sub))
  }

  /** Number of UTF-16 code units one character occupies. */
  function Utf16Units(c: char): nat {
    if c as int > 0xFFFF then 2 else 1
  }

  /** JavaScript's `s.length`: characters outside the Basic Multilingual
      Plane count as two code units. */
  function Utf16Length(s: string): (n: nat)
    ensures |s| <= n <= 2 * |s|
    ensures n == 0 <==> s == ""
  {
    if s == [] then 0 else Utf16Length(s[..|s| - 1]) + Utf16Units(s[|s| - 1])
  }

  /** For text made only of Basic Multilingual Plane characters (every
      address alphabet in use is ASCII), the JavaScript length is the
      character count. */
  lemma {:induction false} BmpLength(s: string)
    requires forall i :: 0 <= i < |s| ==> s[i] as int <= 0xFFFF
    ensures Utf16Length(s) == |s|
  {
    if s != [] {
      BmpLength(s[..|s| - 1]);
    }
  }
}
