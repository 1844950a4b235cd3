/** Shared vocabulary: optional values, the HTTP-level outcome of a controller
    action, and the few PHP string built-ins the controllers rely on. */
module Common {

  datatype Option<T> = None | Some(value: T)

  /** What a controller action answers, with the page rendering, JSON bodies and
      flash messages left out. */
  datatype Outcome =
    | Ok                // the action ran to completion (render, JSON or redirect to a success page)
    | NotFound          // 404: abort(404), findOrFail, or a route constraint that does not match
    | Forbidden         // 403: abort(403) or a role/permission middleware
    | Invalid           // 422: a validation rule failed
    | BadRequest        // 400
    | MethodNotAllowed  // 405
    | RedirectBack      // redirect()->back()->withErrors(...)
    | ServerError       // 500: an error escaped the action

  /** PHP's `empty()` on a string, which is also the falsiness used by `?:`:
      the empty string and "0" are empty. */
  predicate Empty(s: string) {
    s == "" || s == "0"
  }

  /** The characters PHP's `trim` strips. */
  predicate IsTrimmed(c: char) {
    c == ' ' || c == '\t' || c == '\n' || c == '\r' || c == '\0' || c == '\U{B}'
  }

  /** Laravel's `required` on a string: something is left after trimming. */
  predicate Filled(s: string) {
    exists i | 0 <= i < |s| :: !IsTrimmed(s[i])
  }

  predicate IsLowerAscii(c: char) { 'a' <= c <= 'z' }
  predicate IsUpperAscii(c: char) { 'A' <= c <= 'Z' }

  function UpperChar(c: char): char {
    if IsLowerAscii(c) then (c as int - 32) as char else c
  }

  function LowerChar(c: char): char {
    if IsUpperAscii(c) then (c as int + 32) as char else c
  }

  /** PHP 8's `ucfirst`: the first byte is upper-cased (ASCII only), the rest is kept. */
  function Ucfirst(s: string): (r: string)
    ensures |r| == |s|
    ensures |s| > 0 ==> r[0] == UpperChar(s[0]) && r[1..] == s[1..]
  {
    if s == [] then s else [UpperChar(s[0])] + s[1..]
  }

  /** PHP 8's `strtolower`: ASCII letters are lower-cased, every other character is kept. */
  function ToLower(s: string): (r: string)
    ensures |r| == |s|
    ensures forall i :: 0 <= i < |s| ==> r[i] == LowerChar(s[i])
  {
    if s == [] then [] else [LowerChar(s[0])] + ToLower(s[1..])
  }

  /** `needle` occurs as a contiguous piece of `hay` (SQL `LIKE '%needle%'`
      without wildcards inside the needle). */
  predicate Contains(hay: string, needle: string) {
    exists i | 0 <= i <= |hay| - |needle| :: OccursAt(hay, needle, i)
  }

  predicate OccursAt(hay: string, needle: string, i: int) {
    0 <= i <= |hay| - |needle| && hay[i..i + |needle|] == needle
  }

  /** `column LIKE '%s%'` under the database's default collation: an
      ASCII-case-insensitive substring test. */
  predicate Like(column: string, s: string) {
    Contains(ToLower(column), ToLower(s))
  }

  function DigitChar(d: nat): char
    requires d < 10
  {
    "0123456789"[d]
  }

  /** Decimal text of a natural number, as PHP interpolates an int. */
  function NatToString(n: nat): (r: string)
    ensures |r| > 0
    decreases n
  {
    if n < 10 then [DigitChar(n)] else NatToString(n / 10) + [DigitChar(n % 10)]
  }

  function IntToString(i: int): (r: string)
    ensures |r| > 0
  {
    if i < 0 then "-" + NatToString(-i) else NatToString(i)
  }
}
