/** The few .NET behaviours the token pipeline relies on: nullable string
    references, `string.IsNullOrEmpty`, `string.IsNullOrWhiteSpace` and
    `HttpResponseMessage.IsSuccessStatusCode`. */
module Runtime {

  /** A reference that may be null: `None` stands for null. */
  datatype Option<+T> = None | Some(value: T) {
    /** The `??` operator: the value, or `default` when null. */
    function GetOr(default: T): T {
      match this
      case Some(v) => v
      case None => default
    }
  }

  /** A .NET `string`, which may be null. */
  type NullableString = Option<string>

  /** `string.IsNullOrEmpty`. */
  predicate IsNullOrEmpty(s: NullableString) {
    s.None? || |s.value| == 0
  }

  /** `char.IsWhiteSpace`: the Unicode space, line and paragraph separators
      plus the control characters U+0009 to U+000D and U+0085. */
  predicate IsWhiteSpace(c: char) {
    || ('\U{0009}' <= c <= '\U{000D}')
    || c == '\U{0020}' || c == '\U{0085}' || c == '\U{00A0}' || c == '\U{1680}'
    || ('\U{2000}' <= c <= '\U{200A}')
    || c == '\U{2028}' || c == '\U{2029}' || c == '\U{202F}' || c == '\U{205F}' || c == '\U{3000}'
  }

  /** `string.IsNullOrWhiteSpace` on a string that the caller has already
      coalesced from null to empty (`text ?? string.Empty`). */
  predicate IsNullOrWhiteSpace(s: string) {
    forall i :: 0 <= i < |s| ==> IsWhiteSpace(s[i])
  }

  /** `HttpResponseMessage.IsSuccessStatusCode`. */
  predicate IsSuccessStatusCode(status: int) {
    200 <= status <= 299
  }

  /** A C# `int`. */
  type Int32 = x: int | -0x8000_0000 <= x < 0x8000_0000

  /** `x - 1` in C#'s default unchecked arithmetic: the `int` congruent to
      `x - 1` modulo 2^32, so that `int.MinValue - 1` wraps to `int.MaxValue`. */
  function Decrement(x: Int32): (r: Int32)
    ensures (r - (x - 1)) % 0x1_0000_0000 == 0
    ensures r == x - 1 <==> x != -0x8000_0000
  {
    if x == -0x8000_0000 then 0x7FFF_FFFF else x - 1
  }

  /** `HttpStatusCode.Unauthorized`. */
  const Unauthorized: int := 401
}
