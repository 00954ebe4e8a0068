/** JavaScript values that the modelled code relies on. */
module Js {

  /** One UTF-16 code unit: the unit that a JavaScript string's `length` and `slice` count in. */
  newtype CodeUnit = x: int | 0 <= x < 0x1_0000

  /**
   * A JavaScript string as a sequence of UTF-16 code units. Strings that the modelled code
   * only compares for equality or tests digit by digit (ids, owners, media types, section
   * titles, object keys) stay Dafny `string`s: equality does not depend on the encoding,
   * and digits are single code units either way. Only text whose length is counted, the
   * excerpt, needs the code units.
   */
  type JsString = seq<CodeUnit>

  datatype Option<+T> = None | Some(value: T)

  /** A property read that may produce `undefined`, `null` or a value. */
  datatype Nullable<+T> = Undefined | Null | Defined(value: T)

  function Min(a: int, b: int): int {
    if a <= b then a else b
  }

  /** A leading (high) surrogate: the first code unit of a character outside the Basic Multilingual Plane. */
  predicate IsHighSurrogate(u: CodeUnit) {
    0xD800 <= u as int <= 0xDBFF
  }

  /**
   * How `String.prototype.slice` resolves one of its arguments against a string of
   * length `len`: a negative index counts from the end, and the result is clamped to [0, len].
   */
  function ClampIndex(i: int, len: nat): (r: nat)
    ensures r <= len
    ensures 0 <= i ==> r == Min(i, len)
  {
    if i < 0 then (if len + i < 0 then 0 else len + i)
    else if i > len then len else i
  }

  /** `s.slice(start, end)`: the code units from the resolved start up to the resolved end, or nothing. */
  function Slice(s: JsString, start: int, end: int): (r: JsString)
    ensures ClampIndex(start, |s|) + |r| <= |s|
    ensures r == s[ClampIndex(start, |s|)..ClampIndex(start, |s|) + |r|]
    ensures |r| == if ClampIndex(start, |s|) < ClampIndex(end, |s|) then ClampIndex(end, |s|) - ClampIndex(start, |s|) else 0
  {
    var from, to := ClampIndex(start, |s|), ClampIndex(end, |s|);
    if from < to then s[from..to] else []
  }

  /** Slicing from 0 to a non-negative end keeps the prefix of length min(end, |s|). */
  lemma SliceFromStart(s: JsString, end: int)
    requires 0 <= end
    ensures Slice(s, 0, end) == s[..Min(end, |s|)]
  {
  }
}
