/** JavaScript strings as sequences of UTF-16 code units, and the identifier check every
    director entry point applies to them. */
module Text {

  type CodeUnit = u: int | 0 <= u < 0x1_0000

  type Text = seq<CodeUnit>

  datatype Option<+T> = None | Some(value: T)

  /** The code units that `String.prototype.trim` strips. */
  predicate IsSpace(u: CodeUnit) {
    || 0x09 <= u <= 0x0D
    || u in {0x20, 0xA0, 0x1680, 0x2028, 0x2029, 0x202F, 0x205F, 0x3000, 0xFEFF}
    || 0x2000 <= u <= 0x200A
  }

  /** Nonblank and equal to its own trimmed form. */
  predicate Canonical(value: Text) {
    |value| > 0 && !IsSpace(value[0]) && !IsSpace(value[|value| - 1])
  }

  predicate CanonicalWithin(value: Text, maxLength: nat) {
    Canonical(value) && |value| <= maxLength
  }

  predicate IsHighSurrogate(u: CodeUnit) {
    0xD800 <= u <= 0xDBFF
  }

  predicate IsLowSurrogate(u: CodeUnit) {
    0xDC00 <= u <= 0xDFFF
  }

  /** Number of bytes `TextEncoder` produces; a lone surrogate encodes as U+FFFD. */
  function Utf8Length(s: Text): nat {
    if s == [] then 0
    else if s[0] < 0x80 then 1 + Utf8Length(s[1..])
    else if s[0] < 0x800 then 2 + Utf8Length(s[1..])
    else if |s| > 1 && IsHighSurrogate(s[0]) && IsLowSurrogate(s[1]) then 4 + Utf8Length(s[2..])
    else 3 + Utf8Length(s[1..])
  }
}
