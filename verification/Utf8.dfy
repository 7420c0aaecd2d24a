/** UTF-8 as `TextEncoder` writes it (section 3 of RFC 3629); the runtime weighs messages by its length. */
module Utf8 {
  import opened Text

  /** The code point of a surrogate pair. */
  function PairCode(high: CodeUnit, low: CodeUnit): int {
    0x10000 + (high - 0xD800) * 0x400 + (low - 0xDC00)
  }

  /** One code point. */
  function EncodeOne(c: int): seq<int> {
    if c < 0x80 then [c]
    else if c < 0x800 then [0xC0 + c / 0x40, 0x80 + c % 0x40]
    else if c < 0x10000 then [0xE0 + c / 0x1000, 0x80 + c / 0x40 % 0x40, 0x80 + c % 0x40]
    else [0xF0 + c / 0x40000, 0x80 + c / 0x1000 % 0x40, 0x80 + c / 0x40 % 0x40, 0x80 + c % 0x40]
  }

  /** A paired surrogate is one code point, a lone one is written as U+FFFD. */
  function Encode(s: Text): seq<int> {
    if s == [] then []
    else if 0xD800 <= s[0] <= 0xDBFF && |s| > 1 && 0xDC00 <= s[1] <= 0xDFFF then
      EncodeOne(PairCode(s[0], s[1])) + Encode(s[2..])
    else EncodeOne(if 0xD800 <= s[0] <= 0xDFFF then 0xFFFD else s[0]) + Encode(s[1..])
  }

  /** `Utf8Length` is the number of bytes written, and every one of them is a byte. */
  lemma {:induction false} LengthOfEncoding(s: Text)
    ensures |Encode(s)| == Utf8Length(s) && forall i :: 0 <= i < |Encode(s)| ==> 0 <= Encode(s)[i] < 256
    decreases |s|
  {
    if s != [] {
      if 0xD800 <= s[0] <= 0xDBFF && |s| > 1 && 0xDC00 <= s[1] <= 0xDFFF {
        PairIsLong(s[0], s[1]);
        LengthOfEncoding(s[2..]);
      } else {
        UnitIsShort(s[0]);
        LengthOfEncoding(s[1..]);
      }
    }
  }

  lemma PairIsLong(high: CodeUnit, low: CodeUnit)
    requires 0xD800 <= high <= 0xDBFF && 0xDC00 <= low <= 0xDFFF
    ensures var e := EncodeOne(PairCode(high, low));
            |e| == 4 && forall i :: 0 <= i < |e| ==> 0 <= e[i] < 256
  {
    assert 0x10000 <= PairCode(high, low) < 0x110000;
  }

  lemma UnitIsShort(u: CodeUnit)
    ensures var e := EncodeOne(if 0xD800 <= u <= 0xDFFF then 0xFFFD else u);
            && |e| == (if u < 0x80 then 1 else if u < 0x800 then 2 else 3)
            && forall i :: 0 <= i < |e| ==> 0 <= e[i] < 256
  {
  }
}
