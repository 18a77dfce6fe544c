/** Bytes, ASCII text as bytes, and well-formed UTF-8 (the check done by
    Rust's `std::str::from_utf8` and `read_to_string`). */
module Bytes {

  newtype byte = x: int | 0 <= x < 256

  type Bytes = seq<byte>

  const CR: byte := 13
  const LF: byte := 10

  predicate IsAscii(s: string) {
    forall i :: 0 <= i < |s| ==> s[i] as int < 128
  }

  /** The bytes of an ASCII string (its UTF-8 encoding). */
  function AsciiBytes(s: string): (r: Bytes)
    requires IsAscii(s)
    ensures |r| == |s|
    ensures forall i :: 0 <= i < |s| ==> r[i] as int == s[i] as int
  {
    seq(|s|, i requires 0 <= i < |s| => s[i] as int as byte)
  }

  /** http's `HeaderValue::to_str` accepts only visible ASCII and tab. */
  predicate IsVisibleAscii(s: Bytes) {
    forall i :: 0 <= i < |s| ==> (32 <= s[i] < 127) || s[i] == 9
  }

  predicate IsContinuation(b: byte) { 0x80 <= b <= 0xBF }

  /** Width of the well-formed UTF-8 sequence at the head of `s`
      (Unicode table 3-7), or 0 when the head is ill-formed. */
  function SequenceWidth(s: Bytes): (w: nat)
    requires |s| > 0
    ensures w <= 4 && w <= |s|
  {
    var b := s[0];
    if b < 0x80 then 1
    else if 0xC2 <= b <= 0xDF then
      if |s| >= 2 && IsContinuation(s[1]) then 2 else 0
    else if 0xE0 <= b <= 0xEF then
      if |s| < 3 then 0
      else
        var second :=
          if b == 0xE0 then 0xA0 <= s[1] <= 0xBF
          else if b == 0xED then 0x80 <= s[1] <= 0x9F
          else IsContinuation(s[1]);
        if second && IsContinuation(s[2]) then 3 else 0
    else if 0xF0 <= b <= 0xF4 then
      if |s| < 4 then 0
      else
        var second :=
          if b == 0xF0 then 0x90 <= s[1] <= 0xBF
          else if b == 0xF4 then 0x80 <= s[1] <= 0x8F
          else IsContinuation(s[1]);
        if second && IsContinuation(s[2]) && IsContinuation(s[3]) then 4 else 0
    else 0
  }

  /** `s` is well-formed UTF-8. */
  predicate Utf8(s: Bytes)
    decreases |s|
  {
    s == [] || (SequenceWidth(s) > 0 && Utf8(s[SequenceWidth(s)..]))
  }

  /** A sequence of ASCII bytes is well-formed UTF-8. */
  lemma {:induction false} AsciiIsUtf8(s: Bytes)
    requires forall i :: 0 <= i < |s| ==> s[i] < 0x80
    ensures Utf8(s)
  {
    if s != [] {
      assert SequenceWidth(s) == 1;
      AsciiIsUtf8(s[1..]);
    }
  }

  /** An HTTP header value that passed `to_str` is readable back as UTF-8. */
  lemma VisibleAsciiIsUtf8(s: Bytes)
    requires IsVisibleAscii(s)
    ensures Utf8(s)
  {
    AsciiIsUtf8(s);
  }
}
