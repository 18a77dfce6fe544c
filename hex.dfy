/** Hexadecimal text as the `hex` crate reads and writes it: `decode` takes
    an even number of digits in either case (the empty string decodes to no
    bytes), `encode` writes lower-case digits. */
module Hex {
  import opened Wrappers
  import opened Bytes

  predicate IsHexDigit(c: char) {
    ('0' <= c <= '9') || ('a' <= c <= 'f') || ('A' <= c <= 'F')
  }

  function DigitValue(c: char): (v: nat)
    requires IsHexDigit(c)
    ensures v < 16
  {
    if '0' <= c <= '9' then c as int - '0' as int
    else if 'a' <= c <= 'f' then c as int - 'a' as int + 10
    else c as int - 'A' as int + 10
  }

  /** What `hex::decode` accepts. */
  predicate IsHex(s: string) {
    |s| % 2 == 0 && forall i :: 0 <= i < |s| ==> IsHexDigit(s[i])
  }

  /** Byte `k` of a decoding is the value of digits `2k` and `2k + 1`. */
  predicate DecodesTo(s: string, b: Bytes) {
    && |b| * 2 == |s|
    && forall k :: 0 <= k < |b| ==>
         IsHexDigit(s[2 * k]) && IsHexDigit(s[2 * k + 1]) &&
         b[k] as int == DigitValue(s[2 * k]) * 16 + DigitValue(s[2 * k + 1])
  }

  /** `hex::decode(s)`: an odd length or a character that is not a digit
      is refused; otherwise every pair of digits becomes one byte. */
  function Decode(s: string): (r: Option<Bytes>)
    ensures r.Some? <==> IsHex(s)
    ensures r.Some? ==> DecodesTo(s, r.value)
  {
    if IsHex(s) then
      Some(seq(|s| / 2, k requires 0 <= k < |s| / 2 =>
        (DigitValue(s[2 * k]) * 16 + DigitValue(s[2 * k + 1])) as byte))
    else None
  }

  function LowerDigit(d: nat): (c: char)
    requires d < 16
    ensures IsHexDigit(c) && DigitValue(c) == d
  {
    if d < 10 then ('0' as int + d) as char else ('a' as int + d - 10) as char
  }

  /** `hex::encode(b)`: two lower-case digits per byte, high nibble first. */
  function Encode(b: Bytes): (s: string)
    ensures |s| == 2 * |b|
    ensures forall i :: 0 <= i < |s| ==> 'a' <= s[i] <= 'f' || '0' <= s[i] <= '9'
  {
    seq(2 * |b|, i requires 0 <= i < 2 * |b| =>
      LowerDigit(if i % 2 == 0 then b[i / 2] as int / 16 else b[i / 2] as int % 16))
  }

  /** Decoding what was encoded gives the bytes back. */
  lemma DecodeEncode(b: Bytes)
    ensures Decode(Encode(b)) == Some(b)
  {
    var s := Encode(b);
    assert IsHex(s);
    forall k | 0 <= k < |b|
      ensures s[2 * k] == LowerDigit(b[k] as int / 16)
      ensures s[2 * k + 1] == LowerDigit(b[k] as int % 16)
    {
      assert (2 * k) / 2 == k && (2 * k) % 2 == 0;
      assert (2 * k + 1) / 2 == k && (2 * k + 1) % 2 == 1;
    }
    assert DecodesTo(s, b);
    DecodeUnique(s, Decode(s).value, b);
  }

  /** A decoding is determined by its text: two texts with the same bytes
      differ at most in the case of their letters. */
  lemma DecodeUnique(s: string, b1: Bytes, b2: Bytes)
    requires DecodesTo(s, b1) && DecodesTo(s, b2)
    ensures b1 == b2
  {
  }

  lemma DecodeEmpty()
    ensures Decode("") == Some([])
  {
  }
}
