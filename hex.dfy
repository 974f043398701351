/** Go's fmt verb %x applied to a byte array: two lowercase hexadecimal digits
    per byte, most significant digit first, no separators. */
module Hex {

  type byte = b: int | 0 <= b < 256

  predicate IsLowerHexDigit(c: char) {
    '0' <= c <= '9' || 'a' <= c <= 'f'
  }

  /** The digit fmt writes for a nibble. */
  function Digit(n: int): (c: char)
    requires 0 <= n < 16
    ensures IsLowerHexDigit(c)
    ensures DigitValue(c) == n
  {
    if n < 10 then ('0' as int + n) as char else ('a' as int + n - 10) as char
  }

  /** The nibble a lowercase hexadecimal digit stands for. */
  function DigitValue(c: char): (n: int)
    requires IsLowerHexDigit(c)
    ensures 0 <= n < 16
  {
    if c <= '9' then c as int - '0' as int else c as int - 'a' as int + 10
  }

  function EncodeByte(b: byte): (h: string)
    ensures |h| == 2
  {
    [Digit(b / 16), Digit(b % 16)]
  }

  function Encode(bs: seq<byte>): (h: string)
    ensures |h| == 2 * |bs|
    ensures forall i :: 0 <= i < |h| ==> IsLowerHexDigit(h[i])
  {
    if bs == [] then [] else EncodeByte(bs[0]) + Encode(bs[1..])
  }

  /** The inverse of Encode: reads two digits per byte. */
  function Decode(h: string): (bs: seq<byte>)
    requires |h| % 2 == 0
    requires forall i :: 0 <= i < |h| ==> IsLowerHexDigit(h[i])
    ensures |bs| == |h| / 2
  {
    if h == [] then [] else [16 * DigitValue(h[0]) + DigitValue(h[1])] + Decode(h[2..])
  }

  /** Decoding the encoding of any byte sequence gives it back. */
  lemma {:induction false} DecodeEncode(bs: seq<byte>)
    ensures Decode(Encode(bs)) == bs
  {
    if bs != [] {
      var h := Encode(bs);
      assert h[..2] == EncodeByte(bs[0]);
      assert h[2..] == Encode(bs[1..]);
      DecodeEncode(bs[1..]);
    }
  }

  /** Distinct byte sequences have distinct encodings. */
  lemma EncodeInjective(a: seq<byte>, b: seq<byte>)
    ensures Encode(a) == Encode(b) <==> a == b
  {
    if Encode(a) == Encode(b) {
      DecodeEncode(a);
      DecodeEncode(b);
    }
  }
}
