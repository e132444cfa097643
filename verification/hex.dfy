/**
 * Hexadecimal text for byte sequences: the building block of the canonical
 * GUID string and of the timestamp text used by the JSON codec.
 * Writing always uses lower-case digits; reading accepts either case.
 */
module Hex {
  import opened Wrappers

  /** An unsigned 8-bit value. */
  newtype byte = b: int | 0 <= b < 256

  const LowerDigits: string := "0123456789abcdef"

  function DigitChar(n: nat): char
    requires n < 16
  {
    LowerDigits[n]
  }

  /** The value of one hexadecimal digit, in either case. */
  function DigitValue(c: char): (r: Option<nat>)
    ensures r.Some? ==> r.value < 16
  {
    if '0' <= c <= '9' then Some(c as int - '0' as int)
    else if 'a' <= c <= 'f' then Some(c as int - 'a' as int + 10)
    else if 'A' <= c <= 'F' then Some(c as int - 'A' as int + 10)
    else None
  }

  lemma DigitRoundTrip(n: nat)
    requires n < 16
    ensures DigitValue(DigitChar(n)) == Some(n)
  {
  }

  /** Two digits per byte, high nibble first. */
  function ByteText(b: byte): string {
    [DigitChar(b as nat / 16), DigitChar(b as nat % 16)]
  }

  function HexText(bs: seq<byte>): (s: string)
    ensures |s| == 2 * |bs|
  {
    if bs == [] then "" else ByteText(bs[0]) + HexText(bs[1..])
  }

  function ParseHex(s: string): (r: Option<seq<byte>>)
    ensures r.Some? ==> 2 * |r.value| == |s|
  {
    if |s| == 0 then Some([])
    else if |s| == 1 then None
    else
      var hi :- DigitValue(s[0]);
      var lo :- DigitValue(s[1]);
      var rest :- ParseHex(s[2..]);
      Some([(hi * 16 + lo) as byte] + rest)
  }

  lemma ByteRoundTrip(b: byte)
    ensures var t := ByteText(b);
            DigitValue(t[0]).Some? && DigitValue(t[1]).Some? &&
            DigitValue(t[0]).value * 16 + DigitValue(t[1]).value == b as int
  {
    DigitRoundTrip(b as nat / 16);
    DigitRoundTrip(b as nat % 16);
  }

  /** Two digits written for `b` in front of text `s` parse as `b` in front of the bytes of `s`. */
  lemma ParseHexStep(b: byte, s: string, t: string)
    requires t == ByteText(b) + s
    ensures ParseHex(t) == if ParseHex(s).Some? then Some([b] + ParseHex(s).value) else None
  {
    assert t[2..] == s;
    ByteRoundTrip(b);
  }

  /** Reading back what was written recovers the bytes. */
  lemma {:induction false} ParseHexText(bs: seq<byte>)
    ensures ParseHex(HexText(bs)) == Some(bs)
  {
    if bs != [] {
      ParseHexStep(bs[0], HexText(bs[1..]), HexText(bs));
      ParseHexText(bs[1..]);
      assert [bs[0]] + bs[1..] == bs;
    }
  }
}
