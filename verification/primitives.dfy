/**
 * The scalar values the entities carry: nullable strings, GUIDs, doubles and
 * timestamps.  Doubles and timestamps are opaque carried values; GUIDs are
 * their 16 raw bytes in `Guid.ToByteArray` order, with the canonical "D"
 * text layout (8-4-4-4-12 hexadecimal digits).
 */
module Primitives {
  import opened Wrappers
  import Hex

  /** A C# `string`, which may be null. */
  type NString = Option<string>

  type byte = Hex.byte
  type Bytes = seq<byte>

  type GuidBytes = b: Bytes | |b| == 16
    witness [0, 0, 0, 0, 0, 0, 0, 0, 0, 0, 0, 0, 0, 0, 0, 0]

  datatype Guid = Guid(bytes: GuidBytes)

  /** `Guid.Empty`, the value an unset identifier holds. */
  const EmptyGuid: Guid := Guid([0, 0, 0, 0, 0, 0, 0, 0, 0, 0, 0, 0, 0, 0, 0, 0])

  function ToByteArray(g: Guid): Bytes {
    g.bytes
  }

  /** `new Guid(byte[])`: any other length than 16 is an argument error. */
  function FromBytes(b: Bytes): (r: Result<Guid>)
    ensures r.Ok? <==> |b| == 16
    ensures r.Ok? ==> ToByteArray(r.value) == b
    ensures r.Err? ==> r.error.Argument?
  {
    if |b| == 16 then Ok(Guid(b)) else Err(Argument("byte array for Guid must be exactly 16 bytes long"))
  }

  lemma BytesRoundTrip(g: Guid)
    ensures FromBytes(ToByteArray(g)) == Ok(g)
  {
  }

  /**
   * `Guid.ToString()`: the first three groups are the little-endian fields
   * of the byte layout, so their bytes appear reversed in the text.
   */
  function ToText(g: Guid): (s: string)
    ensures |s| == 36
    ensures s[8] == '-' && s[13] == '-' && s[18] == '-' && s[23] == '-'
  {
    var b := g.bytes;
    Hex.HexText([b[3], b[2], b[1], b[0]]) + "-" + Hex.HexText([b[5], b[4]]) + "-"
    + Hex.HexText([b[7], b[6]]) + "-" + Hex.HexText(b[8..10]) + "-" + Hex.HexText(b[10..16])
  }

  /** Parsing of the "D" layout, hexadecimal digits in either case. */
  function ParseText(s: string): (r: Option<Guid>)
    ensures r.Some? ==> |s| == 36
  {
    if |s| != 36 || s[8] != '-' || s[13] != '-' || s[18] != '-' || s[23] != '-' then None
    else
      var g1 :- Hex.ParseHex(s[0..8]);
      var g2 :- Hex.ParseHex(s[9..13]);
      var g3 :- Hex.ParseHex(s[14..18]);
      var g4 :- Hex.ParseHex(s[19..23]);
      var g5 :- Hex.ParseHex(s[24..36]);
      Some(Assemble(g1, g2, g3, g4, g5))
  }

  /** Puts the five parsed groups back into `ToByteArray` order. */
  function Assemble(g1: Bytes, g2: Bytes, g3: Bytes, g4: Bytes, g5: Bytes): Guid
    requires |g1| == 4 && |g2| == 2 && |g3| == 2 && |g4| == 2 && |g5| == 6
  {
    Guid([g1[3], g1[2], g1[1], g1[0], g2[1], g2[0], g3[1], g3[0]] + g4 + g5)
  }

  lemma SliceOfConcat(a: string, b: string, c: string)
    ensures (a + b + c)[|a|..|a| + |b|] == b
  {
    assert forall i | 0 <= i < |b| :: (a + b + c)[|a| + i] == b[i];
  }

  /** Each hexadecimal group of the text sits at its fixed offset. */
  lemma TextGroups(g: Guid)
    ensures var b := g.bytes; var s := ToText(g);
            && s[0..8] == Hex.HexText([b[3], b[2], b[1], b[0]])
            && s[9..13] == Hex.HexText([b[5], b[4]])
            && s[14..18] == Hex.HexText([b[7], b[6]])
            && s[19..23] == Hex.HexText(b[8..10])
            && s[24..36] == Hex.HexText(b[10..16])
  {
    var b := g.bytes;
    var t1, t2, t3 := Hex.HexText([b[3], b[2], b[1], b[0]]), Hex.HexText([b[5], b[4]]), Hex.HexText([b[7], b[6]]);
    var t4, t5 := Hex.HexText(b[8..10]), Hex.HexText(b[10..16]);
    var s := ToText(g);
    SliceOfConcat([], t1, s[8..]);
    assert s == [] + t1 + s[8..];
    SliceOfConcat(s[..9], t2, s[13..]);
    assert s == s[..9] + t2 + s[13..];
    SliceOfConcat(s[..14], t3, s[18..]);
    assert s == s[..14] + t3 + s[18..];
    SliceOfConcat(s[..19], t4, s[23..]);
    assert s == s[..19] + t4 + s[23..];
    SliceOfConcat(s[..24], t5, []);
    assert s == s[..24] + t5 + [];
  }

  lemma AssembleGroups(b: GuidBytes)
    ensures Assemble([b[3], b[2], b[1], b[0]], [b[5], b[4]], [b[7], b[6]], b[8..10], b[10..16]) == Guid(b)
  {
    assert [b[0], b[1], b[2], b[3], b[4], b[5], b[6], b[7]] + b[8..10] + b[10..16] == b;
  }

  lemma TextRoundTrip(g: Guid)
    ensures ParseText(ToText(g)) == Some(g)
  {
    var b := g.bytes;
    var s := ToText(g);
    var p1, p2, p3, p4, p5 := [b[3], b[2], b[1], b[0]], [b[5], b[4]], [b[7], b[6]], b[8..10], b[10..16];
    TextGroups(g);
    Hex.ParseHexText(p1);
    Hex.ParseHexText(p2);
    Hex.ParseHexText(p3);
    Hex.ParseHexText(p4);
    Hex.ParseHexText(p5);
    AssembleGroups(b);
  }

  /** A 64-bit IEEE 754 double, carried by its bit pattern and never computed with. */
  datatype Double = Double(bits: bv64)

  /** `default(double)`, positive zero. */
  const Zero: Double := Double(0)

  /** Neither an infinity nor a NaN: the exponent field is not all ones. */
  predicate IsFinite(d: Double) {
    (d.bits >> 52) & 0x7FF != 0x7FF
  }

  /** A `DateTime`, carried by its eight raw bytes. */
  type TimestampBytes = b: Bytes | |b| == 8 witness [0, 0, 0, 0, 0, 0, 0, 0]

  datatype DateTime = DateTime(raw: TimestampBytes)

  /** `default(DateTime)`, i.e. `DateTime.MinValue`. */
  const MinValue: DateTime := DateTime([0, 0, 0, 0, 0, 0, 0, 0])

  /** The JSON text of a timestamp; its ISO 8601 layout is abstracted to 16 hexadecimal digits. */
  function DateText(t: DateTime): string {
    Hex.HexText(t.raw)
  }

  function ParseDate(s: string): (r: Option<DateTime>)
    ensures r.Some? ==> |s| == 16
  {
    var raw :- Hex.ParseHex(s);
    if |raw| == 8 then Some(DateTime(raw)) else None
  }

  lemma DateRoundTrip(t: DateTime)
    ensures ParseDate(DateText(t)) == Some(t)
  {
    Hex.ParseHexText(t.raw);
  }
}
