/**
 * The MessagePack stream as the formatters see it: a sequence of tokens read
 * through a reader that carries a position and the current nesting depth.
 * Byte-level encoding is abstracted away; each reader primitive consumes one
 * token, and `Skip` consumes one complete value, however deeply nested.
 */
module MsgPack {
  import opened Wrappers
  import opened Primitives
  import opened Seqs

  datatype Token =
    | Nil
    | Bool(b: bool)
    | Int(i: int)
    | F64(d: Double)
    | Str(s: string)
    | Bin(bytes: Bytes)
    | Timestamp(t: DateTime)
    | ArrayHeader(count: nat)
    | MapHeader(count: nat)

  /** `MessagePackReader`: the position in the stream and the depth counter. */
  datatype Reader = Reader(pos: nat, depth: nat)

  /** A value read, and the reader after it. */
  datatype Read<+T> = Read(value: T, next: Reader)

  /** The default `MessagePackSecurity.MaximumObjectGraphDepth`. */
  const DefaultMaximumObjectGraphDepth: nat := 500

  /** `writer.Write(string)`: a null string is written as nil. */
  function WriteString(s: NString): Token {
    match s
    case None => Nil
    case Some(x) => Str(x)
  }

  function WriteStrings(ss: seq<NString>): (ts: seq<Token>)
    ensures |ts| == |ss| && forall i | 0 <= i < |ss| :: ts[i] == WriteString(ss[i])
  {
    seq(|ss|, i requires 0 <= i < |ss| => WriteString(ss[i]))
  }

  /** The next token, or end-of-stream. */
  function Peek(ts: seq<Token>, r: Reader): (res: Result<Token>)
    requires r.pos <= |ts|
    ensures res.Ok? <==> r.pos < |ts|
    ensures res.Ok? ==> res.value == ts[r.pos]
    ensures res.Err? ==> res.error == EndOfStream
  {
    if r.pos == |ts| then Err(EndOfStream) else Ok(ts[r.pos])
  }

  function Advance(r: Reader): Reader {
    r.(pos := r.pos + 1)
  }

  /** `TryReadNil`: consumes the token only when it is nil. */
  function TryReadNil(ts: seq<Token>, r: Reader): (res: Result<Read<bool>>)
    requires r.pos <= |ts|
    ensures res.Ok? <==> r.pos < |ts|
    ensures res.Ok? ==> (res.value.value <==> ts[r.pos] == Nil)
    ensures res.Ok? && res.value.value ==> res.value.next == Advance(r)
    ensures res.Ok? && !res.value.value ==> res.value.next == r
  {
    var t :- Peek(ts, r);
    if t == Nil then Ok(Read(true, Advance(r))) else Ok(Read(false, r))
  }

  function ReadArrayHeader(ts: seq<Token>, r: Reader): (res: Result<Read<nat>>)
    requires r.pos <= |ts|
    ensures res.Ok? <==> r.pos < |ts| && ts[r.pos].ArrayHeader?
    ensures res.Ok? ==> ts[r.pos] == ArrayHeader(res.value.value) && res.value.next == Advance(r)
    ensures r.pos < |ts| && !ts[r.pos].ArrayHeader? ==> res == Err(Format(r.pos))
  {
    var t :- Peek(ts, r);
    if t.ArrayHeader? then Ok(Read(t.count, Advance(r))) else Err(Format(r.pos))
  }

  function ReadMapHeader(ts: seq<Token>, r: Reader): (res: Result<Read<nat>>)
    requires r.pos <= |ts|
    ensures res.Ok? <==> r.pos < |ts| && ts[r.pos].MapHeader?
    ensures res.Ok? ==> ts[r.pos] == MapHeader(res.value.value) && res.value.next == Advance(r)
  {
    var t :- Peek(ts, r);
    if t.MapHeader? then Ok(Read(t.count, Advance(r))) else Err(Format(r.pos))
  }

  /** `ReadBytes`: binary data, or no value (a null sequence) on nil. */
  function ReadBytes(ts: seq<Token>, r: Reader): (res: Result<Read<Option<Bytes>>>)
    requires r.pos <= |ts|
    ensures res.Ok? <==> r.pos < |ts| && (ts[r.pos].Bin? || ts[r.pos].Nil?)
    ensures res.Ok? ==> res.value.next == Advance(r)
    ensures res.Ok? ==> (res.value.value.Some? <==> ts[r.pos].Bin?)
    ensures res.Ok? && res.value.value.Some? ==> ts[r.pos] == Bin(res.value.value.value)
  {
    var t :- Peek(ts, r);
    match t
    case Bin(b) => Ok(Read(Some(b), Advance(r)))
    case Nil => Ok(Read(None, Advance(r)))
    case _ => Err(Format(r.pos))
  }

  /** `ReadString`: a string, or null on nil; the inverse of `WriteString`. */
  function ReadString(ts: seq<Token>, r: Reader): (res: Result<Read<NString>>)
    requires r.pos <= |ts|
    ensures res.Ok? <==> r.pos < |ts| && (ts[r.pos].Str? || ts[r.pos].Nil?)
    ensures res.Ok? ==> WriteString(res.value.value) == ts[r.pos] && res.value.next == Advance(r)
  {
    var t :- Peek(ts, r);
    match t
    case Str(s) => Ok(Read(Some(s), Advance(r)))
    case Nil => Ok(Read(None, Advance(r)))
    case _ => Err(Format(r.pos))
  }

  function ReadDouble(ts: seq<Token>, r: Reader): (res: Result<Read<Double>>)
    requires r.pos <= |ts|
    ensures res.Ok? <==> r.pos < |ts| && ts[r.pos].F64?
    ensures res.Ok? ==> ts[r.pos] == F64(res.value.value) && res.value.next == Advance(r)
  {
    var t :- Peek(ts, r);
    if t.F64? then Ok(Read(t.d, Advance(r))) else Err(Format(r.pos))
  }

  function ReadTimestamp(ts: seq<Token>, r: Reader): (res: Result<Read<DateTime>>)
    requires r.pos <= |ts|
    ensures res.Ok? <==> r.pos < |ts| && ts[r.pos].Timestamp?
    ensures res.Ok? ==> ts[r.pos] == Timestamp(res.value.value) && res.value.next == Advance(r)
  {
    var t :- Peek(ts, r);
    if t.Timestamp? then Ok(Read(t.t, Advance(r))) else Err(Format(r.pos))
  }

  /** `count` strings in a row. */
  function ReadStrings(ts: seq<Token>, r: Reader, count: nat): (res: Result<Read<seq<NString>>>)
    requires r.pos <= |ts|
    ensures res.Ok? ==> |res.value.value| == count && res.value.next == r.(pos := r.pos + count)
    ensures res.Ok? ==> r.pos + count <= |ts|
    decreases count
  {
    if count == 0 then Ok(Read([], r))
    else
      var first :- ReadString(ts, r);
      var rest :- ReadStrings(ts, first.next, count - 1);
      Ok(Read([first.value] + rest.value, rest.next))
  }

  /**
   * `new Guid(reader.ReadBytes().Value.ToArray())`: nil has no value to
   * convert, and anything but 16 bytes is an argument error.
   */
  function ReadGuid(ts: seq<Token>, r: Reader): (res: Result<Read<Guid>>)
    requires r.pos <= |ts|
    ensures res.Ok? ==> r.pos < |ts| && res.value.next == Advance(r) && ts[r.pos] == Bin(ToByteArray(res.value.value))
    ensures r.pos < |ts| && ts[r.pos] == Nil ==> res == Err(InvalidOperation("Nullable object must have a value."))
    ensures r.pos < |ts| && ts[r.pos].Bin? && |ts[r.pos].bytes| != 16 ==> res.Err? && res.error.Argument?
  {
    var bytes :- ReadBytes(ts, r);
    if bytes.value.None? then Err(InvalidOperation("Nullable object must have a value."))
    else
      var iid :- FromBytes(bytes.value.value);
      Ok(Read(iid, bytes.next))
  }

  lemma ReadWrittenGuid(g: Guid, ts: seq<Token>, r: Reader)
    requires r.pos < |ts| && ts[r.pos] == Bin(ToByteArray(g))
    ensures ReadGuid(ts, r) == Ok(Read(g, Advance(r)))
  {
    BytesRoundTrip(g);
  }

  /**
   * `MessagePackSecurity.DepthStep`: entering one more level of nesting
   * fails once the depth has reached the maximum.
   */
  function DepthStep(r: Reader, maxDepth: nat): (res: Result<Reader>)
    ensures res.Ok? <==> r.depth < maxDepth
    ensures res.Ok? ==> res.value == r.(depth := r.depth + 1)
    ensures res.Err? ==> res.error == DepthExceeded(maxDepth)
  {
    if r.depth >= maxDepth then Err(DepthExceeded(maxDepth)) else Ok(r.(depth := r.depth + 1))
  }

  /** `Skip`: the position after one complete value starting at `pos`. */
  function Skip(ts: seq<Token>, pos: nat): (res: Result<nat>)
    requires pos <= |ts|
    ensures res.Ok? ==> pos < res.value <= |ts|
    decreases |ts| - pos, 0
  {
    if pos == |ts| then Err(EndOfStream)
    else match ts[pos]
      case ArrayHeader(n) => SkipMany(ts, pos + 1, n)
      case MapHeader(n) => SkipMany(ts, pos + 1, 2 * n)
      case _ => Ok(pos + 1)
  }

  /** `n` complete values in a row. */
  function SkipMany(ts: seq<Token>, pos: nat, n: nat): (res: Result<nat>)
    requires pos <= |ts|
    ensures res.Ok? ==> pos <= res.value <= |ts|
    decreases |ts| - pos, n
  {
    if n == 0 then Ok(pos)
    else
      var next :- Skip(ts, pos);
      SkipMany(ts, next, n - 1)
  }

  function SkipValue(ts: seq<Token>, r: Reader): (res: Result<Reader>)
    requires r.pos <= |ts|
    ensures res.Ok? ==> r.pos < res.value.pos <= |ts| && res.value.depth == r.depth
  {
    var next :- Skip(ts, r.pos);
    Ok(r.(pos := next))
  }

  /** A formatter's `default: reader.Skip()` slot: one complete value is skipped, the entity kept. */
  function SkipSlot<T>(ts: seq<Token>, r: Reader, acc: T): (res: Result<Read<T>>)
    requires r.pos <= |ts|
    ensures res.Ok? ==> r.pos < res.value.next.pos <= |ts| && res.value.next.depth == r.depth
    ensures res.Ok? ==> res.value.value == acc
  {
    var next :- SkipValue(ts, r);
    Ok(Read(acc, next))
  }

  /** A formatter's `reader.Depth--` after its slot loop: the outcome kept, one nesting level left. */
  function LeaveArray<T>(slots: Result<Read<T>>): (res: Result<Read<T>>)
    requires slots.Ok? ==> slots.value.next.depth > 0
    ensures res.Ok? <==> slots.Ok?
    ensures res.Ok? ==> res.value.value == slots.value.value
    ensures res.Ok? ==> res.value.next == slots.value.next.(depth := slots.value.next.depth - 1)
  {
    var s :- slots;
    Ok(Read(s.value, s.next.(depth := s.next.depth - 1)))
  }

  /** A well-formed MessagePack value, for stating what `Skip` consumes. */
  datatype Value =
    | VNil
    | VBool(b: bool)
    | VInt(i: int)
    | VF64(d: Double)
    | VStr(s: string)
    | VBin(bytes: Bytes)
    | VTimestamp(t: DateTime)
    | VArray(items: seq<Value>)
    | VMap(entries: seq<Entry>)

  datatype Entry = Entry(key: Value, val: Value)

  function Encode(v: Value): seq<Token>
    decreases v, 1
  {
    match v
    case VNil => [Nil]
    case VBool(b) => [Bool(b)]
    case VInt(i) => [Int(i)]
    case VF64(d) => [F64(d)]
    case VStr(s) => [Str(s)]
    case VBin(b) => [Bin(b)]
    case VTimestamp(t) => [Timestamp(t)]
    case VArray(items) => [ArrayHeader(|items|)] + EncodeAll(items)
    case VMap(entries) => [MapHeader(|entries|)] + EncodeEntries(entries)
  }

  function EncodeAll(vs: seq<Value>): seq<Token>
    decreases vs, 0
  {
    if vs == [] then [] else Encode(vs[0]) + EncodeAll(vs[1..])
  }

  function EncodeEntries(es: seq<Entry>): seq<Token>
    decreases es, 0
  {
    if es == [] then [] else EncodeEntry(es[0]) + EncodeEntries(es[1..])
  }

  function EncodeEntry(e: Entry): seq<Token>
    decreases e, 0
  {
    Encode(e.key) + Encode(e.val)
  }

  /** `Skip` consumes exactly one encoded value, whatever follows it. */
  lemma {:induction false} SkipEncoded(v: Value, pre: seq<Token>, rest: seq<Token>)
    ensures Skip(pre + Encode(v) + rest, |pre|) == Ok(|pre| + |Encode(v)|)
    decreases v, 1
  {
    var ts := pre + Encode(v) + rest;
    assert ts[|pre|] == Encode(v)[0];
    match v
    case VArray(items) =>
      var body := EncodeAll(items);
      assert ts == (pre + [ArrayHeader(|items|)]) + body + rest;
      SkipEncodedAll(items, pre + [ArrayHeader(|items|)], rest);
    case VMap(entries) =>
      var body := EncodeEntries(entries);
      assert ts == (pre + [MapHeader(|entries|)]) + body + rest;
      SkipEncodedEntries(entries, pre + [MapHeader(|entries|)], rest);
    case _ =>
  }

  lemma {:induction false} SkipEncodedAll(vs: seq<Value>, pre: seq<Token>, rest: seq<Token>)
    ensures SkipMany(pre + EncodeAll(vs) + rest, |pre|, |vs|) == Ok(|pre| + |EncodeAll(vs)|)
    decreases vs, 0
  {
    if vs != [] {
      var first, others := Encode(vs[0]), EncodeAll(vs[1..]);
      var ts := pre + EncodeAll(vs) + rest;
      assert ts == pre + first + (others + rest);
      SkipEncoded(vs[0], pre, others + rest);
      assert ts == (pre + first) + others + rest;
      SkipEncodedAll(vs[1..], pre + first, rest);
    }
  }

  lemma {:induction false} SkipEncodedEntries(es: seq<Entry>, pre: seq<Token>, rest: seq<Token>)
    ensures SkipMany(pre + EncodeEntries(es) + rest, |pre|, 2 * |es|) == Ok(|pre| + |EncodeEntries(es)|)
    decreases es, 0
  {
    if es != [] {
      var first, others := EncodeEntry(es[0]), EncodeEntries(es[1..]);
      assert EncodeEntries(es) == first + others;
      var ts := pre + EncodeEntries(es) + rest;
      assert ts == pre + first + (others + rest);
      SkipEncodedEntry(es[0], pre, others + rest, 2 * |es[1..]|);
      assert SkipMany(ts, |pre|, 2 * |es|) == SkipMany(ts, |pre| + |first|, 2 * |es[1..]|);
      assert ts == (pre + first) + others + rest;
      SkipEncodedEntries(es[1..], pre + first, rest);
    }
  }

  /** A map entry is two values: skipping it advances the count by two. */
  lemma {:induction false} SkipEncodedEntry(e: Entry, pre: seq<Token>, rest: seq<Token>, n: nat)
    ensures SkipMany(pre + EncodeEntry(e) + rest, |pre|, n + 2)
            == SkipMany(pre + EncodeEntry(e) + rest, |pre| + |EncodeEntry(e)|, n)
    decreases e, 0
  {
    var k, v := Encode(e.key), Encode(e.val);
    var ts := pre + EncodeEntry(e) + rest;
    assert ts == pre + k + (v + rest);
    SkipEncoded(e.key, pre, v + rest);
    assert ts == (pre + k) + v + rest;
    SkipEncoded(e.val, pre + k, rest);
  }

  /** Skipping several encoded values in a row. */
  lemma {:induction false} SkipManyEncoded(vs: seq<Value>, pre: seq<Token>, rest: seq<Token>)
    ensures SkipMany(pre + EncodeAll(vs) + rest, |pre|, |vs|) == Ok(|pre| + |EncodeAll(vs)|)
  {
    SkipEncodedAll(vs, pre, rest);
  }

  /** `Skip` consumes exactly one encoded value, wherever it occurs. */
  lemma SkipAt(v: Value, ts: seq<Token>, p: nat)
    requires At(ts, p, Encode(v))
    ensures Skip(ts, p) == Ok(p + |Encode(v)|)
  {
    AtSplit(ts, p, Encode(v));
    SkipEncoded(v, ts[..p], ts[p + |Encode(v)|..]);
  }

  /** Reading back written strings recovers them, nulls included. */
  lemma {:induction false} ReadWrittenStrings(ss: seq<NString>, ts: seq<Token>, p: nat, depth: nat)
    requires At(ts, p, WriteStrings(ss))
    ensures ReadStrings(ts, Reader(p, depth), |ss|) == Ok(Read(ss, Reader(p + |ss|, depth)))
  {
    if ss != [] {
      assert ts[p + 0] == WriteString(ss[0]);
      assert At(ts, p + 1, WriteStrings(ss[1..])) by {
        forall i | 0 <= i < |ss| - 1 ensures ts[p + 1 + i] == WriteStrings(ss[1..])[i] {
          assert ts[p + (1 + i)] == WriteStrings(ss)[1 + i];
        }
      }
      ReadWrittenStrings(ss[1..], ts, p + 1, depth);
      assert [ss[0]] + ss[1..] == ss;
    }
  }
}
