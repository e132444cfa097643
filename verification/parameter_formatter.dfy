/**
 * `ParameterFormatter`: the hand-written positional MessagePack formatter of
 * a Parameter.
 *
 * Slot layout, behind an array header of 3:
 *   0  Iid, as 16 raw bytes
 *   1  Name
 *   2  Value, as a 64-bit float
 * Reading follows the same rules as for ElementDefinitions: a leading nil is
 * "no entity", slots beyond 2 are skipped, and the entity is created when
 * slot 0 is read.
 */
module ParameterFormatter {
  import opened Wrappers
  import opened Primitives
  import opened Model
  import opened MsgPack
  import opened Seqs

  const SlotCount: nat := 3

  /** The tokens `Serialize` writes for one slot. */
  function SlotTokens(q: Parameter, slot: nat): seq<Token>
    requires slot < SlotCount
  {
    match slot
    case 0 => [Bin(ToByteArray(q.iid))]
    case 1 => [WriteString(q.name)]
    case 2 => [F64(q.value)]
  }

  /** Slots `0 .. n-1`, in order. */
  function SlotsUpTo(q: Parameter, n: nat): seq<Token>
    requires n <= SlotCount
  {
    if n == 0 then [] else SlotsUpTo(q, n - 1) + SlotTokens(q, n - 1)
  }

  /** The encoding of `q` as `Serialize` writes it. */
  function Wire(q: Parameter): seq<Token> {
    [ArrayHeader(SlotCount), Bin(ToByteArray(q.iid)), WriteString(q.name), F64(q.value)]
  }

  lemma SlotsAreWire(q: Parameter)
    ensures [ArrayHeader(SlotCount)] + SlotsUpTo(q, SlotCount) == Wire(q)
  {
    assert SlotsUpTo(q, 1) == [Bin(ToByteArray(q.iid))];
  }

  /** `Serialize`: a null Parameter is an argument error. */
  function Serialize(q: Option<Parameter>): (r: Result<seq<Token>>)
    ensures q.None? ==> r == Err(ArgumentNull("parameter"))
    ensures q.Some? ==> r == Ok(Wire(q.value))
  {
    if q.None? then Err(ArgumentNull("parameter"))
    else
      SlotsAreWire(q.value);
      Ok([ArrayHeader(SlotCount)] + SlotsUpTo(q.value, SlotCount))
  }

  /** Slot 0: the entity is created with the identifier read. */
  function ReadIidSlot(ts: seq<Token>, r: Reader): (res: Result<Read<Option<Parameter>>>)
    requires r.pos <= |ts|
    ensures res.Ok? ==> res.value.next == Advance(r) && r.pos < |ts|
    ensures res.Ok? ==> res.value.value.Some? && Valid(Param(res.value.value.value))
  {
    var iid :- ReadGuid(ts, r);
    Ok(Read(Some(NewParameterWithIid(iid.value)), iid.next))
  }

  /** Slot 1: the name. */
  function ReadNameSlot(ts: seq<Token>, r: Reader, q: Parameter): (res: Result<Read<Option<Parameter>>>)
    requires r.pos <= |ts|
    ensures res.Ok? ==> res.value.next == Advance(r) && r.pos < |ts|
    ensures res.Ok? ==> res.value.value.Some? && res.value.value.value.classKind == q.classKind
  {
    var name :- ReadString(ts, r);
    Ok(Read(Some(q.(name := name.value)), name.next))
  }

  /** Slot 2: the value. */
  function ReadValueSlot(ts: seq<Token>, r: Reader, q: Parameter): (res: Result<Read<Option<Parameter>>>)
    requires r.pos <= |ts|
    ensures res.Ok? ==> res.value.next == Advance(r) && r.pos < |ts|
    ensures res.Ok? ==> res.value.value.Some? && res.value.value.value.classKind == q.classKind
  {
    var value :- ReadDouble(ts, r);
    Ok(Read(Some(q.(value := value.value)), value.next))
  }


  /** One pass of the slot loop: the `switch (i)`. */
  function ReadSlot(ts: seq<Token>, r: Reader, slot: nat, acc: Option<Parameter>)
    : (res: Result<Read<Option<Parameter>>>)
    requires r.pos <= |ts|
    requires acc.Some? <==> slot > 0
    requires acc.Some? ==> Valid(Param(acc.value))
    ensures res.Ok? ==> r.pos < res.value.next.pos <= |ts| && res.value.next.depth == r.depth
    ensures res.Ok? ==> res.value.value.Some? && Valid(Param(res.value.value.value))
    ensures res.Ok? && slot >= SlotCount ==> res.value.value == acc
  {
    match slot
    case 0 => ReadIidSlot(ts, r)
    case 1 => ReadNameSlot(ts, r, acc.value)
    case 2 => ReadValueSlot(ts, r, acc.value)
    case _ => SkipSlot(ts, r, acc)
  }

  /** The slot loop `for (int i = 0; i < count; i++)`. */
  function ReadSlots(ts: seq<Token>, r: Reader, counter: nat, count: nat, acc: Option<Parameter>)
    : (res: Result<Read<Option<Parameter>>>)
    requires r.pos <= |ts| && counter <= count
    requires acc.Some? <==> counter > 0
    requires acc.Some? ==> Valid(Param(acc.value))
    ensures res.Ok? ==> r.pos <= res.value.next.pos <= |ts| && res.value.next.depth == r.depth
    ensures res.Ok? ==> (res.value.value.Some? <==> count > 0)
    ensures res.Ok? && res.value.value.Some? ==> Valid(Param(res.value.value.value))
    decreases count - counter
  {
    if counter == count then Ok(Read(acc, r))
    else
      var step :- ReadSlot(ts, r, counter, acc);
      ReadSlots(ts, step.next, counter + 1, count, step.value)
  }

  /** `Deserialize`: nil is "no entity"; otherwise one nesting level for the array. */
  function Deserialize(ts: seq<Token>, r: Reader, maxDepth: nat): (res: Result<Read<Option<Parameter>>>)
    requires r.pos <= |ts|
    ensures r.pos == |ts| ==> res == Err(EndOfStream)
    ensures r.pos < |ts| && ts[r.pos] == Nil ==> res == Ok(Read(None, Advance(r)))
    ensures r.pos < |ts| && ts[r.pos] != Nil && r.depth >= maxDepth ==> res == Err(DepthExceeded(maxDepth))
    ensures res.Ok? ==> r.pos < res.value.next.pos <= |ts| && res.value.next.depth == r.depth
    ensures res.Ok? && res.value.value.Some? ==> Valid(Param(res.value.value.value))
  {
    var nil :- TryReadNil(ts, r);
    if nil.value then Ok(Read(None, nil.next)) else DecodeArray(ts, r, maxDepth)
  }

  /** The array of a non-nil value, one nesting level down. */
  function DecodeArray(ts: seq<Token>, r: Reader, maxDepth: nat): (res: Result<Read<Option<Parameter>>>)
    requires r.pos <= |ts|
    ensures r.depth >= maxDepth ==> res == Err(DepthExceeded(maxDepth))
    ensures res.Ok? ==> r.pos < res.value.next.pos <= |ts| && res.value.next.depth == r.depth
    ensures res.Ok? && res.value.value.Some? ==> Valid(Param(res.value.value.value))
  {
    var stepped :- DepthStep(r, maxDepth);
    var count :- ReadArrayHeader(ts, stepped);
    LeaveArray(ReadSlots(ts, count.next, 0, count.value, None))
  }


  /** What reading the first `n` slots of `q`'s encoding builds. */
  function Partial(q: Parameter, n: nat): (r: Option<Parameter>)
    requires n <= SlotCount
    ensures r.Some? <==> n > 0
    ensures r.Some? ==> Valid(Param(r.value))
  {
    if n == 0 then None
    else
      var created := NewParameterWithIid(q.iid);
      Some(created.(
        name := if n > 1 then q.name else None,
        value := if n > 2 then q.value else Zero))
  }

  /** Reading one written slot moves from `Partial(q, k)` to `Partial(q, k + 1)`. */
  lemma ReadWrittenSlot(q: Parameter, k: nat, ts: seq<Token>, p: nat, depth: nat)
    requires k < SlotCount
    requires At(ts, p, SlotTokens(q, k))
    ensures ReadSlot(ts, Reader(p, depth), k, Partial(q, k))
            == Ok(Read(Partial(q, k + 1), Reader(p + |SlotTokens(q, k)|, depth)))
  {
    assert ts[p + 0] == SlotTokens(q, k)[0];
    if k == 0 {
      ReadWrittenGuid(q.iid, ts, Reader(p, depth));
    }
  }

  /** One turn of the slot loop over a written slot, ending at `next`. */
  lemma ReadSlotsStep(q: Parameter, k: nat, n: nat, ts: seq<Token>, p: nat, depth: nat, next: nat)
    requires k < SlotCount && k < n
    requires At(ts, p, SlotTokens(q, k))
    requires next == p + |SlotTokens(q, k)|
    ensures ReadSlots(ts, Reader(p, depth), k, n, Partial(q, k))
            == ReadSlots(ts, Reader(next, depth), k + 1, n, Partial(q, k + 1))
  {
    ReadWrittenSlot(q, k, ts, p, depth);
  }

  /** The first `k` written slots, ending at `end`, behind any header count of at least `k`. */
  lemma {:induction false} ReadWrittenSlots(q: Parameter, k: nat, n: nat, ts: seq<Token>, p: nat, depth: nat, end: nat)
    requires k <= SlotCount && k <= n
    requires At(ts, p, SlotsUpTo(q, k))
    requires end == p + |SlotsUpTo(q, k)|
    ensures ReadSlots(ts, Reader(p, depth), 0, n, None) == ReadSlots(ts, Reader(end, depth), k, n, Partial(q, k))
  {
    if k > 0 {
      var mid := p + |SlotsUpTo(q, k - 1)|;
      AtConcat(ts, p, SlotsUpTo(q, k - 1), SlotTokens(q, k - 1));
      ReadWrittenSlots(q, k - 1, n, ts, p, depth, mid);
      ReadSlotsStep(q, k - 1, n, ts, mid, depth, end);
    }
  }

  /** A non-nil value below the depth limit is decoded by the slot loop, one level down. */
  lemma DeserializeArray(
    ts: seq<Token>, p: nat, count: nat, depth: nat, maxDepth: nat, result: Option<Parameter>, end: nat)
    requires p < |ts| && ts[p] == ArrayHeader(count) && depth < maxDepth
    requires ReadSlots(ts, Reader(p + 1, depth + 1), 0, count, None) == Ok(Read(result, Reader(end, depth + 1)))
    ensures Deserialize(ts, Reader(p, depth), maxDepth) == Ok(Read(result, Reader(end, depth)))
  {
    DecodeArrayOf(ts, p, count, depth, maxDepth, result, end);
    DecodeNotNil(ts, Reader(p, depth), maxDepth);
  }

  lemma DecodeNotNil(ts: seq<Token>, r: Reader, maxDepth: nat)
    requires r.pos < |ts| && ts[r.pos] != Nil
    ensures Deserialize(ts, r, maxDepth) == DecodeArray(ts, r, maxDepth)
  {
  }

  lemma DecodeArrayOf(
    ts: seq<Token>, p: nat, count: nat, depth: nat, maxDepth: nat, result: Option<Parameter>, end: nat)
    requires p < |ts| && ts[p] == ArrayHeader(count) && depth < maxDepth
    requires ReadSlots(ts, Reader(p + 1, depth + 1), 0, count, None) == Ok(Read(result, Reader(end, depth + 1)))
    ensures DecodeArray(ts, Reader(p, depth), maxDepth) == Ok(Read(result, Reader(end, depth)))
  {
    DecodeArrayHeader(ts, p, count, depth, maxDepth);
  }

  lemma DecodeArrayHeader(ts: seq<Token>, p: nat, count: nat, depth: nat, maxDepth: nat)
    requires p < |ts| && ts[p] == ArrayHeader(count) && depth < maxDepth
    ensures DecodeArray(ts, Reader(p, depth), maxDepth)
            == LeaveArray(ReadSlots(ts, Reader(p + 1, depth + 1), 0, count, None))
  {
    assert DepthStep(Reader(p, depth), maxDepth) == Ok(Reader(p, depth + 1));
    assert ReadArrayHeader(ts, Reader(p, depth + 1)) == Ok(Read(count, Reader(p + 1, depth + 1)));
  }

  /**
   * Decoding an array header of `k <= 3` followed by the first `k` slots of
   * `q`'s encoding: nothing for `k == 0`; for smaller `k` the name stays
   * unset and the value zero.  The depth is back at its entry value.  The
   * outcome is named by the caller: `result` and `end`.
   */
  lemma DecodeSlotPrefix(
    q: Parameter, k: nat, ts: seq<Token>, p: nat, depth: nat, maxDepth: nat, result: Option<Parameter>, end: nat)
    requires k <= SlotCount
    requires At(ts, p, [ArrayHeader(k)] + SlotsUpTo(q, k))
    requires depth < maxDepth
    requires result == Partial(q, k) && end == p + 1 + |SlotsUpTo(q, k)|
    ensures Deserialize(ts, Reader(p, depth), maxDepth) == Ok(Read(result, Reader(end, depth)))
  {
    AtConcat(ts, p, [ArrayHeader(k)], SlotsUpTo(q, k));
    AtSingle(ts, p, ArrayHeader(k));
    ReadWrittenSlots(q, k, k, ts, p + 1, depth + 1, end);
    DeserializeArray(ts, p, k, depth, maxDepth, result, end);
  }

  /**
   * Round trip: decoding what `Serialize` wrote, wherever it sits in a
   * stream, gives back the Parameter and ends right after the encoding (`end`).
   */
  lemma RoundTrip(q: Parameter, ts: seq<Token>, p: nat, depth: nat, maxDepth: nat, end: nat)
    requires Valid(Param(q))
    requires At(ts, p, Serialize(Some(q)).value)
    requires depth < maxDepth
    requires end == p + |Serialize(Some(q)).value|
    ensures Deserialize(ts, Reader(p, depth), maxDepth)
            == Ok(Read(Some(q), Reader(end, depth)))
  {
    SlotsAreWire(q);
    DecodeSlotPrefix(q, SlotCount, ts, p, depth, maxDepth, Some(q), end);
  }

  /** Slots at index 3 and beyond are skipped, one complete value each. */
  lemma {:induction false} SkipsTrailingSlots(
    extra: seq<Value>, c: nat, acc: Parameter, ts: seq<Token>, p: nat, depth: nat)
    requires c >= SlotCount && Valid(Param(acc))
    requires At(ts, p, EncodeAll(extra))
    ensures ReadSlots(ts, Reader(p, depth), c, c + |extra|, Some(acc))
            == Ok(Read(Some(acc), Reader(p + |EncodeAll(extra)|, depth)))
  {
    if extra != [] {
      AtConcat(ts, p, Encode(extra[0]), EncodeAll(extra[1..]));
      SkipAt(extra[0], ts, p);
      SkipsTrailingSlots(extra[1..], c + 1, acc, ts, p + |Encode(extra[0])|, depth);
    }
  }

  /** The slot loop over three written slots followed by extra values. */
  lemma ReadSlotsWithTrailing(
    q: Parameter, k: nat, extra: seq<Value>, ts: seq<Token>, p: nat, depth: nat, end: nat)
    requires Valid(Param(q)) && k == SlotCount
    requires At(ts, p, SlotsUpTo(q, k) + EncodeAll(extra))
    requires end == p + |SlotsUpTo(q, k)| + |EncodeAll(extra)|
    ensures ReadSlots(ts, Reader(p, depth), 0, k + |extra|, None) == Ok(Read(Some(q), Reader(end, depth)))
  {
    var slots := SlotsUpTo(q, k);
    AtConcat(ts, p, slots, EncodeAll(extra));
    var mid := p + |slots|;
    ReadThreeSlots(q, k, k + |extra|, ts, p, depth, mid);
    SkipsTrailingSlots(extra, k, q, ts, mid, depth);
  }

  /** All three written slots give back the whole Parameter, whatever the slot count. */
  lemma ReadThreeSlots(q: Parameter, k: nat, n: nat, ts: seq<Token>, p: nat, depth: nat, end: nat)
    requires Valid(Param(q)) && k == SlotCount && k <= n
    requires At(ts, p, SlotsUpTo(q, k))
    requires end == p + |SlotsUpTo(q, k)|
    ensures ReadSlots(ts, Reader(p, depth), 0, n, None) == ReadSlots(ts, Reader(end, depth), k, n, Some(q))
  {
    ReadWrittenSlots(q, k, n, ts, p, depth, end);
    assert Partial(q, k) == Some(q);
  }

  /**
   * Forward compatibility: extra trailing slots after the three known ones
   * do not change the decoded Parameter; the extra values are consumed.
   * The end position is named by the caller: `end`.
   */
  lemma ForwardCompatible(
    q: Parameter, extra: seq<Value>, ts: seq<Token>, p: nat, depth: nat, maxDepth: nat, end: nat)
    requires Valid(Param(q))
    requires At(ts, p, [ArrayHeader(SlotCount + |extra|)] + SlotsUpTo(q, SlotCount) + EncodeAll(extra))
    requires depth < maxDepth
    requires end == p + 1 + |SlotsUpTo(q, SlotCount)| + |EncodeAll(extra)|
    ensures Deserialize(ts, Reader(p, depth), maxDepth) == Ok(Read(Some(q), Reader(end, depth)))
  {
    var n := SlotCount + |extra|;
    var body := SlotsUpTo(q, SlotCount) + EncodeAll(extra);
    Assoc([ArrayHeader(n)], SlotsUpTo(q, SlotCount), EncodeAll(extra));
    AtConcat(ts, p, [ArrayHeader(n)], body);
    AtSingle(ts, p, ArrayHeader(n));
    ReadSlotsWithTrailing(q, SlotCount, extra, ts, p + 1, depth + 1, end);
    DeserializeArray(ts, p, n, depth, maxDepth, Some(q), end);
  }
}
