/**
 * `ElementDefinitionFormatter`: the hand-written positional MessagePack
 * formatter of an ElementDefinition.
 *
 * Slot layout, behind an array header of 5:
 *   0  Iid, as 16 raw bytes
 *   1  Aliases, as an array header and the alias strings
 *   2  Description
 *   3  Name
 *   4  Parameters, as an array header and the 16-byte identifiers
 * On reading, a leading nil is "no entity", slots beyond 4 are skipped, and
 * the entity is created when slot 0 is read, so an empty array is also "no
 * entity".
 */
module ElementDefinitionFormatter {
  import opened Wrappers
  import opened Primitives
  import opened Model
  import opened MsgPack
  import opened Seqs

  const SlotCount: nat := 5

  function WriteGuids(gs: seq<Guid>): (ts: seq<Token>)
    ensures |ts| == |gs| && forall i | 0 <= i < |gs| :: ts[i] == Bin(ToByteArray(gs[i]))
  {
    seq(|gs|, i requires 0 <= i < |gs| => Bin(ToByteArray(gs[i])))
  }

  /** The tokens `Serialize` writes for one slot. */
  function SlotTokens(e: ElementDefinition, slot: nat): seq<Token>
    requires e.aliases.Some? && slot < SlotCount
  {
    match slot
    case 0 => [Bin(ToByteArray(e.iid))]
    case 1 => [ArrayHeader(|e.aliases.value|)] + WriteStrings(e.aliases.value)
    case 2 => [WriteString(e.description)]
    case 3 => [WriteString(e.name)]
    case 4 => [ArrayHeader(|e.parameters|)] + WriteGuids(e.parameters)
  }

  /** Slots `0 .. n-1`, in order. */
  function SlotsUpTo(e: ElementDefinition, n: nat): seq<Token>
    requires e.aliases.Some? && n <= SlotCount
  {
    if n == 0 then [] else SlotsUpTo(e, n - 1) + SlotTokens(e, n - 1)
  }

  /**
   * The encoding of `e` as `Serialize` writes it: the array header, then the
   * five slots in order.
   */
  function Wire(e: ElementDefinition): seq<Token>
    requires e.aliases.Some?
  {
    [ArrayHeader(SlotCount)]
    + [Bin(ToByteArray(e.iid))]
    + [ArrayHeader(|e.aliases.value|)] + WriteStrings(e.aliases.value)
    + [WriteString(e.description)]
    + [WriteString(e.name)]
    + [ArrayHeader(|e.parameters|)] + WriteGuids(e.parameters)
  }

  /** Writing the five slots one after the other produces `Wire`. */
  lemma SlotsAreWire(e: ElementDefinition)
    requires e.aliases.Some?
    ensures [ArrayHeader(SlotCount)] + SlotsUpTo(e, SlotCount) == Wire(e)
  {
    var h, s0 := [ArrayHeader(SlotCount)], [Bin(ToByteArray(e.iid))];
    var a, ws := [ArrayHeader(|e.aliases.value|)], WriteStrings(e.aliases.value);
    var d, n := [WriteString(e.description)], [WriteString(e.name)];
    var m, wg := [ArrayHeader(|e.parameters|)], WriteGuids(e.parameters);
    EmptyLeft(s0);
    assert SlotsUpTo(e, 1) == s0;
    Assoc(s0, a, ws);
    assert SlotsUpTo(e, 2) == s0 + a + ws;
    assert SlotsUpTo(e, 4) == s0 + a + ws + d + n;
    var x4 := s0 + a + ws + d + n;
    Assoc(x4, m, wg);
    assert SlotsUpTo(e, 5) == x4 + m + wg;
    Assoc(h, x4 + m, wg);
    Assoc(h, x4, m);
    Assoc(h, s0 + a + ws + d, n);
    Assoc(h, s0 + a + ws, d);
    Assoc(h, s0 + a, ws);
    Assoc(h, s0, a);
  }

  /** `Serialize`: a null entity is an argument error; unset aliases fail when counted. */
  function Serialize(ed: Option<ElementDefinition>): (r: Result<seq<Token>>)
    ensures ed.None? ==> r == Err(ArgumentNull("elementDefinition"))
    ensures ed.Some? && ed.value.aliases.None? ==> r == Err(NullReference)
    ensures ed.Some? && ed.value.aliases.Some? ==> r == Ok(Wire(ed.value))
  {
    if ed.None? then Err(ArgumentNull("elementDefinition"))
    else if ed.value.aliases.None? then Err(NullReference)
    else
      SlotsAreWire(ed.value);
      Ok([ArrayHeader(SlotCount)] + SlotsUpTo(ed.value, SlotCount))
  }

  function ReadGuids(ts: seq<Token>, r: Reader, count: nat): (res: Result<Read<seq<Guid>>>)
    requires r.pos <= |ts|
    ensures res.Ok? ==> |res.value.value| == count && res.value.next == r.(pos := r.pos + count)
    ensures res.Ok? ==> r.pos + count <= |ts|
    decreases count
  {
    if count == 0 then Ok(Read([], r))
    else
      var first :- ReadGuid(ts, r);
      var rest :- ReadGuids(ts, first.next, count - 1);
      Ok(Read([first.value] + rest.value, rest.next))
  }

  /** Slot 0: the entity is created with the identifier read. */
  function ReadIidSlot(ts: seq<Token>, r: Reader): (res: Result<Read<Option<ElementDefinition>>>)
    requires r.pos <= |ts|
    ensures res.Ok? ==> res.value.next == Advance(r) && r.pos < |ts|
    ensures res.Ok? ==> res.value.value.Some? && Valid(ED(res.value.value.value))
  {
    var iid :- ReadGuid(ts, r);
    Ok(Read(Some(NewElementDefinitionWithIid(iid.value)), iid.next))
  }

  /** Slot 1: a fresh alias list holding the strings read. */
  function ReadAliasesSlot(ts: seq<Token>, r: Reader, e: ElementDefinition): (res: Result<Read<Option<ElementDefinition>>>)
    requires r.pos <= |ts|
    ensures res.Ok? ==> r.pos < res.value.next.pos <= |ts| && res.value.next.depth == r.depth
    ensures res.Ok? ==> res.value.value.Some? && res.value.value.value.classKind == e.classKind
  {
    var count :- ReadArrayHeader(ts, r);
    var aliases :- ReadStrings(ts, count.next, count.value);
    Ok(Read(Some(e.(aliases := Some(aliases.value))), aliases.next))
  }

  /** Slots 2 and 3: the description or the name. */
  function ReadStringSlot(ts: seq<Token>, r: Reader, e: ElementDefinition, isName: bool)
    : (res: Result<Read<Option<ElementDefinition>>>)
    requires r.pos <= |ts|
    ensures res.Ok? ==> res.value.next == Advance(r) && r.pos < |ts|
    ensures res.Ok? ==> res.value.value.Some? && res.value.value.value.classKind == e.classKind
  {
    var text :- ReadString(ts, r);
    if isName then Ok(Read(Some(e.(name := text.value)), text.next))
    else Ok(Read(Some(e.(description := text.value)), text.next))
  }

  /** Slot 4: the identifiers read are appended to the parameter list. */
  function ReadParametersSlot(ts: seq<Token>, r: Reader, e: ElementDefinition)
    : (res: Result<Read<Option<ElementDefinition>>>)
    requires r.pos <= |ts|
    ensures res.Ok? ==> r.pos < res.value.next.pos <= |ts| && res.value.next.depth == r.depth
    ensures res.Ok? ==> res.value.value.Some? && res.value.value.value.classKind == e.classKind
  {
    var count :- ReadArrayHeader(ts, r);
    var parameters :- ReadGuids(ts, count.next, count.value);
    Ok(Read(Some(e.(parameters := e.parameters + parameters.value)), parameters.next))
  }


  /** One pass of the slot loop: the `switch (counter)`. */
  function ReadSlot(ts: seq<Token>, r: Reader, slot: nat, acc: Option<ElementDefinition>)
    : (res: Result<Read<Option<ElementDefinition>>>)
    requires r.pos <= |ts|
    requires acc.Some? <==> slot > 0
    requires acc.Some? ==> Valid(ED(acc.value))
    ensures res.Ok? ==> r.pos < res.value.next.pos <= |ts| && res.value.next.depth == r.depth
    ensures res.Ok? ==> res.value.value.Some? && Valid(ED(res.value.value.value))
    ensures res.Ok? && slot >= SlotCount ==> res.value.value == acc
  {
    match slot
    case 0 => ReadIidSlot(ts, r)
    case 1 => ReadAliasesSlot(ts, r, acc.value)
    case 2 => ReadStringSlot(ts, r, acc.value, false)
    case 3 => ReadStringSlot(ts, r, acc.value, true)
    case 4 => ReadParametersSlot(ts, r, acc.value)
    case _ => SkipSlot(ts, r, acc)
  }

  /** The slot loop `for (counter = ...; counter < count; counter++)`. */
  function ReadSlots(ts: seq<Token>, r: Reader, counter: nat, count: nat, acc: Option<ElementDefinition>)
    : (res: Result<Read<Option<ElementDefinition>>>)
    requires r.pos <= |ts| && counter <= count
    requires acc.Some? <==> counter > 0
    requires acc.Some? ==> Valid(ED(acc.value))
    ensures res.Ok? ==> r.pos <= res.value.next.pos <= |ts| && res.value.next.depth == r.depth
    ensures res.Ok? ==> (res.value.value.Some? <==> count > 0)
    ensures res.Ok? && res.value.value.Some? ==> Valid(ED(res.value.value.value))
    decreases count - counter
  {
    if counter == count then Ok(Read(acc, r))
    else
      var step :- ReadSlot(ts, r, counter, acc);
      ReadSlots(ts, step.next, counter + 1, count, step.value)
  }

  /**
   * `Deserialize`: nil is "no entity"; otherwise one nesting level is
   * entered for the array and left again once all its slots are read.
   */
  function Deserialize(ts: seq<Token>, r: Reader, maxDepth: nat): (res: Result<Read<Option<ElementDefinition>>>)
    requires r.pos <= |ts|
    ensures r.pos == |ts| ==> res == Err(EndOfStream)
    ensures r.pos < |ts| && ts[r.pos] == Nil ==> res == Ok(Read(None, Advance(r)))
    ensures r.pos < |ts| && ts[r.pos] != Nil && r.depth >= maxDepth ==> res == Err(DepthExceeded(maxDepth))
    ensures res.Ok? ==> r.pos < res.value.next.pos <= |ts| && res.value.next.depth == r.depth
    ensures res.Ok? && res.value.value.Some? ==> Valid(ED(res.value.value.value))
  {
    var nil :- TryReadNil(ts, r);
    if nil.value then Ok(Read(None, nil.next)) else DecodeArray(ts, r, maxDepth)
  }

  /** The array of a non-nil value, one nesting level down. */
  function DecodeArray(ts: seq<Token>, r: Reader, maxDepth: nat): (res: Result<Read<Option<ElementDefinition>>>)
    requires r.pos <= |ts|
    ensures r.depth >= maxDepth ==> res == Err(DepthExceeded(maxDepth))
    ensures res.Ok? ==> r.pos < res.value.next.pos <= |ts| && res.value.next.depth == r.depth
    ensures res.Ok? && res.value.value.Some? ==> Valid(ED(res.value.value.value))
  {
    var stepped :- DepthStep(r, maxDepth);
    var count :- ReadArrayHeader(ts, stepped);
    LeaveArray(ReadSlots(ts, count.next, 0, count.value, None))
  }


  /** What reading the first `n` slots of `e`'s encoding builds. */
  function Partial(e: ElementDefinition, n: nat): (r: Option<ElementDefinition>)
    requires e.aliases.Some? && n <= SlotCount
    ensures r.Some? <==> n > 0
    ensures r.Some? ==> Valid(ED(r.value))
  {
    if n == 0 then None
    else
      var created := NewElementDefinitionWithIid(e.iid);
      Some(created.(
        aliases := if n > 1 then e.aliases else None,
        description := if n > 2 then e.description else None,
        name := if n > 3 then e.name else None,
        parameters := if n > 4 then e.parameters else []))
  }

  lemma {:induction false} ReadWrittenGuids(gs: seq<Guid>, ts: seq<Token>, p: nat, depth: nat)
    requires At(ts, p, WriteGuids(gs))
    ensures ReadGuids(ts, Reader(p, depth), |gs|) == Ok(Read(gs, Reader(p + |gs|, depth)))
  {
    if gs != [] {
      var written, rest := WriteGuids(gs), gs[1..];
      AtFirst(ts, p, written);
      assert written[1..] == WriteGuids(rest);
      ReadWrittenGuid(gs[0], ts, Reader(p, depth));
      ReadWrittenGuids(rest, ts, p + 1, depth);
      ReadGuidsStep(ts, Reader(p, depth), |gs|, gs[0], rest, p + |gs|);
      assert [gs[0]] + rest == gs;
    }
  }

  /** One identifier read in front of the rest, stated over its outcome. */
  lemma ReadGuidsStep(ts: seq<Token>, r: Reader, n: nat, g: Guid, rest: seq<Guid>, end: nat)
    requires r.pos <= |ts| && n > 0
    requires ReadGuid(ts, r) == Ok(Read(g, Advance(r)))
    requires ReadGuids(ts, Advance(r), n - 1) == Ok(Read(rest, r.(pos := end)))
    ensures ReadGuids(ts, r, n) == Ok(Read([g] + rest, r.(pos := end)))
  {
  }

  /** Reading one written slot moves from `Partial(e, k)` to `Partial(e, k + 1)`. */
  lemma ReadWrittenSlot(e: ElementDefinition, k: nat, ts: seq<Token>, p: nat, depth: nat)
    requires e.aliases.Some? && k < SlotCount
    requires At(ts, p, SlotTokens(e, k))
    ensures ReadSlot(ts, Reader(p, depth), k, Partial(e, k))
            == Ok(Read(Partial(e, k + 1), Reader(p + |SlotTokens(e, k)|, depth)))
  {
    assert ts[p + 0] == SlotTokens(e, k)[0];
    match k
    case 0 =>
      BytesRoundTrip(e.iid);
    case 1 =>
      var aliases := e.aliases.value;
      AtConcat(ts, p, [ArrayHeader(|aliases|)], WriteStrings(aliases));
      ReadWrittenStrings(aliases, ts, p + 1, depth);
    case 2 =>
    case 3 =>
    case 4 =>
      AtConcat(ts, p, [ArrayHeader(|e.parameters|)], WriteGuids(e.parameters));
      ReadWrittenGuids(e.parameters, ts, p + 1, depth);
      assert [] + e.parameters == e.parameters;
  }

  /** One turn of the slot loop over a written slot, ending at `next`. */
  lemma ReadSlotsStep(e: ElementDefinition, k: nat, n: nat, ts: seq<Token>, p: nat, depth: nat, next: nat)
    requires e.aliases.Some? && k < SlotCount && k < n
    requires At(ts, p, SlotTokens(e, k))
    requires next == p + |SlotTokens(e, k)|
    ensures ReadSlots(ts, Reader(p, depth), k, n, Partial(e, k))
            == ReadSlots(ts, Reader(next, depth), k + 1, n, Partial(e, k + 1))
  {
    ReadWrittenSlot(e, k, ts, p, depth);
  }

  /** The first `k` written slots, ending at `end`, behind any header count of at least `k`. */
  lemma {:induction false} ReadWrittenSlots(
    e: ElementDefinition, k: nat, n: nat, ts: seq<Token>, p: nat, depth: nat, end: nat)
    requires e.aliases.Some? && k <= SlotCount && k <= n
    requires At(ts, p, SlotsUpTo(e, k))
    requires end == p + |SlotsUpTo(e, k)|
    ensures ReadSlots(ts, Reader(p, depth), 0, n, None) == ReadSlots(ts, Reader(end, depth), k, n, Partial(e, k))
  {
    if k > 0 {
      var mid := p + |SlotsUpTo(e, k - 1)|;
      AtConcat(ts, p, SlotsUpTo(e, k - 1), SlotTokens(e, k - 1));
      ReadWrittenSlots(e, k - 1, n, ts, p, depth, mid);
      ReadSlotsStep(e, k - 1, n, ts, mid, depth, end);
    }
  }

  /** All `k` written slots, behind a header count of exactly `k`. */
  lemma ReadAllWrittenSlots(e: ElementDefinition, k: nat, ts: seq<Token>, p: nat, depth: nat, end: nat)
    requires e.aliases.Some? && k <= SlotCount
    requires At(ts, p, SlotsUpTo(e, k))
    requires end == p + |SlotsUpTo(e, k)|
    ensures ReadSlots(ts, Reader(p, depth), 0, k, None) == Ok(Read(Partial(e, k), Reader(end, depth)))
  {
    ReadWrittenSlots(e, k, k, ts, p, depth, end);
  }

  /** A non-nil value below the depth limit is decoded by the slot loop, one level down. */
  lemma DeserializeArray(
    ts: seq<Token>, p: nat, count: nat, depth: nat, maxDepth: nat, result: Option<ElementDefinition>, end: nat)
    requires p < |ts| && ts[p] == ArrayHeader(count) && depth < maxDepth
    requires ReadSlots(ts, Reader(p + 1, depth + 1), 0, count, None) == Ok(Read(result, Reader(end, depth + 1)))
    ensures Deserialize(ts, Reader(p, depth), maxDepth) == Ok(Read(result, Reader(end, depth)))
  {
    DecodeArrayOf(ts, p, count, depth, maxDepth, result, end);
    DecodeNotNil(ts, Reader(p, depth), maxDepth);
  }

  lemma DecodeNotNil(ts: seq<Token>, r: Reader, maxDepth: nat)
    requires r.pos < |ts| && ts[r.pos] != Nil
    ensures Deserialize(ts, r, maxDepth) == DecodeArray(ts, r, maxDepth)
  {
  }

  lemma DecodeArrayOf(
    ts: seq<Token>, p: nat, count: nat, depth: nat, maxDepth: nat, result: Option<ElementDefinition>, end: nat)
    requires p < |ts| && ts[p] == ArrayHeader(count) && depth < maxDepth
    requires ReadSlots(ts, Reader(p + 1, depth + 1), 0, count, None) == Ok(Read(result, Reader(end, depth + 1)))
    ensures DecodeArray(ts, Reader(p, depth), maxDepth) == Ok(Read(result, Reader(end, depth)))
  {
    DecodeArrayHeader(ts, p, count, depth, maxDepth);
  }

  lemma DecodeArrayHeader(ts: seq<Token>, p: nat, count: nat, depth: nat, maxDepth: nat)
    requires p < |ts| && ts[p] == ArrayHeader(count) && depth < maxDepth
    ensures DecodeArray(ts, Reader(p, depth), maxDepth)
            == LeaveArray(ReadSlots(ts, Reader(p + 1, depth + 1), 0, count, None))
  {
    assert DepthStep(Reader(p, depth), maxDepth) == Ok(Reader(p, depth + 1));
    assert ReadArrayHeader(ts, Reader(p, depth + 1)) == Ok(Read(count, Reader(p + 1, depth + 1)));
  }

  /**
   * Decoding an array header of `k <= 5` followed by the first `k` slots of
   * `e`'s encoding: nothing for `k == 0`; for smaller `k` the later fields
   * keep their constructor defaults (aliases and strings unset, no
   * parameters).  The depth is back at its entry value.  The outcome is
   * named by the caller: `result` and `end`.
   */
  lemma DecodeSlotPrefix(
    e: ElementDefinition, k: nat, ts: seq<Token>, p: nat, depth: nat, maxDepth: nat,
    result: Option<ElementDefinition>, end: nat)
    requires e.aliases.Some? && k <= SlotCount
    requires At(ts, p, [ArrayHeader(k)] + SlotsUpTo(e, k))
    requires depth < maxDepth
    requires result == Partial(e, k) && end == p + 1 + |SlotsUpTo(e, k)|
    ensures Deserialize(ts, Reader(p, depth), maxDepth) == Ok(Read(result, Reader(end, depth)))
  {
    AtConcat(ts, p, [ArrayHeader(k)], SlotsUpTo(e, k));
    AtSingle(ts, p, ArrayHeader(k));
    ReadAllWrittenSlots(e, k, ts, p + 1, depth + 1, end);
    DeserializeArray(ts, p, k, depth, maxDepth, result, end);
  }

  /**
   * Round trip: decoding what `Serialize` wrote, wherever it sits in a
   * stream, gives back the entity and ends right after the encoding (`end`).
   */
  lemma RoundTrip(e: ElementDefinition, ts: seq<Token>, p: nat, depth: nat, maxDepth: nat, end: nat)
    requires Valid(ED(e)) && e.aliases.Some?
    requires At(ts, p, Serialize(Some(e)).value)
    requires depth < maxDepth
    requires end == p + |Serialize(Some(e)).value|
    ensures Deserialize(ts, Reader(p, depth), maxDepth)
            == Ok(Read(Some(e), Reader(end, depth)))
  {
    SlotsAreWire(e);
    DecodeSlotPrefix(e, SlotCount, ts, p, depth, maxDepth, Some(e), end);
  }

  /** Slots at index 5 and beyond are skipped, one complete value each. */
  lemma {:induction false} SkipsTrailingSlots(
    extra: seq<Value>, c: nat, acc: ElementDefinition, ts: seq<Token>, p: nat, depth: nat)
    requires c >= SlotCount && Valid(ED(acc))
    requires At(ts, p, EncodeAll(extra))
    ensures ReadSlots(ts, Reader(p, depth), c, c + |extra|, Some(acc))
            == Ok(Read(Some(acc), Reader(p + |EncodeAll(extra)|, depth)))
  {
    if extra != [] {
      AtConcat(ts, p, Encode(extra[0]), EncodeAll(extra[1..]));
      SkipAt(extra[0], ts, p);
      SkipsTrailingSlots(extra[1..], c + 1, acc, ts, p + |Encode(extra[0])|, depth);
    }
  }

  /** The slot loop over five written slots followed by extra values. */
  lemma ReadSlotsWithTrailing(
    e: ElementDefinition, k: nat, extra: seq<Value>, ts: seq<Token>, p: nat, depth: nat, end: nat)
    requires Valid(ED(e)) && e.aliases.Some? && k == SlotCount
    requires At(ts, p, SlotsUpTo(e, k) + EncodeAll(extra))
    requires end == p + |SlotsUpTo(e, k)| + |EncodeAll(extra)|
    ensures ReadSlots(ts, Reader(p, depth), 0, k + |extra|, None) == Ok(Read(Some(e), Reader(end, depth)))
  {
    var slots := SlotsUpTo(e, k);
    AtConcat(ts, p, slots, EncodeAll(extra));
    var mid := p + |slots|;
    ReadFiveSlots(e, k, k + |extra|, ts, p, depth, mid);
    SkipsTrailingSlots(extra, k, e, ts, mid, depth);
  }

  /** All five written slots give back the whole entity, whatever the slot count. */
  lemma ReadFiveSlots(e: ElementDefinition, k: nat, n: nat, ts: seq<Token>, p: nat, depth: nat, end: nat)
    requires Valid(ED(e)) && e.aliases.Some? && k == SlotCount && k <= n
    requires At(ts, p, SlotsUpTo(e, k))
    requires end == p + |SlotsUpTo(e, k)|
    ensures ReadSlots(ts, Reader(p, depth), 0, n, None) == ReadSlots(ts, Reader(end, depth), k, n, Some(e))
  {
    ReadWrittenSlots(e, k, n, ts, p, depth, end);
    assert Partial(e, k) == Some(e);
  }

  /**
   * Forward compatibility: an encoding written by a newer writer with extra
   * trailing slots decodes to the same entity; the extra values are consumed.
   * The end position is named by the caller: `end`.
   */
  lemma ForwardCompatible(
    e: ElementDefinition, extra: seq<Value>, ts: seq<Token>, p: nat, depth: nat, maxDepth: nat, end: nat)
    requires Valid(ED(e)) && e.aliases.Some?
    requires At(ts, p, [ArrayHeader(SlotCount + |extra|)] + SlotsUpTo(e, SlotCount) + EncodeAll(extra))
    requires depth < maxDepth
    requires end == p + 1 + |SlotsUpTo(e, SlotCount)| + |EncodeAll(extra)|
    ensures Deserialize(ts, Reader(p, depth), maxDepth) == Ok(Read(Some(e), Reader(end, depth)))
  {
    var n := SlotCount + |extra|;
    var body := SlotsUpTo(e, SlotCount) + EncodeAll(extra);
    Assoc([ArrayHeader(n)], SlotsUpTo(e, SlotCount), EncodeAll(extra));
    AtConcat(ts, p, [ArrayHeader(n)], body);
    AtSingle(ts, p, ArrayHeader(n));
    ReadSlotsWithTrailing(e, SlotCount, extra, ts, p + 1, depth + 1, end);
    DeserializeArray(ts, p, n, depth, maxDepth, Some(e), end);
  }
}
