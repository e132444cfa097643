/**
 * `Serializer`: the MessagePack path end to end.  Both directions build the
 * same options (the Thing resolver ahead of the standard one); serializing
 * groups the Things into a `Payload` and encodes it, deserializing decodes a
 * `Payload` and flattens it.
 *
 * The payload's own formatter is the library's generated one for a class
 * with string keys: a map of three members, written in declaration order,
 * read in any order, unknown members skipped.  Its two lists go through the
 * library's list formatter, whose elements go through the formatter the
 * resolver chain picks for the element type.
 */
module Serializer {
  import opened Wrappers
  import opened Primitives
  import opened Model
  import opened Payloads
  import PayloadFactory
  import opened MsgPack
  import opened Seqs
  import opened ThingResolver
  import EDF = ElementDefinitionFormatter
  import PF = ParameterFormatter

  // ---------------------------------------------------------------------
  // Resolver composition
  // ---------------------------------------------------------------------

  datatype Resolver = ThingFormatterResolver | StandardResolver

  datatype Options = Options(resolvers: seq<Resolver>, maximumObjectGraphDepth: nat)

  /**
   * The options both `SerializeToStream` and `Deserialize` build: the Thing
   * resolver first, then the standard resolver, and the standard security
   * settings' depth limit.
   */
  const SerializerOptions: Options :=
    Options([ThingFormatterResolver, StandardResolver], DefaultMaximumObjectGraphDepth)

  /** One resolver's answer; the standard resolver's table is a parameter. */
  function Ask(res: Resolver, t: TypeId, standard: TypeId -> Option<Formatter>): Option<Formatter> {
    match res
    case ThingFormatterResolver => GetFormatterHelper(t)
    case StandardResolver => standard(t)
  }

  /** `CompositeResolver`: the answer of the first resolver in the chain that has one. */
  function Resolve(chain: seq<Resolver>, t: TypeId, standard: TypeId -> Option<Formatter>): (r: Option<Formatter>)
    ensures r.Some? <==> exists i | 0 <= i < |chain| :: Ask(chain[i], t, standard).Some?
    ensures r.Some? ==>
              exists i | 0 <= i < |chain| ::
                && Ask(chain[i], t, standard) == r
                && forall j | 0 <= j < i :: Ask(chain[j], t, standard).None?
  {
    if chain == [] then None
    else if Ask(chain[0], t, standard).Some? then
      Ask(chain[0], t, standard)
    else
      var r := Resolve(chain[1..], t, standard);
      assert forall i | 1 <= i < |chain| :: chain[i] == chain[1..][i - 1];
      assert r.Some? ==> exists i | 0 <= i < |chain| ::
                && Ask(chain[i], t, standard) == r
                && forall j | 0 <= j < i :: Ask(chain[j], t, standard).None? by {
        if r.Some? {
          var i :| 0 <= i < |chain[1..]| && Ask(chain[1..][i], t, standard) == r
                   && forall j | 0 <= j < i :: Ask(chain[1..][j], t, standard).None?;
          assert Ask(chain[i + 1], t, standard) == r;
          forall j | 0 <= j < i + 1 ensures Ask(chain[j], t, standard).None? {
            if j > 0 {
              assert chain[j] == chain[1..][j - 1];
            }
          }
        }
      }
      r
  }

  /**
   * With the serializer's options the Thing resolver decides whenever it
   * answers, and the two entity types always get their hand-written
   * formatters, whatever the standard resolver would have offered.
   */
  lemma BespokeFirst(t: TypeId, standard: TypeId -> Option<Formatter>)
    ensures GetFormatterHelper(t).Some? ==> Resolve(SerializerOptions.resolvers, t, standard) == GetFormatterHelper(t)
    ensures GetFormatterHelper(t).None? ==> Resolve(SerializerOptions.resolvers, t, standard) == standard(t)
    ensures Resolve(SerializerOptions.resolvers, ElementDefinitionType, standard) == Some(BespokeElementDefinition)
    ensures Resolve(SerializerOptions.resolvers, ParameterType, standard) == Some(BespokeParameter)
  {
    var chain := SerializerOptions.resolvers;
    assert chain[1..] == [StandardResolver];
    assert chain[1..][1..] == [];
  }

  // ---------------------------------------------------------------------
  // Writing
  // ---------------------------------------------------------------------

  /** The formatter's encodings of `es`, one after the other. */
  function EDTokens(es: seq<ElementDefinition>): seq<Token>
    requires AliasesSet(es)
  {
    if es == [] then [] else EDF.Wire(es[0]) + EDTokens(es[1..])
  }

  function ParamTokens(ps: seq<Parameter>): seq<Token> {
    if ps == [] then [] else PF.Wire(ps[0]) + ParamTokens(ps[1..])
  }

  /** The list formatter's elements: each through the ElementDefinition formatter. */
  function WriteEDElements(es: seq<ElementDefinition>): (r: Result<seq<Token>>)
    ensures r.Ok? <==> AliasesSet(es)
    ensures r.Ok? ==> r.value == EDTokens(es)
    ensures r.Err? ==> r.error == NullReference
  {
    if es == [] then Ok([])
    else
      var head :- EDF.Serialize(Some(es[0]));
      var tail :- WriteEDElements(es[1..]);
      Ok(head + tail)
  }

  /** Each Parameter through its formatter, which cannot fail on a present Parameter. */
  function WriteParamElements(ps: seq<Parameter>): (r: seq<Token>)
    ensures r == ParamTokens(ps)
  {
    if ps == [] then []
    else PF.Serialize(Some(ps[0])).value + WriteParamElements(ps[1..])
  }

  /** A payload the generated formatter can write: a present ElementDefinition list has every Aliases set. */
  predicate Writable(p: Payload) {
    p.elementDefinition.Some? ==> AliasesSet(p.elementDefinition.value)
  }

  /** The list formatter's encoding: nil for a null list, otherwise a header and the elements. */
  function EDListTokens(es: Option<seq<ElementDefinition>>): seq<Token>
    requires es.Some? ==> AliasesSet(es.value)
  {
    if es.None? then [Nil] else [ArrayHeader(|es.value|)] + EDTokens(es.value)
  }

  function ParamListTokens(ps: Option<seq<Parameter>>): seq<Token> {
    if ps.None? then [Nil] else [ArrayHeader(|ps.value|)] + ParamTokens(ps.value)
  }

  /** The "Created" member. */
  function CreatedMember(p: Payload): seq<Token> {
    [Str(CreatedKey), Timestamp(p.created)]
  }

  function EDMember(p: Payload): seq<Token>
    requires Writable(p)
  {
    [Str(ElementDefinitionKey)] + EDListTokens(p.elementDefinition)
  }

  function ParamMember(p: Payload): seq<Token> {
    [Str(ParameterKey)] + ParamListTokens(p.parameter)
  }

  /** The encoding of a payload: a map of its three members, in declaration order. */
  function PayloadTokens(p: Payload): seq<Token>
    requires Writable(p)
  {
    [MapHeader(|Keys|)] + (CreatedMember(p) + (EDMember(p) + ParamMember(p)))
  }

  /** The list formatter over ElementDefinitions; a null list is written as nil. */
  function WriteEDList(es: Option<seq<ElementDefinition>>): (r: Result<seq<Token>>)
    ensures r.Ok? <==> (es.Some? ==> AliasesSet(es.value))
    ensures r.Ok? ==> r.value == EDListTokens(es)
    ensures es.None? ==> r == Ok([Nil])
    ensures r.Err? ==> r.error == NullReference
  {
    if es.None? then Ok([Nil])
    else
      var items :- WriteEDElements(es.value);
      Ok([ArrayHeader(|es.value|)] + items)
  }

  function WriteParamList(ps: Option<seq<Parameter>>): (r: seq<Token>)
    ensures r == ParamListTokens(ps)
  {
    if ps.None? then [Nil] else [ArrayHeader(|ps.value|)] + WriteParamElements(ps.value)
  }

  /**
   * The generated payload formatter; an ElementDefinition without Aliases
   * fails the whole write, and a null list is written as nil.
   */
  function EncodePayload(p: Payload): (r: Result<seq<Token>>)
    ensures r.Ok? <==> Writable(p)
    ensures r.Ok? ==> r.value == PayloadTokens(p)
    ensures r.Err? ==> r.error == NullReference
  {
    var eds :- WriteEDList(p.elementDefinition);
    var pars := WriteParamList(p.parameter);
    Ok([MapHeader(|Keys|)]
       + ([Str(CreatedKey), Timestamp(p.created)]
          + ([Str(ElementDefinitionKey)] + eds
             + ([Str(ParameterKey)] + pars))))
  }

  // ---------------------------------------------------------------------
  // Reading
  // ---------------------------------------------------------------------

  /** `n` ElementDefinitions in a row; a nil element has no Thing to stand for. */
  function ReadEDElements(ts: seq<Token>, r: Reader, n: nat, maxDepth: nat)
    : (res: Result<Read<seq<ElementDefinition>>>)
    requires r.pos <= |ts|
    ensures res.Ok? ==> |res.value.value| == n && r.pos <= res.value.next.pos <= |ts| && res.value.next.depth == r.depth
    ensures res.Ok? ==> forall i | 0 <= i < n :: Valid(ED(res.value.value[i]))
    decreases n
  {
    if n == 0 then Ok(Read([], r))
    else
      var e :- EDF.Deserialize(ts, r, maxDepth);
      if e.value.None? then Err(NullElement)
      else
        var rest :- ReadEDElements(ts, e.next, n - 1, maxDepth);
        Ok(Read([e.value.value] + rest.value, rest.next))
  }

  function ReadParamElements(ts: seq<Token>, r: Reader, n: nat, maxDepth: nat)
    : (res: Result<Read<seq<Parameter>>>)
    requires r.pos <= |ts|
    ensures res.Ok? ==> |res.value.value| == n && r.pos <= res.value.next.pos <= |ts| && res.value.next.depth == r.depth
    ensures res.Ok? ==> forall i | 0 <= i < n :: Valid(Param(res.value.value[i]))
    decreases n
  {
    if n == 0 then Ok(Read([], r))
    else
      var q :- PF.Deserialize(ts, r, maxDepth);
      if q.value.None? then Err(NullElement)
      else
        var rest :- ReadParamElements(ts, q.next, n - 1, maxDepth);
        Ok(Read([q.value.value] + rest.value, rest.next))
  }

  /**
   * The list formatter over ElementDefinitions.  A nil list is a null list,
   * kept as such in the payload (only flattening rejects it); otherwise the
   * list is one nesting level.
   */
  function ReadElementDefinitions(ts: seq<Token>, r: Reader, maxDepth: nat)
    : (res: Result<Read<Option<seq<ElementDefinition>>>>)
    requires r.pos <= |ts|
    ensures r.pos < |ts| && ts[r.pos] == Nil ==> res == Ok(Read(None, Advance(r)))
    ensures r.pos < |ts| && ts[r.pos] != Nil && r.depth >= maxDepth ==> res == Err(DepthExceeded(maxDepth))
    ensures res.Ok? ==> r.pos < res.value.next.pos <= |ts| && res.value.next.depth == r.depth
    ensures res.Ok? && res.value.value.Some? ==>
              forall i | 0 <= i < |res.value.value.value| :: Valid(ED(res.value.value.value[i]))
  {
    var nil :- TryReadNil(ts, r);
    if nil.value then Ok(Read(None, nil.next))
    else
      var stepped :- DepthStep(r, maxDepth);
      var count :- ReadArrayHeader(ts, stepped);
      var items :- ReadEDElements(ts, count.next, count.value, maxDepth);
      Ok(Read(Some(items.value), items.next.(depth := items.next.depth - 1)))
  }

  function ReadParameters(ts: seq<Token>, r: Reader, maxDepth: nat)
    : (res: Result<Read<Option<seq<Parameter>>>>)
    requires r.pos <= |ts|
    ensures r.pos < |ts| && ts[r.pos] == Nil ==> res == Ok(Read(None, Advance(r)))
    ensures r.pos < |ts| && ts[r.pos] != Nil && r.depth >= maxDepth ==> res == Err(DepthExceeded(maxDepth))
    ensures res.Ok? ==> r.pos < res.value.next.pos <= |ts| && res.value.next.depth == r.depth
    ensures res.Ok? && res.value.value.Some? ==>
              forall i | 0 <= i < |res.value.value.value| :: Valid(Param(res.value.value.value[i]))
  {
    var nil :- TryReadNil(ts, r);
    if nil.value then Ok(Read(None, nil.next))
    else
      var stepped :- DepthStep(r, maxDepth);
      var count :- ReadArrayHeader(ts, stepped);
      var items :- ReadParamElements(ts, count.next, count.value, maxDepth);
      Ok(Read(Some(items.value), items.next.(depth := items.next.depth - 1)))
  }

  /**
   * One member of the payload map: a known key replaces its property, an
   * unknown key's value is skipped.
   */
  function ReadMember(ts: seq<Token>, r: Reader, acc: Payload, maxDepth: nat): (res: Result<Read<Payload>>)
    requires r.pos <= |ts|
    ensures res.Ok? ==> r.pos < res.value.next.pos <= |ts| && res.value.next.depth == r.depth
    ensures res.Ok? && KindHomogeneous(acc) ==> KindHomogeneous(res.value.value)
    ensures r.pos < |ts| && !ts[r.pos].Str? ==> res == Err(Format(r.pos))
  {
    var key :- Peek(ts, r);
    if !key.Str? then Err(Format(r.pos))
    else if key.s == CreatedKey then
      var c :- ReadTimestamp(ts, Advance(r));
      Ok(Read(acc.(created := c.value), c.next))
    else if key.s == ElementDefinitionKey then
      var es :- ReadElementDefinitions(ts, Advance(r), maxDepth);
      Ok(Read(acc.(elementDefinition := es.value), es.next))
    else if key.s == ParameterKey then
      var ps :- ReadParameters(ts, Advance(r), maxDepth);
      Ok(Read(acc.(parameter := ps.value), ps.next))
    else
      var next :- SkipValue(ts, Advance(r));
      Ok(Read(acc, next))
  }

  /** `n` members in a row. */
  function ReadMembers(ts: seq<Token>, r: Reader, n: nat, acc: Payload, maxDepth: nat): (res: Result<Read<Payload>>)
    requires r.pos <= |ts|
    ensures res.Ok? ==> r.pos <= res.value.next.pos <= |ts| && res.value.next.depth == r.depth
    ensures res.Ok? && KindHomogeneous(acc) ==> KindHomogeneous(res.value.value)
    decreases n
  {
    if n == 0 then Ok(Read(acc, r))
    else
      var step :- ReadMember(ts, r, acc, maxDepth);
      ReadMembers(ts, step.next, n - 1, step.value, maxDepth)
  }

  /**
   * The generated payload formatter: nil is no payload; otherwise a map one
   * nesting level deep whose members start from a fresh payload's defaults.
   */
  function DecodePayload(ts: seq<Token>, r: Reader, maxDepth: nat): (res: Result<Read<Option<Payload>>>)
    requires r.pos <= |ts|
    ensures r.pos == |ts| ==> res == Err(EndOfStream)
    ensures r.pos < |ts| && ts[r.pos] == Nil ==> res == Ok(Read(None, Advance(r)))
    ensures r.pos < |ts| && ts[r.pos] != Nil && r.depth >= maxDepth ==> res == Err(DepthExceeded(maxDepth))
    ensures res.Ok? ==> r.pos < res.value.next.pos <= |ts| && res.value.next.depth == r.depth
    ensures res.Ok? && res.value.value.Some? ==> KindHomogeneous(res.value.value.value)
  {
    var nil :- TryReadNil(ts, r);
    if nil.value then Ok(Read(None, nil.next)) else DecodeMap(ts, r, maxDepth)
  }

  /** The map of a non-nil payload, one nesting level down. */
  function DecodeMap(ts: seq<Token>, r: Reader, maxDepth: nat): (res: Result<Read<Option<Payload>>>)
    requires r.pos <= |ts|
    ensures r.depth >= maxDepth ==> res == Err(DepthExceeded(maxDepth))
    ensures res.Ok? ==> r.pos < res.value.next.pos <= |ts| && res.value.next.depth == r.depth
    ensures res.Ok? ==> res.value.value.Some? && KindHomogeneous(res.value.value.value)
  {
    var stepped :- DepthStep(r, maxDepth);
    var count :- ReadMapHeader(ts, stepped);
    LeaveMap(ReadMembers(ts, count.next, count.value, NewPayload(), maxDepth))
  }

  /** The members read, as a payload, with the map's nesting level left again. */
  function LeaveMap(members: Result<Read<Payload>>): (res: Result<Read<Option<Payload>>>)
    requires members.Ok? ==> members.value.next.depth > 0
    ensures res.Ok? <==> members.Ok?
    ensures res.Ok? ==> res.value.value == Some(members.value.value)
    ensures res.Ok? ==> res.value.next == members.value.next.(depth := members.value.next.depth - 1)
  {
    var m :- members;
    Ok(Read(Some(m.value), m.next.(depth := m.next.depth - 1)))
  }

  // ---------------------------------------------------------------------
  // The composition
  // ---------------------------------------------------------------------

  /** `SerializeToStream`: group, then encode; `created` stands for the clock. */
  function SerializeToStream(things: Option<seq<Thing>>, created: DateTime): (r: Result<seq<Token>>)
    ensures things.None? ==> r == Err(ArgumentNull("things"))
    ensures things.Some? && PayloadFactory.AllValid(things.value) ==>
              (r.Ok? <==> AliasesSet(PayloadFactory.ElementDefinitionsOf(things.value)))
  {
    var payload :- PayloadFactory.Create(things, created);
    assert things.Some? && PayloadFactory.AllValid(things.value) ==>
             payload.elementDefinition == Some(PayloadFactory.ElementDefinitionsOf(things.value)) by {
      if things.Some? && PayloadFactory.AllValid(things.value) {
        PayloadFactory.GroupByKind(things.value);
      }
    }
    EncodePayload(payload)
  }

  /** `Deserialize`: decode a payload from the start of the stream, then flatten it. */
  function Deserialize(ts: seq<Token>): (r: Result<seq<Thing>>)
    ensures ts == [] ==> r == Err(EndOfStream)
    ensures ts != [] && ts[0] == Nil ==> r == Err(ArgumentNull("payload"))
    ensures r.Ok? ==> PayloadFactory.AllValid(r.value)
  {
    var payload :- DecodePayload(ts, Reader(0, 0), SerializerOptions.maximumObjectGraphDepth);
    var things := PayloadFactory.Flatten(payload.value);
    assert things.Ok? ==> PayloadFactory.AllValid(things.value) by {
      if payload.value.Some? {
        PayloadFactory.FlattenedValid(payload.value.value);
      }
    }
    things
  }

  // ---------------------------------------------------------------------
  // Round trips
  // ---------------------------------------------------------------------

  /** Every ElementDefinition of the list is well-formed. */
  predicate ValidEDs(es: seq<ElementDefinition>) {
    forall i | 0 <= i < |es| :: Valid(ED(es[i]))
  }

  predicate ValidParams(ps: seq<Parameter>) {
    forall i | 0 <= i < |ps| :: Valid(Param(ps[i]))
  }

  /** One element of the ElementDefinition list loop, stated over its outcome. */
  lemma ReadEDElementsStep(
    ts: seq<Token>, p: nat, depth: nat, maxDepth: nat, n: nat,
    e: ElementDefinition, mid: nat, rest: seq<ElementDefinition>, end: nat)
    requires n > 0 && p <= |ts|
    requires EDF.Deserialize(ts, Reader(p, depth), maxDepth) == Ok(Read(Some(e), Reader(mid, depth)))
    requires mid <= |ts|
    requires ReadEDElements(ts, Reader(mid, depth), n - 1, maxDepth) == Ok(Read(rest, Reader(end, depth)))
    ensures ReadEDElements(ts, Reader(p, depth), n, maxDepth) == Ok(Read([e] + rest, Reader(end, depth)))
  {
  }

  lemma ReadParamElementsStep(
    ts: seq<Token>, p: nat, depth: nat, maxDepth: nat, n: nat,
    q: Parameter, mid: nat, rest: seq<Parameter>, end: nat)
    requires n > 0 && p <= |ts|
    requires PF.Deserialize(ts, Reader(p, depth), maxDepth) == Ok(Read(Some(q), Reader(mid, depth)))
    requires mid <= |ts|
    requires ReadParamElements(ts, Reader(mid, depth), n - 1, maxDepth) == Ok(Read(rest, Reader(end, depth)))
    ensures ReadParamElements(ts, Reader(p, depth), n, maxDepth) == Ok(Read([q] + rest, Reader(end, depth)))
  {
  }

  /** A written ElementDefinition followed by a list read back as `rest`. */
  lemma ReadWrittenEDThen(
    e: ElementDefinition, rest: seq<ElementDefinition>, ts: seq<Token>, p: nat, depth: nat, maxDepth: nat,
    mid: nat, end: nat)
    requires Valid(ED(e)) && e.aliases.Some?
    requires At(ts, p, EDF.Wire(e)) && mid == p + |EDF.Wire(e)|
    requires depth < maxDepth
    requires ReadEDElements(ts, Reader(mid, depth), |rest|, maxDepth) == Ok(Read(rest, Reader(end, depth)))
    ensures ReadEDElements(ts, Reader(p, depth), |rest| + 1, maxDepth) == Ok(Read([e] + rest, Reader(end, depth)))
  {
    EDF.RoundTrip(e, ts, p, depth, maxDepth, mid);
    ReadEDElementsStep(ts, p, depth, maxDepth, |rest| + 1, e, mid, rest, end);
  }

  lemma ReadWrittenParamThen(
    q: Parameter, rest: seq<Parameter>, ts: seq<Token>, p: nat, depth: nat, maxDepth: nat,
    mid: nat, end: nat)
    requires Valid(Param(q))
    requires At(ts, p, PF.Wire(q)) && mid == p + |PF.Wire(q)|
    requires depth < maxDepth
    requires ReadParamElements(ts, Reader(mid, depth), |rest|, maxDepth) == Ok(Read(rest, Reader(end, depth)))
    ensures ReadParamElements(ts, Reader(p, depth), |rest| + 1, maxDepth) == Ok(Read([q] + rest, Reader(end, depth)))
  {
    PF.RoundTrip(q, ts, p, depth, maxDepth, mid);
    ReadParamElementsStep(ts, p, depth, maxDepth, |rest| + 1, q, mid, rest, end);
  }

  /** ElementDefinitions written one after another are read back in order. */
  lemma {:induction false} ReadWrittenEDs(
    es: seq<ElementDefinition>, ts: seq<Token>, p: nat, depth: nat, maxDepth: nat, end: nat)
    requires AliasesSet(es) && ValidEDs(es)
    requires At(ts, p, EDTokens(es))
    requires depth < maxDepth
    requires end == p + |EDTokens(es)|
    ensures ReadEDElements(ts, Reader(p, depth), |es|, maxDepth) == Ok(Read(es, Reader(end, depth)))
  {
    if es != [] {
      var w := EDF.Wire(es[0]);
      AtConcat(ts, p, w, EDTokens(es[1..]));
      ReadWrittenEDs(es[1..], ts, p + |w|, depth, maxDepth, end);
      ReadWrittenEDThen(es[0], es[1..], ts, p, depth, maxDepth, p + |w|, end);
      assert [es[0]] + es[1..] == es;
    }
  }

  lemma {:induction false} ReadWrittenParams(
    ps: seq<Parameter>, ts: seq<Token>, p: nat, depth: nat, maxDepth: nat, end: nat)
    requires ValidParams(ps)
    requires At(ts, p, ParamTokens(ps))
    requires depth < maxDepth
    requires end == p + |ParamTokens(ps)|
    ensures ReadParamElements(ts, Reader(p, depth), |ps|, maxDepth) == Ok(Read(ps, Reader(end, depth)))
  {
    if ps != [] {
      var w := PF.Wire(ps[0]);
      AtConcat(ts, p, w, ParamTokens(ps[1..]));
      ReadWrittenParams(ps[1..], ts, p + |w|, depth, maxDepth, end);
      ReadWrittenParamThen(ps[0], ps[1..], ts, p, depth, maxDepth, p + |w|, end);
      assert [ps[0]] + ps[1..] == ps;
    }
  }

  /** A non-nil list below the depth limit is its header and elements, one level down. */
  lemma ReadElementDefinitionsArray(
    ts: seq<Token>, p: nat, count: nat, depth: nat, maxDepth: nat, result: seq<ElementDefinition>, end: nat)
    requires p < |ts| && ts[p] == ArrayHeader(count) && depth < maxDepth
    requires ReadEDElements(ts, Reader(p + 1, depth + 1), count, maxDepth) == Ok(Read(result, Reader(end, depth + 1)))
    ensures ReadElementDefinitions(ts, Reader(p, depth), maxDepth) == Ok(Read(Some(result), Reader(end, depth)))
  {
  }

  lemma ReadParametersArray(
    ts: seq<Token>, p: nat, count: nat, depth: nat, maxDepth: nat, result: seq<Parameter>, end: nat)
    requires p < |ts| && ts[p] == ArrayHeader(count) && depth < maxDepth
    requires ReadParamElements(ts, Reader(p + 1, depth + 1), count, maxDepth) == Ok(Read(result, Reader(end, depth + 1)))
    ensures ReadParameters(ts, Reader(p, depth), maxDepth) == Ok(Read(Some(result), Reader(end, depth)))
  {
  }

  /** The list formatter reads back a written list, null or not, one nesting level down for an array. */
  lemma ReadWrittenElementDefinitions(
    es: Option<seq<ElementDefinition>>, ts: seq<Token>, p: nat, depth: nat, maxDepth: nat, end: nat)
    requires es.Some? ==> AliasesSet(es.value) && ValidEDs(es.value)
    requires At(ts, p, EDListTokens(es))
    requires depth + 1 < maxDepth
    requires end == p + |EDListTokens(es)|
    ensures ReadElementDefinitions(ts, Reader(p, depth), maxDepth) == Ok(Read(es, Reader(end, depth)))
  {
    if es.None? {
      AtSingle(ts, p, Nil);
    } else {
      var xs := es.value;
      AtConcat(ts, p, [ArrayHeader(|xs|)], EDTokens(xs));
      AtSingle(ts, p, ArrayHeader(|xs|));
      ReadWrittenEDs(xs, ts, p + 1, depth + 1, maxDepth, end);
      ReadElementDefinitionsArray(ts, p, |xs|, depth, maxDepth, xs, end);
    }
  }

  lemma ReadWrittenParameters(
    ps: Option<seq<Parameter>>, ts: seq<Token>, p: nat, depth: nat, maxDepth: nat, end: nat)
    requires ps.Some? ==> ValidParams(ps.value)
    requires At(ts, p, ParamListTokens(ps))
    requires depth + 1 < maxDepth
    requires end == p + |ParamListTokens(ps)|
    ensures ReadParameters(ts, Reader(p, depth), maxDepth) == Ok(Read(ps, Reader(end, depth)))
  {
    if ps.None? {
      AtSingle(ts, p, Nil);
    } else {
      var xs := ps.value;
      AtConcat(ts, p, [ArrayHeader(|xs|)], ParamTokens(xs));
      AtSingle(ts, p, ArrayHeader(|xs|));
      ReadWrittenParams(xs, ts, p + 1, depth + 1, maxDepth, end);
      ReadParametersArray(ts, p, |xs|, depth, maxDepth, xs, end);
    }
  }

  lemma ReadCreatedMember(pl: Payload, acc: Payload, ts: seq<Token>, p: nat, depth: nat, maxDepth: nat)
    requires At(ts, p, CreatedMember(pl))
    ensures ReadMember(ts, Reader(p, depth), acc, maxDepth)
            == Ok(Read(acc.(created := pl.created), Reader(p + |CreatedMember(pl)|, depth)))
  {
    assert ts[p + 0] == CreatedMember(pl)[0];
    assert ts[p + 1] == CreatedMember(pl)[1];
  }

  /** The "ElementDefinition" key followed by a list read back as `es`. */
  lemma ElementDefinitionKeyStep(
    ts: seq<Token>, p: nat, depth: nat, maxDepth: nat, acc: Payload, es: Option<seq<ElementDefinition>>, end: nat)
    requires p < |ts| && ts[p] == Str(ElementDefinitionKey)
    requires ReadElementDefinitions(ts, Reader(p + 1, depth), maxDepth) == Ok(Read(es, Reader(end, depth)))
    ensures ReadMember(ts, Reader(p, depth), acc, maxDepth) == Ok(Read(acc.(elementDefinition := es), Reader(end, depth)))
  {
  }

  lemma ParameterKeyStep(
    ts: seq<Token>, p: nat, depth: nat, maxDepth: nat, acc: Payload, ps: Option<seq<Parameter>>, end: nat)
    requires p < |ts| && ts[p] == Str(ParameterKey)
    requires ReadParameters(ts, Reader(p + 1, depth), maxDepth) == Ok(Read(ps, Reader(end, depth)))
    ensures ReadMember(ts, Reader(p, depth), acc, maxDepth) == Ok(Read(acc.(parameter := ps), Reader(end, depth)))
  {
  }

  lemma ReadEDMember(pl: Payload, acc: Payload, ts: seq<Token>, p: nat, depth: nat, maxDepth: nat, end: nat)
    requires Writable(pl) && KindHomogeneous(pl)
    requires At(ts, p, EDMember(pl))
    requires depth + 1 < maxDepth
    requires end == p + |EDMember(pl)|
    ensures ReadMember(ts, Reader(p, depth), acc, maxDepth)
            == Ok(Read(acc.(elementDefinition := pl.elementDefinition), Reader(end, depth)))
  {
    var es := pl.elementDefinition;
    AtConcat(ts, p, [Str(ElementDefinitionKey)], EDListTokens(es));
    AtSingle(ts, p, Str(ElementDefinitionKey));
    ReadWrittenElementDefinitions(es, ts, p + 1, depth, maxDepth, end);
    ElementDefinitionKeyStep(ts, p, depth, maxDepth, acc, es, end);
  }

  lemma ReadParamMember(pl: Payload, acc: Payload, ts: seq<Token>, p: nat, depth: nat, maxDepth: nat, end: nat)
    requires KindHomogeneous(pl)
    requires At(ts, p, ParamMember(pl))
    requires depth + 1 < maxDepth
    requires end == p + |ParamMember(pl)|
    ensures ReadMember(ts, Reader(p, depth), acc, maxDepth)
            == Ok(Read(acc.(parameter := pl.parameter), Reader(end, depth)))
  {
    var ps := pl.parameter;
    AtConcat(ts, p, [Str(ParameterKey)], ParamListTokens(ps));
    AtSingle(ts, p, Str(ParameterKey));
    ReadWrittenParameters(ps, ts, p + 1, depth, maxDepth, end);
    ParameterKeyStep(ts, p, depth, maxDepth, acc, ps, end);
  }

  /**
   * A member under a key the payload does not declare is skipped whole and
   * changes nothing.
   */
  lemma SkipsUnknownMember(key: string, v: Value, acc: Payload, ts: seq<Token>, p: nat, depth: nat, maxDepth: nat)
    requires key != CreatedKey && key != ElementDefinitionKey && key != ParameterKey
    requires At(ts, p, [Str(key)] + Encode(v))
    ensures ReadMember(ts, Reader(p, depth), acc, maxDepth) == Ok(Read(acc, Reader(p + 1 + |Encode(v)|, depth)))
  {
    AtConcat(ts, p, [Str(key)], Encode(v));
    AtSingle(ts, p, Str(key));
    SkipAt(v, ts, p + 1);
  }

  /** One pass of the member loop, stated over its outcome. */
  lemma ReadMembersStep(
    ts: seq<Token>, p: nat, depth: nat, maxDepth: nat, n: nat, acc: Payload,
    acc1: Payload, mid: nat, result: Payload, end: nat)
    requires n > 0 && p <= |ts|
    requires ReadMember(ts, Reader(p, depth), acc, maxDepth) == Ok(Read(acc1, Reader(mid, depth)))
    requires mid <= |ts|
    requires ReadMembers(ts, Reader(mid, depth), n - 1, acc1, maxDepth) == Ok(Read(result, Reader(end, depth)))
    ensures ReadMembers(ts, Reader(p, depth), n, acc, maxDepth) == Ok(Read(result, Reader(end, depth)))
  {
  }

  /** A non-nil payload below the depth limit is its map header and members, one level down. */
  lemma DecodePayloadMap(
    ts: seq<Token>, p: nat, count: nat, depth: nat, maxDepth: nat, result: Payload, end: nat)
    requires p < |ts| && ts[p] == MapHeader(count) && depth < maxDepth
    requires ReadMembers(ts, Reader(p + 1, depth + 1), count, NewPayload(), maxDepth)
             == Ok(Read(result, Reader(end, depth + 1)))
    ensures DecodePayload(ts, Reader(p, depth), maxDepth) == Ok(Read(Some(result), Reader(end, depth)))
  {
    DecodeMapOf(ts, p, count, depth, maxDepth, result, end);
    DecodeNotNil(ts, Reader(p, depth), maxDepth);
  }

  lemma DecodeNotNil(ts: seq<Token>, r: Reader, maxDepth: nat)
    requires r.pos < |ts| && ts[r.pos] != Nil
    ensures DecodePayload(ts, r, maxDepth) == DecodeMap(ts, r, maxDepth)
  {
  }

  lemma DecodeMapOf(
    ts: seq<Token>, p: nat, count: nat, depth: nat, maxDepth: nat, result: Payload, end: nat)
    requires p < |ts| && ts[p] == MapHeader(count) && depth < maxDepth
    requires ReadMembers(ts, Reader(p + 1, depth + 1), count, NewPayload(), maxDepth)
             == Ok(Read(result, Reader(end, depth + 1)))
    ensures DecodeMap(ts, Reader(p, depth), maxDepth) == Ok(Read(Some(result), Reader(end, depth)))
  {
    DecodeMapHeader(ts, p, count, depth, maxDepth);
  }

  lemma DecodeMapHeader(ts: seq<Token>, p: nat, count: nat, depth: nat, maxDepth: nat)
    requires p < |ts| && ts[p] == MapHeader(count) && depth < maxDepth
    ensures DecodeMap(ts, Reader(p, depth), maxDepth)
            == LeaveMap(ReadMembers(ts, Reader(p + 1, depth + 1), count, NewPayload(), maxDepth))
  {
    assert DepthStep(Reader(p, depth), maxDepth) == Ok(Reader(p, depth + 1));
    assert ReadMapHeader(ts, Reader(p, depth + 1)) == Ok(Read(count, Reader(p + 1, depth + 1)));
  }

  /** The three written members, read in order from a fresh payload. */
  lemma ReadWrittenMembers(pl: Payload, ts: seq<Token>, p: nat, depth: nat, maxDepth: nat, end: nat)
    requires Writable(pl) && KindHomogeneous(pl)
    requires At(ts, p, CreatedMember(pl) + (EDMember(pl) + ParamMember(pl)))
    requires depth + 1 < maxDepth
    requires end == p + |CreatedMember(pl)| + |EDMember(pl)| + |ParamMember(pl)|
    ensures ReadMembers(ts, Reader(p, depth), |Keys|, NewPayload(), maxDepth) == Ok(Read(pl, Reader(end, depth)))
  {
    var c, e, q := CreatedMember(pl), EDMember(pl), ParamMember(pl);
    AtConcat(ts, p, c, e + q);
    AtConcat(ts, p + |c|, e, q);
    var a0 := NewPayload();
    var a1 := a0.(created := pl.created);
    var a2 := a1.(elementDefinition := pl.elementDefinition);
    var p1, p2 := p + |c|, p + |c| + |e|;
    ReadCreatedMember(pl, a0, ts, p, depth, maxDepth);
    ReadEDMember(pl, a1, ts, p1, depth, maxDepth, p2);
    ReadParamMember(pl, a2, ts, p2, depth, maxDepth, end);
    assert a2.(parameter := pl.parameter) == pl;
    ReadMembersStep(ts, p2, depth, maxDepth, 1, a2, pl, end, pl, end);
    ReadMembersStep(ts, p1, depth, maxDepth, 2, a1, a2, p2, pl, end);
    ReadMembersStep(ts, p, depth, maxDepth, 3, a0, a1, p1, pl, end);
  }

  /** A written payload is read back whole, one nesting level for the map and one per list. */
  lemma DecodeWrittenPayload(pl: Payload, ts: seq<Token>, p: nat, depth: nat, maxDepth: nat, end: nat)
    requires Writable(pl) && KindHomogeneous(pl)
    requires At(ts, p, PayloadTokens(pl))
    requires depth + 2 < maxDepth
    requires end == p + |PayloadTokens(pl)|
    ensures DecodePayload(ts, Reader(p, depth), maxDepth) == Ok(Read(Some(pl), Reader(end, depth)))
  {
    var members := CreatedMember(pl) + (EDMember(pl) + ParamMember(pl));
    AtConcat(ts, p, [MapHeader(|Keys|)], members);
    AtSingle(ts, p, MapHeader(|Keys|));
    ReadWrittenMembers(pl, ts, p + 1, depth + 1, maxDepth, end);
    DecodePayloadMap(ts, p, |Keys|, depth, maxDepth, pl, end);
  }

  /**
   * Round trip of the whole MessagePack path: what `SerializeToStream`
   * writes, `Deserialize` turns back into every ElementDefinition, in input
   * order, followed by every Parameter, in input order, each with all its
   * fields.
   */
  lemma RoundTrip(things: seq<Thing>, created: DateTime)
    requires PayloadFactory.AllValid(things)
    requires AliasesSet(PayloadFactory.ElementDefinitionsOf(things))
    ensures SerializeToStream(Some(things), created).Ok?
    ensures Deserialize(SerializeToStream(Some(things), created).value)
            == Ok(PayloadFactory.EDThings(PayloadFactory.ElementDefinitionsOf(things))
                  + PayloadFactory.ParamThings(PayloadFactory.ParametersOf(things)))
  {
    PayloadFactory.GroupByKind(things);
    var pl := PayloadFactory.Create(Some(things), created).value;
    var ts := PayloadTokens(pl);
    AtWhole(ts);
    DecodeWrittenPayload(pl, ts, 0, 0, DefaultMaximumObjectGraphDepth, |ts|);
    PayloadFactory.GroupThenFlatten(things, created);
  }

  // ---------------------------------------------------------------------
  // Null lists
  // ---------------------------------------------------------------------

  /**
   * A null list survives the payload formatter in both directions (written
   * as nil, read back as null) and is rejected only when the payload is
   * flattened, by `AddRange(null)`.
   */
  lemma NullListRejectedWhenFlattened(pl: Payload)
    requires Writable(pl) && KindHomogeneous(pl) && !ListsPresent(pl)
    ensures EncodePayload(pl).Ok?
    ensures Deserialize(EncodePayload(pl).value) == Err(ArgumentNull("collection"))
  {
    var ts := PayloadTokens(pl);
    AtWhole(ts);
    DecodeWrittenPayload(pl, ts, 0, 0, DefaultMaximumObjectGraphDepth, |ts|);
  }

  /**
   * A nil list under a key that appears again is replaced by the later
   * member before anything is flattened: the stream reads as no Things.
   */
  lemma LaterMemberReplacesNilList()
    ensures Deserialize([MapHeader(2), Str(ElementDefinitionKey), Nil, Str(ElementDefinitionKey), ArrayHeader(0)])
            == Ok([])
  {
    var ts := [MapHeader(2), Str(ElementDefinitionKey), Nil, Str(ElementDefinitionKey), ArrayHeader(0)];
    var m := DefaultMaximumObjectGraphDepth;
    var a0 := NewPayload();
    var a1 := a0.(elementDefinition := None);
    var a2 := a1.(elementDefinition := Some([]));
    ElementDefinitionKeyStep(ts, 1, 1, m, a0, None, 3);
    ReadElementDefinitionsArray(ts, 4, 0, 1, m, [], 5);
    ElementDefinitionKeyStep(ts, 3, 1, m, a1, Some([]), 5);
    ReadMembersStep(ts, 3, 1, m, 1, a1, a2, 5, a2, 5);
    ReadMembersStep(ts, 1, 1, m, 2, a0, a1, 3, a2, 5);
    DecodePayloadMap(ts, 0, 2, 0, m, a2, 5);
  }

  /**
   * A nil list followed by a malformed one fails on the malformed list,
   * while the map is still being read: the null is never flattened.
   */
  lemma MalformedMemberAfterNilList()
    ensures Deserialize([MapHeader(2), Str(ElementDefinitionKey), Nil, Str(ParameterKey), Str("x")])
            == Err(Format(4))
  {
    var ts := [MapHeader(2), Str(ElementDefinitionKey), Nil, Str(ParameterKey), Str("x")];
    var m := DefaultMaximumObjectGraphDepth;
    var a0 := NewPayload();
    ElementDefinitionKeyStep(ts, 1, 1, m, a0, None, 3);
    assert ReadParameters(ts, Reader(4, 1), m) == Err(Format(4));
    DecodeMapHeader(ts, 0, 2, 0, m);
    DecodeNotNil(ts, Reader(0, 0), m);
  }
}
