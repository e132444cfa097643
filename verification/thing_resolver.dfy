/**
 * `ThingFormatterResolver`: which formatter the MessagePack library is
 * handed for a requested type.  A fixed table maps the two entity types to
 * their hand-written formatters; every other type gets no answer, the
 * signal for the library to ask the next resolver of a composite.  Each
 * answer is memoised per type the first time it is asked for.
 */
module ThingResolver {
  import opened Wrappers
  import opened Model

  /** The types a formatter can be asked for. */
  datatype TypeId = ElementDefinitionType | ParameterType | OtherType(name: string)

  /** The formatters a resolver can answer with; library formatters are named only. */
  datatype Formatter = BespokeElementDefinition | BespokeParameter | Library(name: string)

  /** The runtime type of a Thing. */
  function TypeOf(t: Thing): TypeId {
    match t
    case ED(_) => ElementDefinitionType
    case Param(_) => ParameterType
    case OtherThing(_, _, n) => OtherType(n)
  }

  /** The type-to-formatter table: two entries, never changed. */
  const FormatterMap: map<TypeId, Formatter> :=
    map[ElementDefinitionType := BespokeElementDefinition, ParameterType := BespokeParameter]

  /** `ThingResolverGetFormatterHelper.GetFormatter`: `None` is the null fallback signal. */
  function GetFormatterHelper(t: TypeId): (r: Option<Formatter>)
    ensures r == Some(BespokeElementDefinition) <==> t == ElementDefinitionType
    ensures r == Some(BespokeParameter) <==> t == ParameterType
    ensures r.None? <==> t.OtherType?
    ensures r.Some? ==> !r.value.Library?
  {
    if t in FormatterMap then Some(FormatterMap[t]) else None
  }

  /** The table has exactly the two entity types as keys. */
  lemma TableKeys()
    ensures FormatterMap.Keys == {ElementDefinitionType, ParameterType}
    ensures |FormatterMap| == 2
  {
    assert FormatterMap.Keys == {ElementDefinitionType, ParameterType};
  }

  /** The entity kind a bespoke formatter reads and writes. */
  function HandledKind(f: Formatter): Option<ClassKind> {
    match f
    case BespokeElementDefinition => Some(ElementDefinitionKind)
    case BespokeParameter => Some(ParameterKind)
    case Library(_) => None
  }

  /**
   * For every well-formed Thing, the table answers exactly for the two
   * entity kinds, with the formatter of the Thing's own kind.
   */
  lemma FormatterMatchesKind(x: Thing)
    requires Valid(x)
    ensures GetFormatterHelper(TypeOf(x)).Some? <==> x.Kind() in {ElementDefinitionKind, ParameterKind}
    ensures GetFormatterHelper(TypeOf(x)).Some? ==> HandledKind(GetFormatterHelper(TypeOf(x)).value) == Some(x.Kind())
  {
    match x
    case ED(_) =>
    case Param(_) =>
    case OtherThing(k, _, n) =>
      assert KindName(k) == n;
  }

  /** The memo of `FormatterCache<T>`: the types initialised so far. */
  type Cache = map<TypeId, Option<Formatter>>

  /** Every memoised answer is the table's answer. */
  predicate CacheConsistent(c: Cache) {
    forall t | t in c :: c[t] == GetFormatterHelper(t)
  }

  /**
   * `GetFormatter<T>`: the memoised answer for `t`, initialising the memo
   * from the table on the first request.
   */
  function GetFormatter(c: Cache, t: TypeId): (r: (Option<Formatter>, Cache))
    requires CacheConsistent(c)
    ensures r.0 == GetFormatterHelper(t)
    ensures CacheConsistent(r.1) && t in r.1
    ensures forall u | u in c :: u in r.1 && r.1[u] == c[u]
    ensures r.1.Keys == c.Keys + {t}
  {
    if t in c then (c[t], c)
    else
      var f := GetFormatterHelper(t);
      (f, c[t := f])
  }

  /** The memo after a run of requests: earlier entries are never replaced. */
  function LookupAll(c: Cache, ts: seq<TypeId>): (r: Cache)
    requires CacheConsistent(c)
    ensures CacheConsistent(r)
    ensures forall u | u in c :: u in r && r[u] == c[u]
    ensures forall i | 0 <= i < |ts| :: ts[i] in r
    decreases |ts|
  {
    if ts == [] then c
    else
      var next := GetFormatter(c, ts[0]).1;
      var r := LookupAll(next, ts[1..]);
      assert forall i | 1 <= i < |ts| :: ts[i] == ts[1..][i - 1];
      r
  }

  /** Repeated requests for the same type agree, whatever was requested in between. */
  lemma RepeatedLookupsAgree(c: Cache, t: TypeId, between: seq<TypeId>)
    requires CacheConsistent(c)
    ensures var first := GetFormatter(c, t);
            GetFormatter(LookupAll(first.1, between), t) == (first.0, LookupAll(first.1, between))
  {
  }
}
