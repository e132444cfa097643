/**
 * `JsonSerializer`: the name-keyed JSON codec.  The writer emits one root
 * object holding the creation time and one array per kind; the reader looks
 * properties up by name, so missing properties leave an entity's defaults
 * and unknown properties are ignored.  JSON text is abstracted to a value
 * tree; numbers are the opaque doubles they carry.
 */
module JsonSerializer {
  import opened Wrappers
  import opened Primitives
  import opened Model
  import opened Payloads
  import PayloadFactory

  datatype Json =
    | JNull
    | JBool(b: bool)
    | JNum(d: Double)
    | JStr(s: string)
    | JArr(items: seq<Json>)
    | JObj(props: seq<JProp>)

  datatype JProp = JProp(key: string, val: Json)

  const IidKey: string := "Iid"
  const NameKey: string := "Name"
  const DescriptionKey: string := "Description"
  const AliasesKey: string := "Aliases"
  const ParametersKey: string := "Parameters"
  const ValueKey: string := "Value"

  /** The keys of an object's properties, in order. */
  function KeysOf(props: seq<JProp>): (ks: seq<string>)
    ensures |ks| == |props| && forall i | 0 <= i < |props| :: ks[i] == props[i].key
  {
    seq(|props|, i requires 0 <= i < |props| => props[i].key)
  }

  /** The error a `JsonElement` accessor raises on a value of the wrong kind. */
  function WrongKind(expected: string): Error {
    InvalidOperation("The requested operation requires an element of type '" + expected + "'.")
  }

  // ---------------------------------------------------------------------
  // Writing
  // ---------------------------------------------------------------------

  /** `WriteStringValue(string)`: a null string is written as JSON null. */
  function StringValue(s: NString): Json {
    match s
    case None => JNull
    case Some(x) => JStr(x)
  }

  function StringValues(ss: seq<NString>): (js: seq<Json>)
    ensures |js| == |ss| && forall i | 0 <= i < |ss| :: js[i] == StringValue(ss[i])
  {
    seq(|ss|, i requires 0 <= i < |ss| => StringValue(ss[i]))
  }

  function GuidValues(gs: seq<Guid>): (js: seq<Json>)
    ensures |js| == |gs| && forall i | 0 <= i < |gs| :: js[i] == JStr(ToText(gs[i]))
  {
    seq(|gs|, i requires 0 <= i < |gs| => JStr(ToText(gs[i])))
  }

  /** The object written for one ElementDefinition whose Aliases are set. */
  function EDObject(e: ElementDefinition): Json
    requires e.aliases.Some?
  {
    JObj([
      JProp(IidKey, JStr(ToText(e.iid))),
      JProp(NameKey, StringValue(e.name)),
      JProp(DescriptionKey, StringValue(e.description)),
      JProp(AliasesKey, JArr(StringValues(e.aliases.value))),
      JProp(ParametersKey, JArr(GuidValues(e.parameters)))])
  }

  /** The object written for one Parameter whose Value is finite. */
  function ParamObject(q: Parameter): Json {
    JObj([
      JProp(IidKey, JStr(ToText(q.iid))),
      JProp(NameKey, StringValue(q.name)),
      JProp(ValueKey, JNum(q.value))])
  }

  /** Every Parameter's Value can be written as a JSON number. */
  predicate AllFinite(ps: seq<Parameter>) {
    forall i | 0 <= i < |ps| :: IsFinite(ps[i].value)
  }

  /** The ElementDefinition objects; unset Aliases stop the write with a null reference. */
  function WriteEDs(es: seq<ElementDefinition>): (r: Result<seq<Json>>)
    ensures r.Ok? <==> AliasesSet(es)
    ensures r.Ok? ==> |r.value| == |es| && forall i | 0 <= i < |es| :: r.value[i] == EDObject(es[i])
    ensures r.Err? ==> r.error == NullReference
  {
    if es == [] then Ok([])
    else if es[0].aliases.None? then Err(NullReference)
    else
      var rest :- WriteEDs(es[1..]);
      Ok([EDObject(es[0])] + rest)
  }

  /** The Parameter objects; `WriteNumberValue` rejects infinities and NaN. */
  function WriteParams(ps: seq<Parameter>): (r: Result<seq<Json>>)
    ensures r.Ok? <==> AllFinite(ps)
    ensures r.Ok? ==> |r.value| == |ps| && forall i | 0 <= i < |ps| :: r.value[i] == ParamObject(ps[i])
    ensures r.Err? ==> r.error.Argument?
  {
    if ps == [] then Ok([])
    else if !IsFinite(ps[0].value) then
      Err(Argument(".NET number values such as positive and negative infinity cannot be written as valid JSON."))
    else
      var rest :- WriteParams(ps[1..]);
      Ok([ParamObject(ps[0])] + rest)
  }

  /**
   * `SerializeToPipeWriter`, as the tree it writes; `created` stands for the
   * clock.  `OfType` keeps the ElementDefinitions and the Parameters, each
   * in input order; a null list fails in `OfType`.
   */
  function Serialize(things: Option<seq<Thing>>, created: DateTime): (r: Result<Json>)
    ensures things.None? ==> r == Err(ArgumentNull("source"))
    ensures things.Some? ==>
              (r.Ok? <==> AliasesSet(PayloadFactory.ElementDefinitionsOf(things.value))
                          && AllFinite(PayloadFactory.ParametersOf(things.value)))
    ensures r.Ok? ==> r.value.JObj? && KeysOf(r.value.props) == Keys
    ensures r.Ok? ==>
              && r.value.props[1].val.JArr?
              && |r.value.props[1].val.items| == |PayloadFactory.ElementDefinitionsOf(things.value)|
              && r.value.props[2].val.JArr?
              && |r.value.props[2].val.items| == |PayloadFactory.ParametersOf(things.value)|
    ensures r.Ok? ==> r.value.props[0].val == JStr(DateText(created))
    ensures r.Ok? ==>
              var es := PayloadFactory.ElementDefinitionsOf(things.value);
              forall i | 0 <= i < |es| :: r.value.props[1].val.items[i] == EDObject(es[i])
    ensures r.Ok? ==>
              var ps := PayloadFactory.ParametersOf(things.value);
              forall i | 0 <= i < |ps| :: r.value.props[2].val.items[i] == ParamObject(ps[i])
  {
    if things.None? then Err(ArgumentNull("source"))
    else
      var eds :- WriteEDs(PayloadFactory.ElementDefinitionsOf(things.value));
      var ps :- WriteParams(PayloadFactory.ParametersOf(things.value));
      Ok(JObj([
        JProp(CreatedKey, JStr(DateText(created))),
        JProp(ElementDefinitionKey, JArr(eds)),
        JProp(ParameterKey, JArr(ps))]))
  }

  // ---------------------------------------------------------------------
  // Reading
  // ---------------------------------------------------------------------

  /**
   * `TryGetProperty`: the value of the property named `key`; when the name
   * occurs more than once, the last occurrence wins.
   */
  function Lookup(props: seq<JProp>, key: string): (r: Option<Json>)
    ensures r.None? <==> forall i | 0 <= i < |props| :: props[i].key != key
    decreases |props|
  {
    if props == [] then None
    else
      var last := |props| - 1;
      if props[last].key == key then Some(props[last].val)
      else
        var r := Lookup(props[..last], key);
        assert forall i | 0 <= i < last :: props[..last][i] == props[i];
        r
  }

  /** A found value is that of the last property with the name. */
  lemma {:induction false} LookupFindsLast(props: seq<JProp>, key: string)
    requires Lookup(props, key).Some?
    ensures exists i | 0 <= i < |props| ::
              && props[i] == JProp(key, Lookup(props, key).value)
              && forall j | i < j < |props| :: props[j].key != key
    decreases |props|
  {
    var last := |props| - 1;
    if props[last].key != key {
      var init := props[..last];
      LookupFindsLast(init, key);
      var i :| 0 <= i < |init| && init[i] == JProp(key, Lookup(init, key).value)
               && forall j | i < j < |init| :: init[j].key != key;
      assert props[i] == init[i];
      assert forall j | i < j < |props| :: props[j].key != key by {
        forall j | i < j < |props| ensures props[j].key != key {
          if j < last { assert props[j] == init[j]; }
        }
      }
    }
  }

  /** `GetString`: a string, or null for JSON null. */
  function GetString(j: Json): (r: Result<NString>)
    ensures r.Ok? <==> j.JStr? || j.JNull?
    ensures r.Ok? ==> StringValue(r.value) == j
    ensures r.Err? ==> r.error == WrongKind("String")
  {
    match j
    case JStr(s) => Ok(Some(s))
    case JNull => Ok(None)
    case _ => Err(WrongKind("String"))
  }

  /** `GetGuid`: a string in the canonical layout. */
  function GetGuid(j: Json): (r: Result<Guid>)
    ensures r.Ok? ==> j.JStr? && ParseText(j.s) == Some(r.value)
    ensures !j.JStr? ==> r == Err(WrongKind("String"))
    ensures j.JStr? && ParseText(j.s).None? ==> r.Err? && r.error.TextFormat?
  {
    if !j.JStr? then Err(WrongKind("String"))
    else
      match ParseText(j.s)
      case None => Err(TextFormat("Guid"))
      case Some(g) => Ok(g)
  }

  function GetDouble(j: Json): (r: Result<Double>)
    ensures r.Ok? <==> j.JNum?
    ensures r.Ok? ==> j == JNum(r.value)
  {
    if j.JNum? then Ok(j.d) else Err(WrongKind("Number"))
  }

  function GetDateTime(j: Json): (r: Result<DateTime>)
    ensures r.Ok? ==> j.JStr? && ParseDate(j.s) == Some(r.value)
    ensures !j.JStr? ==> r == Err(WrongKind("String"))
  {
    if !j.JStr? then Err(WrongKind("String"))
    else
      match ParseDate(j.s)
      case None => Err(TextFormat("DateTime"))
      case Some(t) => Ok(t)
  }

  function EnumerateArray(j: Json): (r: Result<seq<Json>>)
    ensures r.Ok? <==> j.JArr?
    ensures r.Ok? ==> j == JArr(r.value)
  {
    if j.JArr? then Ok(j.items) else Err(WrongKind("Array"))
  }

  /** `GetGuid` over every element, in order; the first failure stops. */
  function ReadGuids(items: seq<Json>): (r: Result<seq<Guid>>)
    ensures r.Ok? ==> |r.value| == |items| && forall i | 0 <= i < |items| :: GetGuid(items[i]) == Ok(r.value[i])
  {
    if items == [] then Ok([])
    else
      var g :- GetGuid(items[0]);
      var rest :- ReadGuids(items[1..]);
      Ok([g] + rest)
  }

  /**
   * `foreach (alias) Aliases.Add(alias.GetString())`: each element is read
   * first, then added; adding to unset Aliases is a null reference.
   */
  function AddAliases(aliases: Option<seq<NString>>, items: seq<Json>): (r: Result<Option<seq<NString>>>)
    decreases |items|
    ensures items == [] ==> r == Ok(aliases)
    ensures items != [] && aliases.None? && GetString(items[0]).Ok? ==> r == Err(NullReference)
    ensures r.Ok? && aliases.Some? ==>
              && r.value.Some?
              && |r.value.value| == |aliases.value| + |items|
              && r.value.value[..|aliases.value|] == aliases.value
              && forall i | 0 <= i < |items| :: StringValue(r.value.value[|aliases.value| + i]) == items[i]
  {
    if items == [] then Ok(aliases)
    else
      var s :- GetString(items[0]);
      if aliases.None? then Err(NullReference)
      else
        var r := AddAliases(Some(aliases.value + [s]), items[1..]);
        assert r.Ok? ==> forall i | 1 <= i < |items| ::
                 StringValue(r.value.value[|aliases.value| + i]) == items[i] by {
          if r.Ok? {
            forall i | 1 <= i < |items|
              ensures StringValue(r.value.value[|aliases.value| + i]) == items[i]
            {
              assert r.value.value[|aliases.value + [s]| + (i - 1)] == r.value.value[|aliases.value| + i];
              assert items[1..][i - 1] == items[i];
            }
          }
        }
        assert r.Ok? ==> r.value.value[..|aliases.value|] == aliases.value by {
          if r.Ok? {
            assert r.value.value[..|aliases.value|] == r.value.value[..|aliases.value| + 1][..|aliases.value|];
          }
        }
        r
  }

  /**
   * Where Aliases start when the "Aliases" property is read: `Unset` is the
   * code as written, which leaves the parameterless constructor's null;
   * `EmptyList` first assigns an empty list, as the MessagePack formatter
   * does.
   */
  datatype AliasStart = Unset | EmptyList

  /** The "Iid" property, when present, replaces the identifier. */
  function ReadIid(props: seq<JProp>, e: ElementDefinition): (r: Result<ElementDefinition>)
    ensures Lookup(props, IidKey).None? ==> r == Ok(e)
    ensures r.Ok? ==> r.value == e.(iid := r.value.iid)
  {
    match Lookup(props, IidKey)
    case None => Ok(e)
    case Some(v) => var g :- GetGuid(v); Ok(e.(iid := g))
  }

  function ReadName(props: seq<JProp>, e: ElementDefinition): (r: Result<ElementDefinition>)
    ensures Lookup(props, NameKey).None? ==> r == Ok(e)
    ensures r.Ok? ==> r.value == e.(name := r.value.name)
  {
    match Lookup(props, NameKey)
    case None => Ok(e)
    case Some(v) => var s :- GetString(v); Ok(e.(name := s))
  }

  function ReadDescription(props: seq<JProp>, e: ElementDefinition): (r: Result<ElementDefinition>)
    ensures Lookup(props, DescriptionKey).None? ==> r == Ok(e)
    ensures r.Ok? ==> r.value == e.(description := r.value.description)
  {
    match Lookup(props, DescriptionKey)
    case None => Ok(e)
    case Some(v) => var s :- GetString(v); Ok(e.(description := s))
  }

  function ReadAliases(props: seq<JProp>, e: ElementDefinition, start: AliasStart): (r: Result<ElementDefinition>)
    ensures Lookup(props, AliasesKey).None? ==> r == Ok(e)
    ensures r.Ok? ==> r.value == e.(aliases := r.value.aliases)
  {
    match Lookup(props, AliasesKey)
    case None => Ok(e)
    case Some(v) =>
      var items :- EnumerateArray(v);
      var initial := if start == EmptyList then Some([]) else e.aliases;
      var a :- AddAliases(initial, items);
      Ok(e.(aliases := a))
  }

  /** The "Parameters" property appends to the list the constructor created. */
  function ReadParameterIids(props: seq<JProp>, e: ElementDefinition): (r: Result<ElementDefinition>)
    ensures Lookup(props, ParametersKey).None? ==> r == Ok(e)
    ensures r.Ok? ==> r.value == e.(parameters := r.value.parameters)
  {
    match Lookup(props, ParametersKey)
    case None => Ok(e)
    case Some(v) =>
      var items :- EnumerateArray(v);
      var gs :- ReadGuids(items);
      Ok(e.(parameters := e.parameters + gs))
  }

  /** One ElementDefinition object, read property by property onto a fresh ElementDefinition. */
  function ReadElementDefinition(j: Json, start: AliasStart): (r: Result<ElementDefinition>)
    ensures !j.JObj? ==> r == Err(WrongKind("Object"))
    ensures r.Ok? ==> Valid(ED(r.value))
    ensures r.Ok? && j.JObj? && Lookup(j.props, IidKey).None? ==> r.value.iid == EmptyGuid
    ensures r.Ok? && j.JObj? && Lookup(j.props, NameKey).None? ==> r.value.name.None?
    ensures r.Ok? && j.JObj? && Lookup(j.props, DescriptionKey).None? ==> r.value.description.None?
    ensures r.Ok? && j.JObj? && Lookup(j.props, AliasesKey).None? ==> r.value.aliases.None?
    ensures r.Ok? && j.JObj? && Lookup(j.props, ParametersKey).None? ==> r.value.parameters == []
  {
    if !j.JObj? then Err(WrongKind("Object"))
    else
      var e1 :- ReadIid(j.props, NewElementDefinition());
      var e2 :- ReadName(j.props, e1);
      var e3 :- ReadDescription(j.props, e2);
      var e4 :- ReadAliases(j.props, e3, start);
      ReadParameterIids(j.props, e4)
  }

  function ReadParameterIid(props: seq<JProp>, q: Parameter): (r: Result<Parameter>)
    ensures Lookup(props, IidKey).None? ==> r == Ok(q)
    ensures r.Ok? ==> r.value == q.(iid := r.value.iid)
  {
    match Lookup(props, IidKey)
    case None => Ok(q)
    case Some(v) => var g :- GetGuid(v); Ok(q.(iid := g))
  }

  function ReadParameterName(props: seq<JProp>, q: Parameter): (r: Result<Parameter>)
    ensures Lookup(props, NameKey).None? ==> r == Ok(q)
    ensures r.Ok? ==> r.value == q.(name := r.value.name)
  {
    match Lookup(props, NameKey)
    case None => Ok(q)
    case Some(v) => var s :- GetString(v); Ok(q.(name := s))
  }

  function ReadValue(props: seq<JProp>, q: Parameter): (r: Result<Parameter>)
    ensures Lookup(props, ValueKey).None? ==> r == Ok(q)
    ensures r.Ok? ==> r.value == q.(value := r.value.value)
  {
    match Lookup(props, ValueKey)
    case None => Ok(q)
    case Some(v) => var d :- GetDouble(v); Ok(q.(value := d))
  }

  /** One Parameter object, read onto a fresh Parameter. */
  function ReadParameter(j: Json): (r: Result<Parameter>)
    ensures !j.JObj? ==> r == Err(WrongKind("Object"))
    ensures r.Ok? ==> Valid(Param(r.value))
    ensures r.Ok? && j.JObj? && Lookup(j.props, IidKey).None? ==> r.value.iid == EmptyGuid
    ensures r.Ok? && j.JObj? && Lookup(j.props, NameKey).None? ==> r.value.name.None?
    ensures r.Ok? && j.JObj? && Lookup(j.props, ValueKey).None? ==> r.value.value == Zero
  {
    if !j.JObj? then Err(WrongKind("Object"))
    else
      var q1 :- ReadParameterIid(j.props, NewParameter());
      var q2 :- ReadParameterName(j.props, q1);
      ReadValue(j.props, q2)
  }

  function ReadElementDefinitions(items: seq<Json>, start: AliasStart): (r: Result<seq<ElementDefinition>>)
    ensures r.Ok? ==> |r.value| == |items|
    ensures r.Ok? ==> forall i | 0 <= i < |items| :: ReadElementDefinition(items[i], start) == Ok(r.value[i])
  {
    if items == [] then Ok([])
    else
      var e :- ReadElementDefinition(items[0], start);
      var rest :- ReadElementDefinitions(items[1..], start);
      Ok([e] + rest)
  }

  function ReadParameters(items: seq<Json>): (r: Result<seq<Parameter>>)
    ensures r.Ok? ==> |r.value| == |items|
    ensures r.Ok? ==> forall i | 0 <= i < |items| :: ReadParameter(items[i]) == Ok(r.value[i])
  {
    if items == [] then Ok([])
    else
      var q :- ReadParameter(items[0]);
      var rest :- ReadParameters(items[1..]);
      Ok([q] + rest)
  }

  /** The "Created" property is read, and fails when malformed, but its value is not kept. */
  function CheckCreated(props: seq<JProp>): (r: Result<()>)
    ensures Lookup(props, CreatedKey).None? ==> r.Ok?
    ensures Lookup(props, CreatedKey).Some? && !Lookup(props, CreatedKey).value.JStr? ==> r == Err(WrongKind("String"))
  {
    match Lookup(props, CreatedKey)
    case None => Ok(())
    case Some(v) => var _ :- GetDateTime(v); Ok(())
  }

  /** The "ElementDefinition" array; a missing one contributes nothing. */
  function ReadEDArray(props: seq<JProp>, start: AliasStart): (r: Result<seq<ElementDefinition>>)
    ensures Lookup(props, ElementDefinitionKey).None? ==> r == Ok([])
    ensures r.Ok? ==> forall i | 0 <= i < |r.value| :: Valid(ED(r.value[i]))
  {
    match Lookup(props, ElementDefinitionKey)
    case None => Ok([])
    case Some(v) => var items :- EnumerateArray(v); ReadElementDefinitions(items, start)
  }

  function ReadParamArray(props: seq<JProp>): (r: Result<seq<Parameter>>)
    ensures Lookup(props, ParameterKey).None? ==> r == Ok([])
    ensures r.Ok? ==> forall i | 0 <= i < |r.value| :: Valid(Param(r.value[i]))
  {
    match Lookup(props, ParameterKey)
    case None => Ok([])
    case Some(v) => var items :- EnumerateArray(v); ReadParameters(items)
  }

  lemma EntitiesValid(es: seq<ElementDefinition>, ps: seq<Parameter>)
    requires forall i | 0 <= i < |es| :: Valid(ED(es[i]))
    requires forall i | 0 <= i < |ps| :: Valid(Param(ps[i]))
    ensures PayloadFactory.AllValid(PayloadFactory.EDThings(es) + PayloadFactory.ParamThings(ps))
  {
    var things := PayloadFactory.EDThings(es) + PayloadFactory.ParamThings(ps);
    forall i | 0 <= i < |things| ensures Valid(things[i]) {
      if i >= |es| {
        assert things[i] == PayloadFactory.ParamThings(ps)[i - |es|];
      }
    }
  }

  /**
   * `Deserialize` over the parsed document: "Created" is checked but not
   * kept; then every ElementDefinition, then every Parameter.
   */
  function DeserializeWith(root: Json, start: AliasStart): (r: Result<seq<Thing>>)
    ensures !root.JObj? ==> r == Err(WrongKind("Object"))
    ensures r.Ok? ==> PayloadFactory.AllValid(r.value)
    ensures r.Ok? && root.JObj? && Lookup(root.props, ElementDefinitionKey).None? ==>
              forall i | 0 <= i < |r.value| :: r.value[i].Param?
    ensures r.Ok? && root.JObj? && Lookup(root.props, ParameterKey).None? ==>
              forall i | 0 <= i < |r.value| :: r.value[i].ED?
  {
    if !root.JObj? then Err(WrongKind("Object"))
    else
      var _ :- CheckCreated(root.props);
      var es :- ReadEDArray(root.props, start);
      var ps :- ReadParamArray(root.props);
      EntitiesValid(es, ps);
      Ok(PayloadFactory.EDThings(es) + PayloadFactory.ParamThings(ps))
  }

  /** `Deserialize` as written: Aliases are added to the unset list. */
  function DeserializeAsWritten(root: Json): (r: Result<seq<Thing>>)
    ensures !root.JObj? ==> r == Err(WrongKind("Object"))
    ensures r.Ok? ==> PayloadFactory.AllValid(r.value)
  {
    DeserializeWith(root, Unset)
  }

  /** `Deserialize` with the Aliases list created before it is filled. */
  function Deserialize(root: Json): (r: Result<seq<Thing>>)
    ensures !root.JObj? ==> r == Err(WrongKind("Object"))
    ensures r.Ok? ==> PayloadFactory.AllValid(r.value)
  {
    DeserializeWith(root, EmptyList)
  }

  // ---------------------------------------------------------------------
  // Properties
  // ---------------------------------------------------------------------

  /** A property whose name occurs nowhere else is found. */
  lemma LookupUnique(props: seq<JProp>, i: nat, key: string)
    requires i < |props| && props[i].key == key
    requires forall j | 0 <= j < |props| && j != i :: props[j].key != key
    ensures Lookup(props, key) == Some(props[i].val)
  {
    var r := Lookup(props, key);
    LookupFindsLast(props, key);
    var k :| 0 <= k < |props| && props[k] == JProp(key, r.value) && forall j | k < j < |props| :: props[j].key != key;
    assert k == i;
  }

  /** A property under another name, inserted anywhere, does not change a lookup. */
  lemma {:induction false} LookupSkips(a: seq<JProp>, x: JProp, b: seq<JProp>, key: string)
    requires x.key != key
    ensures Lookup(a + [x] + b, key) == Lookup(a + b, key)
    decreases |b|
  {
    if b == [] {
      assert a + [x] + b == a + [x];
      assert (a + [x])[..|a|] == a;
      assert a + b == a;
    } else {
      var l := |b| - 1;
      var b' := b[..l];
      assert (a + [x] + b)[|a + [x] + b| - 1] == b[l];
      assert (a + b)[|a + b| - 1] == b[l];
      if b[l].key != key {
        LookupSkips(a, x, b', key);
        assert (a + [x] + b)[..|a + [x] + b| - 1] == a + [x] + b';
        assert (a + b)[..|a + b| - 1] == a + b';
      }
    }
  }

  lemma SameIid(p1: seq<JProp>, p2: seq<JProp>, e: ElementDefinition)
    requires Lookup(p1, IidKey) == Lookup(p2, IidKey)
    ensures ReadIid(p1, e) == ReadIid(p2, e)
  {
  }

  lemma SameName(p1: seq<JProp>, p2: seq<JProp>, e: ElementDefinition)
    requires Lookup(p1, NameKey) == Lookup(p2, NameKey)
    ensures ReadName(p1, e) == ReadName(p2, e)
  {
  }

  lemma SameDescription(p1: seq<JProp>, p2: seq<JProp>, e: ElementDefinition)
    requires Lookup(p1, DescriptionKey) == Lookup(p2, DescriptionKey)
    ensures ReadDescription(p1, e) == ReadDescription(p2, e)
  {
  }

  lemma SameAliases(p1: seq<JProp>, p2: seq<JProp>, e: ElementDefinition, start: AliasStart)
    requires Lookup(p1, AliasesKey) == Lookup(p2, AliasesKey)
    ensures ReadAliases(p1, e, start) == ReadAliases(p2, e, start)
  {
  }

  lemma SameParameterIids(p1: seq<JProp>, p2: seq<JProp>, e: ElementDefinition)
    requires Lookup(p1, ParametersKey) == Lookup(p2, ParametersKey)
    ensures ReadParameterIids(p1, e) == ReadParameterIids(p2, e)
  {
  }

  /** Objects whose known properties look up alike read alike. */
  lemma SameLookupsSameED(p1: seq<JProp>, p2: seq<JProp>, start: AliasStart)
    requires Lookup(p1, IidKey) == Lookup(p2, IidKey)
    requires Lookup(p1, NameKey) == Lookup(p2, NameKey)
    requires Lookup(p1, DescriptionKey) == Lookup(p2, DescriptionKey)
    requires Lookup(p1, AliasesKey) == Lookup(p2, AliasesKey)
    requires Lookup(p1, ParametersKey) == Lookup(p2, ParametersKey)
    ensures ReadElementDefinition(JObj(p1), start) == ReadElementDefinition(JObj(p2), start)
  {
    var e1 := ReadIid(p1, NewElementDefinition());
    SameIid(p1, p2, NewElementDefinition());
    if e1.Ok? {
      var e2 := ReadName(p1, e1.value);
      SameName(p1, p2, e1.value);
      if e2.Ok? {
        var e3 := ReadDescription(p1, e2.value);
        SameDescription(p1, p2, e2.value);
        if e3.Ok? {
          var e4 := ReadAliases(p1, e3.value, start);
          SameAliases(p1, p2, e3.value, start);
          if e4.Ok? {
            SameParameterIids(p1, p2, e4.value);
          }
        }
      }
    }
  }

  lemma SameLookupsSameParameter(p1: seq<JProp>, p2: seq<JProp>)
    requires forall k | k in [IidKey, NameKey, ValueKey] :: Lookup(p1, k) == Lookup(p2, k)
    ensures ReadParameter(JObj(p1)) == ReadParameter(JObj(p2))
  {
    assert Lookup(p1, IidKey) == Lookup(p2, IidKey);
    var q1 := ReadParameterIid(p1, NewParameter());
    assert q1 == ReadParameterIid(p2, NewParameter());
    if q1.Ok? {
      assert Lookup(p1, NameKey) == Lookup(p2, NameKey);
      var q2 := ReadParameterName(p1, q1.value);
      assert q2 == ReadParameterName(p2, q1.value);
      if q2.Ok? {
        assert Lookup(p1, ValueKey) == Lookup(p2, ValueKey);
        assert ReadValue(p1, q2.value) == ReadValue(p2, q2.value);
      }
    }
  }

  /**
   * Unknown properties are ignored: an ElementDefinition object with one
   * more property under any other name reads the same.
   */
  lemma EDIgnoresUnknownProperty(a: seq<JProp>, x: JProp, b: seq<JProp>, start: AliasStart)
    requires x.key !in [IidKey, NameKey, DescriptionKey, AliasesKey, ParametersKey]
    ensures ReadElementDefinition(JObj(a + [x] + b), start) == ReadElementDefinition(JObj(a + b), start)
  {
    LookupSkips(a, x, b, IidKey);
    LookupSkips(a, x, b, NameKey);
    LookupSkips(a, x, b, DescriptionKey);
    LookupSkips(a, x, b, AliasesKey);
    LookupSkips(a, x, b, ParametersKey);
    SameLookupsSameED(a + [x] + b, a + b, start);
  }

  lemma ParamIgnoresUnknownProperty(a: seq<JProp>, x: JProp, b: seq<JProp>)
    requires x.key !in [IidKey, NameKey, ValueKey]
    ensures ReadParameter(JObj(a + [x] + b)) == ReadParameter(JObj(a + b))
  {
    forall k | k in [IidKey, NameKey, ValueKey]
      ensures Lookup(a + [x] + b, k) == Lookup(a + b, k)
    {
      LookupSkips(a, x, b, k);
    }
    SameLookupsSameParameter(a + [x] + b, a + b);
  }

  /** An empty object reads as a freshly constructed entity. */
  lemma EmptyObjectsAreDefaults(start: AliasStart)
    ensures ReadElementDefinition(JObj([]), start) == Ok(NewElementDefinition())
    ensures ReadParameter(JObj([])) == Ok(NewParameter())
  {
    assert Lookup([], IidKey).None?;
  }

  /** One alias read and added to set Aliases. */
  lemma AddAliasesStep(acc: seq<NString>, items: seq<Json>, s: NString)
    requires items != [] && items[0] == StringValue(s)
    ensures AddAliases(Some(acc), items) == AddAliases(Some(acc + [s]), items[1..])
  {
    assert GetString(items[0]) == Ok(s);
  }

  /** Aliases written one after another are appended in order. */
  lemma {:induction false} AddWrittenAliases(acc: seq<NString>, ss: seq<NString>)
    ensures AddAliases(Some(acc), StringValues(ss)) == Ok(Some(acc + ss))
    decreases |ss|
  {
    if ss != [] {
      var items := StringValues(ss);
      assert items[1..] == StringValues(ss[1..]);
      AddAliasesStep(acc, items, ss[0]);
      AddWrittenAliases(acc + [ss[0]], ss[1..]);
      assert acc + [ss[0]] + ss[1..] == acc + ss;
    } else {
      assert StringValues(ss) == [];
      assert acc + ss == acc;
    }
  }

  lemma {:induction false} ReadWrittenGuids(gs: seq<Guid>)
    ensures ReadGuids(GuidValues(gs)) == Ok(gs)
    decreases |gs|
  {
    if gs != [] {
      var items := GuidValues(gs);
      TextRoundTrip(gs[0]);
      assert items[1..] == GuidValues(gs[1..]);
      ReadWrittenGuids(gs[1..]);
      assert [gs[0]] + gs[1..] == gs;
    }
  }

  /** Each property of a written ElementDefinition is found under its name. */
  lemma WrittenEDProperties(e: ElementDefinition)
    requires e.aliases.Some?
    ensures var props := EDObject(e).props;
            && Lookup(props, IidKey) == Some(JStr(ToText(e.iid)))
            && Lookup(props, NameKey) == Some(StringValue(e.name))
            && Lookup(props, DescriptionKey) == Some(StringValue(e.description))
            && Lookup(props, AliasesKey) == Some(JArr(StringValues(e.aliases.value)))
            && Lookup(props, ParametersKey) == Some(JArr(GuidValues(e.parameters)))
  {
    var props := EDObject(e).props;
    LookupUnique(props, 0, IidKey);
    LookupUnique(props, 1, NameKey);
    LookupUnique(props, 2, DescriptionKey);
    LookupUnique(props, 3, AliasesKey);
    LookupUnique(props, 4, ParametersKey);
  }

  /** `ReadElementDefinition` as the chain of its property readers. */
  lemma ReadEDChain(props: seq<JProp>, start: AliasStart, e1: ElementDefinition, e2: ElementDefinition,
                    e3: ElementDefinition, e4: ElementDefinition, e5: ElementDefinition)
    requires ReadIid(props, NewElementDefinition()) == Ok(e1)
    requires ReadName(props, e1) == Ok(e2)
    requires ReadDescription(props, e2) == Ok(e3)
    requires ReadAliases(props, e3, start) == Ok(e4)
    requires ReadParameterIids(props, e4) == Ok(e5)
    ensures ReadElementDefinition(JObj(props), start) == Ok(e5)
  {
  }

  lemma ReadWrittenIid(props: seq<JProp>, e: ElementDefinition, g: Guid)
    requires Lookup(props, IidKey) == Some(JStr(ToText(g)))
    ensures ReadIid(props, e) == Ok(e.(iid := g))
  {
    TextRoundTrip(g);
  }

  lemma ReadWrittenName(props: seq<JProp>, e: ElementDefinition, s: NString)
    requires Lookup(props, NameKey) == Some(StringValue(s))
    ensures ReadName(props, e) == Ok(e.(name := s))
  {
  }

  lemma ReadWrittenDescription(props: seq<JProp>, e: ElementDefinition, s: NString)
    requires Lookup(props, DescriptionKey) == Some(StringValue(s))
    ensures ReadDescription(props, e) == Ok(e.(description := s))
  {
  }

  lemma ReadWrittenAliases(props: seq<JProp>, e: ElementDefinition, ss: seq<NString>)
    requires Lookup(props, AliasesKey) == Some(JArr(StringValues(ss)))
    ensures ReadAliases(props, e, EmptyList) == Ok(e.(aliases := Some(ss)))
  {
    AddWrittenAliases([], ss);
    assert [] + ss == ss;
  }

  lemma ReadWrittenParameterIids(props: seq<JProp>, e: ElementDefinition, gs: seq<Guid>)
    requires Lookup(props, ParametersKey) == Some(JArr(GuidValues(gs)))
    ensures ReadParameterIids(props, e) == Ok(e.(parameters := e.parameters + gs))
  {
    ReadWrittenGuids(gs);
  }

  /** A valid ElementDefinition is the fresh one with its five fields replaced. */
  lemma EDFromFields(e: ElementDefinition)
    requires Valid(ED(e))
    ensures var e0 := NewElementDefinition();
            e0.(iid := e.iid).(name := e.name).(description := e.description).(aliases := e.aliases)
              .(parameters := e0.parameters + e.parameters) == e
  {
  }

  /** A written ElementDefinition reads back whole when Aliases start as an empty list. */
  lemma ReadWrittenED(e: ElementDefinition)
    requires Valid(ED(e)) && e.aliases.Some?
    ensures ReadElementDefinition(EDObject(e), EmptyList) == Ok(e)
  {
    var props := EDObject(e).props;
    WrittenEDProperties(e);
    var e0 := NewElementDefinition();
    var e1 := e0.(iid := e.iid);
    var e2 := e1.(name := e.name);
    var e3 := e2.(description := e.description);
    var e4 := e3.(aliases := e.aliases);
    ReadWrittenIid(props, e0, e.iid);
    ReadWrittenName(props, e1, e.name);
    ReadWrittenDescription(props, e2, e.description);
    ReadWrittenAliases(props, e3, e.aliases.value);
    ReadWrittenParameterIids(props, e4, e.parameters);
    EDFromFields(e);
    ReadEDChain(props, EmptyList, e1, e2, e3, e4, e);
  }

  lemma ReadParameterChain(props: seq<JProp>, q1: Parameter, q2: Parameter, q3: Parameter)
    requires ReadParameterIid(props, NewParameter()) == Ok(q1)
    requires ReadParameterName(props, q1) == Ok(q2)
    requires ReadValue(props, q2) == Ok(q3)
    ensures ReadParameter(JObj(props)) == Ok(q3)
  {
  }

  lemma WrittenParameterProperties(q: Parameter)
    ensures var props := ParamObject(q).props;
            && Lookup(props, IidKey) == Some(JStr(ToText(q.iid)))
            && Lookup(props, NameKey) == Some(StringValue(q.name))
            && Lookup(props, ValueKey) == Some(JNum(q.value))
  {
    var props := ParamObject(q).props;
    LookupUnique(props, 0, IidKey);
    LookupUnique(props, 1, NameKey);
    LookupUnique(props, 2, ValueKey);
  }

  lemma ReadWrittenParameterIid(props: seq<JProp>, q: Parameter, g: Guid)
    requires Lookup(props, IidKey) == Some(JStr(ToText(g)))
    ensures ReadParameterIid(props, q) == Ok(q.(iid := g))
  {
    TextRoundTrip(g);
  }

  lemma ReadWrittenParameterName(props: seq<JProp>, q: Parameter, s: NString)
    requires Lookup(props, NameKey) == Some(StringValue(s))
    ensures ReadParameterName(props, q) == Ok(q.(name := s))
  {
  }

  lemma ReadWrittenValue(props: seq<JProp>, q: Parameter, d: Double)
    requires Lookup(props, ValueKey) == Some(JNum(d))
    ensures ReadValue(props, q) == Ok(q.(value := d))
  {
  }

  lemma ReadWrittenParameter(q: Parameter)
    requires Valid(Param(q))
    ensures ReadParameter(ParamObject(q)) == Ok(q)
  {
    var props := ParamObject(q).props;
    WrittenParameterProperties(q);
    var q0 := NewParameter();
    var q1 := q0.(iid := q.iid);
    var q2 := q1.(name := q.name);
    ReadWrittenParameterIid(props, q0, q.iid);
    ReadWrittenParameterName(props, q1, q.name);
    ReadWrittenValue(props, q2, q.value);
    assert q2.(value := q.value) == q;
    ReadParameterChain(props, q1, q2, q);
  }

  lemma {:induction false} ReadWrittenEDs(es: seq<ElementDefinition>, items: seq<Json>)
    requires AliasesSet(es) && forall i | 0 <= i < |es| :: Valid(ED(es[i]))
    requires |items| == |es| && forall i | 0 <= i < |es| :: items[i] == EDObject(es[i])
    ensures ReadElementDefinitions(items, EmptyList) == Ok(es)
    decreases |es|
  {
    if es != [] {
      ReadWrittenED(es[0]);
      ReadWrittenEDs(es[1..], items[1..]);
      assert [es[0]] + es[1..] == es;
    }
  }

  lemma {:induction false} ReadWrittenParameters(ps: seq<Parameter>, items: seq<Json>)
    requires forall i | 0 <= i < |ps| :: Valid(Param(ps[i]))
    requires |items| == |ps| && forall i | 0 <= i < |ps| :: items[i] == ParamObject(ps[i])
    ensures ReadParameters(items) == Ok(ps)
    decreases |ps|
  {
    if ps != [] {
      ReadWrittenParameter(ps[0]);
      ReadWrittenParameters(ps[1..], items[1..]);
      assert [ps[0]] + ps[1..] == ps;
    }
  }

  /** Each property of a root object in the written layout is found under its name. */
  lemma RootProperties(c: Json, eds: Json, ps: Json)
    ensures var props := [JProp(CreatedKey, c), JProp(ElementDefinitionKey, eds), JProp(ParameterKey, ps)];
            && Lookup(props, CreatedKey) == Some(c)
            && Lookup(props, ElementDefinitionKey) == Some(eds)
            && Lookup(props, ParameterKey) == Some(ps)
  {
    var props := [JProp(CreatedKey, c), JProp(ElementDefinitionKey, eds), JProp(ParameterKey, ps)];
    LookupUnique(props, 0, CreatedKey);
    LookupUnique(props, 1, ElementDefinitionKey);
    LookupUnique(props, 2, ParameterKey);
  }

  /**
   * Round trip of the JSON path, with the Aliases list created before it is
   * filled: every ElementDefinition, in input order, then every Parameter,
   * in input order, each with all its fields.
   */
  lemma RoundTrip(things: seq<Thing>, created: DateTime)
    requires PayloadFactory.AllValid(things)
    requires AliasesSet(PayloadFactory.ElementDefinitionsOf(things))
    requires AllFinite(PayloadFactory.ParametersOf(things))
    ensures Serialize(Some(things), created).Ok?
    ensures Deserialize(Serialize(Some(things), created).value)
            == Ok(PayloadFactory.EDThings(PayloadFactory.ElementDefinitionsOf(things))
                  + PayloadFactory.ParamThings(PayloadFactory.ParametersOf(things)))
  {
    var es, ps := PayloadFactory.ElementDefinitionsOf(things), PayloadFactory.ParametersOf(things);
    PayloadFactory.GroupByKind(things);
    assert KindHomogeneous(PayloadFactory.Create(Some(things), created).value);
    var edItems := WriteEDs(es).value;
    var pItems := WriteParams(ps).value;
    var c := JStr(DateText(created));
    assert Serialize(Some(things), created).value
           == JObj([JProp(CreatedKey, c), JProp(ElementDefinitionKey, JArr(edItems)), JProp(ParameterKey, JArr(pItems))]);
    RootProperties(c, JArr(edItems), JArr(pItems));
    DateRoundTrip(created);
    ReadWrittenEDs(es, edItems);
    ReadWrittenParameters(ps, pItems);
  }

  // ---------------------------------------------------------------------
  // The Aliases list as written
  // ---------------------------------------------------------------------

  /** `ReadElementDefinition` stopped by its "Aliases" reader. */
  lemma ReadEDAliasesFails(props: seq<JProp>, start: AliasStart, e1: ElementDefinition, e2: ElementDefinition,
                           e3: ElementDefinition, err: Error)
    requires ReadIid(props, NewElementDefinition()) == Ok(e1)
    requires ReadName(props, e1) == Ok(e2)
    requires ReadDescription(props, e2) == Ok(e3)
    requires ReadAliases(props, e3, start) == Err(err)
    ensures ReadElementDefinition(JObj(props), start) == Err(err)
  {
  }

  /** With Aliases unset, a first alias that reads is added to null. */
  lemma AddToUnsetAliases(props: seq<JProp>, e: ElementDefinition, ss: seq<NString>)
    requires e.aliases.None? && ss != []
    requires Lookup(props, AliasesKey) == Some(JArr(StringValues(ss)))
    ensures ReadAliases(props, e, Unset) == Err(NullReference)
  {
    assert GetString(StringValues(ss)[0]).Ok?;
  }

  /** As written, reading back an ElementDefinition with any alias fails. */
  lemma AsWrittenLosesED(e: ElementDefinition)
    requires Valid(ED(e)) && e.aliases.Some? && e.aliases.value != []
    ensures ReadElementDefinition(EDObject(e), Unset) == Err(NullReference)
  {
    var props := EDObject(e).props;
    WrittenEDProperties(e);
    var e0 := NewElementDefinition();
    var e1 := e0.(iid := e.iid);
    var e2 := e1.(name := e.name);
    var e3 := e2.(description := e.description);
    ReadWrittenIid(props, e0, e.iid);
    ReadWrittenName(props, e1, e.name);
    ReadWrittenDescription(props, e2, e.description);
    AddToUnsetAliases(props, e3, e.aliases.value);
    ReadEDAliasesFails(props, Unset, e1, e2, e3, NullReference);
  }

  /**
   * The smallest document that shows it: one ElementDefinition with one
   * alias fails as written with a null reference, and reads with the
   * corrected start.
   */
  lemma AsWrittenCounterexample()
    ensures var doc := JObj([JProp(ElementDefinitionKey, JArr([JObj([JProp(AliasesKey, JArr([JStr("alias_0")]))])]))]);
            && DeserializeAsWritten(doc) == Err(NullReference)
            && Deserialize(doc) == Ok([ED(NewElementDefinition().(aliases := Some([Some("alias_0")])))])
  {
    var ed := JObj([JProp(AliasesKey, JArr([JStr("alias_0")]))]);
    var doc := JObj([JProp(ElementDefinitionKey, JArr([ed]))]);
    var e0 := NewElementDefinition();
    assert Lookup(doc.props, CreatedKey).None?;
    assert Lookup(doc.props, ParameterKey).None?;
    assert Lookup(doc.props, ElementDefinitionKey) == Some(JArr([ed]));
    assert Lookup(ed.props, IidKey).None? && Lookup(ed.props, NameKey).None?;
    assert Lookup(ed.props, DescriptionKey).None? && Lookup(ed.props, ParametersKey).None?;
    assert Lookup(ed.props, AliasesKey) == Some(JArr([JStr("alias_0")]));
    assert StringValues([Some("alias_0")]) == [JStr("alias_0")];
    AddToUnsetAliases(ed.props, e0, [Some("alias_0")]);
    ReadEDAliasesFails(ed.props, Unset, e0, e0, e0, NullReference);
    ReadWrittenAliases(ed.props, e0, [Some("alias_0")]);
    var e := e0.(aliases := Some([Some("alias_0")]));
    assert e0.(parameters := e0.parameters + []) == e0;
    ReadEDChain(ed.props, EmptyList, e0, e0, e0, e, e);
    assert ReadElementDefinition(ed, EmptyList) == Ok(e);
    assert [ed][1..] == [];
    assert ReadElementDefinitions([], EmptyList) == Ok([]);
    assert [e] + [] == [e];
    assert ReadElementDefinitions([ed], Unset) == Err(NullReference);
    assert ReadElementDefinitions([ed], EmptyList) == Ok([e]);
    assert ReadEDArray(doc.props, EmptyList) == Ok([e]);
    assert PayloadFactory.EDThings([e]) + PayloadFactory.ParamThings([]) == [ED(e)];
  }

  /**
   * As written, serializing then deserializing any ElementDefinition that
   * has an alias fails with a null reference.
   */
  lemma AsWrittenRoundTripFails(e: ElementDefinition, created: DateTime)
    requires Valid(ED(e)) && e.aliases.Some? && e.aliases.value != []
    ensures Serialize(Some([ED(e)]), created).Ok?
    ensures DeserializeAsWritten(Serialize(Some([ED(e)]), created).value) == Err(NullReference)
  {
    var things := [ED(e)];
    assert PayloadFactory.ElementDefinitionsOf(things) == [e];
    assert PayloadFactory.ParametersOf(things) == [];
    var c := JStr(DateText(created));
    var edItems := WriteEDs([e]).value;
    assert edItems == [EDObject(e)];
    assert Serialize(Some(things), created).value
           == JObj([JProp(CreatedKey, c), JProp(ElementDefinitionKey, JArr(edItems)), JProp(ParameterKey, JArr([]))]);
    RootProperties(c, JArr(edItems), JArr([]));
    DateRoundTrip(created);
    AsWrittenLosesED(e);
  }
}
