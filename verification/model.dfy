/**
 * The entity model: the abstract `Thing`, its two concrete variants
 * `ElementDefinition` and `Parameter`, and the `ClassKind` tag every Thing
 * computes once, when it is constructed, from the name of its concrete type.
 *
 * A Thing of any other concrete type is represented by `OtherThing`; it
 * exists so that the aggregator's treatment of unknown kinds can be stated.
 */
module Model {
  import opened Wrappers
  import opened Primitives

  /**
   * The `ClassKind` enumeration.  Only its two members used by the core are
   * named; every other member is `NamedKind(name)`.
   */
  datatype ClassKind = ElementDefinitionKind | ParameterKind | NamedKind(name: string)

  const ElementDefinitionTypeName: string := "ElementDefinition"
  const ParameterTypeName: string := "Parameter"

  /** The name of an enumeration member, the text `Enum.TryParse` matches. */
  function KindName(k: ClassKind): string {
    match k
    case ElementDefinitionKind => ElementDefinitionTypeName
    case ParameterKind => ParameterTypeName
    case NamedKind(n) => n
  }

  /**
   * `Thing.ComputeCurrentClassKind`: the enumeration member named like the
   * concrete type, or an invalid-operation error when there is none.
   * `otherMembers` are the names of the enumeration's remaining members.
   */
  function ComputeCurrentClassKind(typeName: string, otherMembers: set<string>): (r: Result<ClassKind>)
    ensures r.Ok? <==> typeName == ElementDefinitionTypeName || typeName == ParameterTypeName || typeName in otherMembers
    ensures r.Ok? ==> KindName(r.value) == typeName
    ensures r.Err? ==> r.error.InvalidOperation?
  {
    if typeName == ElementDefinitionTypeName then Ok(ElementDefinitionKind)
    else if typeName == ParameterTypeName then Ok(ParameterKind)
    else if typeName in otherMembers then Ok(NamedKind(typeName))
    else Err(InvalidOperation("The current Thing " + typeName + " does not have a corresponding ClassKind"))
  }

  /** An ElementDefinition; `aliases` is `None` while unset (null). */
  datatype ElementDefinition = ElementDefinition(
    classKind: ClassKind,
    iid: Guid,
    name: NString,
    description: NString,
    aliases: Option<seq<NString>>,
    parameters: seq<Guid>)

  datatype Parameter = Parameter(
    classKind: ClassKind,
    iid: Guid,
    name: NString,
    value: Double)

  datatype Thing =
    | ED(ed: ElementDefinition)
    | Param(p: Parameter)
    | OtherThing(kind: ClassKind, id: Guid, typeName: string)
  {
    /** The readonly `ClassKind` field. */
    function Kind(): ClassKind {
      match this
      case ED(e) => e.classKind
      case Param(p) => p.classKind
      case OtherThing(k, _, _) => k
    }

    function Iid(): Guid {
      match this
      case ED(e) => e.iid
      case Param(p) => p.iid
      case OtherThing(_, i, _) => i
    }

    /** The name of the concrete type, as `GetType().Name` reports it. */
    function TypeName(): string {
      match this
      case ED(_) => ElementDefinitionTypeName
      case Param(_) => ParameterTypeName
      case OtherThing(_, _, n) => n
    }
  }

  /**
   * A Thing as its constructors leave it: the stored kind is the one
   * computed from its concrete type's name.
   */
  predicate Valid(t: Thing) {
    && (t.OtherThing? ==> t.typeName != ElementDefinitionTypeName && t.typeName != ParameterTypeName)
    && KindName(t.Kind()) == t.TypeName()
    && (t.ED? <==> t.Kind() == ElementDefinitionKind)
    && (t.Param? <==> t.Kind() == ParameterKind)
  }

  /** Every ElementDefinition of the list has its Aliases set. */
  predicate AliasesSet(es: seq<ElementDefinition>) {
    forall i | 0 <= i < |es| :: es[i].aliases.Some?
  }

  /** `new ElementDefinition()`: kind computed, identifier empty, only `Parameters` initialised. */
  function NewElementDefinition(): (e: ElementDefinition)
    ensures Valid(ED(e))
    ensures e.iid == EmptyGuid
    ensures e.name.None? && e.description.None? && e.aliases.None?
    ensures e.parameters == []
  {
    var kind := ComputeCurrentClassKind(ElementDefinitionTypeName, {});
    ElementDefinition(kind.value, EmptyGuid, None, None, None, [])
  }

  /** `new ElementDefinition(iid)`: the parameterless constructor, then `Iid := iid`. */
  function NewElementDefinitionWithIid(iid: Guid): (e: ElementDefinition)
    ensures Valid(ED(e))
    ensures e.iid == iid
    ensures e.name.None? && e.description.None? && e.aliases.None?
    ensures e.parameters == []
  {
    NewElementDefinition().(iid := iid)
  }

  /** `new Parameter()`: kind computed, identifier empty, name unset, value zero. */
  function NewParameter(): (p: Parameter)
    ensures Valid(Param(p))
    ensures p.iid == EmptyGuid
    ensures p.name.None?
    ensures p.value == Zero
  {
    var kind := ComputeCurrentClassKind(ParameterTypeName, {});
    Parameter(kind.value, EmptyGuid, None, Zero)
  }

  /** `new Parameter(iid)`. */
  function NewParameterWithIid(iid: Guid): (p: Parameter)
    ensures Valid(Param(p))
    ensures p.iid == iid
    ensures p.name.None?
    ensures p.value == Zero
  {
    NewParameter().(iid := iid)
  }

  /**
   * Constructing a Thing of a concrete type outside the core: it succeeds
   * exactly when the enumeration has a member of the same name.  A type that
   * shares its name with one of the core's types (in another namespace) gets
   * that type's kind, and is then not `Valid`.
   */
  function NewOtherThing(typeName: string, otherMembers: set<string>, iid: Guid): (r: Result<Thing>)
    ensures r.Ok? <==> typeName == ElementDefinitionTypeName || typeName == ParameterTypeName || typeName in otherMembers
    ensures r.Ok? ==> r.value.OtherThing? && r.value.Iid() == iid && KindName(r.value.Kind()) == typeName
    ensures r.Ok? && typeName != ElementDefinitionTypeName && typeName != ParameterTypeName ==> Valid(r.value)
    ensures r.Err? ==> r.error.InvalidOperation?
  {
    var kind :- ComputeCurrentClassKind(typeName, otherMembers);
    Ok(OtherThing(kind, iid, typeName))
  }

  /** The `Iid` setter: the identifier changes, the readonly kind does not. */
  function SetIid(t: Thing, iid: Guid): (r: Thing)
    ensures r.Iid() == iid
    ensures r.Kind() == t.Kind() && r.TypeName() == t.TypeName()
    ensures Valid(t) ==> Valid(r)
  {
    match t
    case ED(e) => ED(e.(iid := iid))
    case Param(p) => Param(p.(iid := iid))
    case OtherThing(k, _, n) => OtherThing(k, iid, n)
  }
}
