/**
 * The `Payload` record both codecs exchange: a creation timestamp and one
 * list per known kind, under the keys "Created", "ElementDefinition" and
 * "Parameter".  Both list properties have public setters, so either may be
 * null (`None`); a fresh payload starts with both empty.
 */
module Payloads {
  import opened Wrappers
  import opened Primitives
  import opened Model

  datatype Payload = Payload(
    created: DateTime,
    elementDefinition: Option<seq<ElementDefinition>>,
    parameter: Option<seq<Parameter>>)

  const CreatedKey: string := "Created"
  const ElementDefinitionKey: string := "ElementDefinition"
  const ParameterKey: string := "Parameter"

  /** The payload's keys, in declaration order. */
  const Keys: seq<string> := [CreatedKey, ElementDefinitionKey, ParameterKey]

  /** `new Payload()`: both lists start empty, `Created` at its default. */
  function NewPayload(): (p: Payload)
    ensures p.elementDefinition == Some([]) && p.parameter == Some([])
    ensures p.created == MinValue
  {
    Payload(MinValue, Some([]), Some([]))
  }

  /** Neither list is null. */
  predicate ListsPresent(p: Payload) {
    p.elementDefinition.Some? && p.parameter.Some?
  }

  /** Each list that is present holds only entities of its own kind. */
  predicate KindHomogeneous(p: Payload) {
    && (p.elementDefinition.Some? ==>
          forall i | 0 <= i < |p.elementDefinition.value| :: Valid(ED(p.elementDefinition.value[i])))
    && (p.parameter.Some? ==>
          forall i | 0 <= i < |p.parameter.value| :: Valid(Param(p.parameter.value[i])))
  }
}
