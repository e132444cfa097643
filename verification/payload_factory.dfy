/**
 * `PayloadFactory`: grouping a flat list of Things into a `Payload` by
 * `ClassKind`, and flattening a `Payload` back into a list of Things.
 */
module PayloadFactory {
  import opened Wrappers
  import opened Primitives
  import opened Model
  import opened Payloads

  predicate AllValid(ts: seq<Thing>) {
    forall i | 0 <= i < |ts| :: Valid(ts[i])
  }

  /** Reference definition: the ElementDefinitions of `ts`, in input order. */
  function ElementDefinitionsOf(ts: seq<Thing>): seq<ElementDefinition> {
    if ts == [] then []
    else if ts[0].ED? then [ts[0].ed] + ElementDefinitionsOf(ts[1..])
    else ElementDefinitionsOf(ts[1..])
  }

  /** Reference definition: the Parameters of `ts`, in input order. */
  function ParametersOf(ts: seq<Thing>): seq<Parameter> {
    if ts == [] then []
    else if ts[0].Param? then [ts[0].p] + ParametersOf(ts[1..])
    else ParametersOf(ts[1..])
  }

  function EDThings(es: seq<ElementDefinition>): (ts: seq<Thing>)
    ensures |ts| == |es| && forall i | 0 <= i < |es| :: ts[i] == ED(es[i])
  {
    seq(|es|, i requires 0 <= i < |es| => ED(es[i]))
  }

  function ParamThings(ps: seq<Parameter>): (ts: seq<Thing>)
    ensures |ts| == |ps| && forall i | 0 <= i < |ps| :: ts[i] == Param(ps[i])
  {
    seq(|ps|, i requires 0 <= i < |ps| => Param(ps[i]))
  }

  /**
   * The loop over the input: a switch on `ClassKind`, a cast to the
   * concrete type, and no default branch.
   */
  function Group(ts: seq<Thing>): (r: Result<(seq<ElementDefinition>, seq<Parameter>)>)
    ensures r.Ok? ==> forall i | 0 <= i < |r.value.0| :: r.value.0[i].classKind == ElementDefinitionKind
    ensures r.Ok? ==> forall i | 0 <= i < |r.value.1| :: r.value.1[i].classKind == ParameterKind
    ensures r.Err? ==> r.error == InvalidCast
  {
    if ts == [] then Ok(([], []))
    else
      var t := ts[0];
      var rest :- Group(ts[1..]);
      if t.Kind() == ElementDefinitionKind then
        if t.ED? then Ok(([t.ed] + rest.0, rest.1)) else Err(InvalidCast)
      else if t.Kind() == ParameterKind then
        if t.Param? then Ok((rest.0, [t.p] + rest.1)) else Err(InvalidCast)
      else Ok(rest)
  }

  /** `PayloadFactory.Create(IEnumerable<Thing>)`; `created` stands for `DateTime.UtcNow`. */
  function Create(things: Option<seq<Thing>>, created: DateTime): (r: Result<Payload>)
    ensures things.None? ==> r == Err(ArgumentNull("things"))
    ensures things.Some? && AllValid(things.value) ==> r.Ok?
    ensures r.Ok? ==> r.value.created == created && ListsPresent(r.value) && KindHomogeneous(r.value)
  {
    if things.None? then Err(ArgumentNull("things"))
    else
      assert AllValid(things.value) ==> Group(things.value).Ok? by {
        if AllValid(things.value) {
          GroupByKind(things.value);
        }
      }
      var groups :- Group(things.value);
      Ok(NewPayload().(created := created, elementDefinition := Some(groups.0), parameter := Some(groups.1)))
  }

  /**
   * `PayloadFactory.Create(Payload)`: the ElementDefinitions, then the
   * Parameters; `AddRange` rejects a null list.
   */
  function Flatten(payload: Option<Payload>): (r: Result<seq<Thing>>)
    ensures payload.None? ==> r == Err(ArgumentNull("payload"))
    ensures payload.Some? ==> (r.Ok? <==> ListsPresent(payload.value))
    ensures payload.Some? && r.Err? ==> r.error == ArgumentNull("collection")
    ensures r.Ok? ==>
              var es, ps := payload.value.elementDefinition.value, payload.value.parameter.value;
              && |r.value| == |es| + |ps|
              && (forall i | 0 <= i < |es| :: r.value[i] == ED(es[i]))
              && (forall j | 0 <= j < |ps| :: r.value[|es| + j] == Param(ps[j]))
  {
    if payload.None? then Err(ArgumentNull("payload"))
    else if payload.value.elementDefinition.None? then Err(ArgumentNull("collection"))
    else if payload.value.parameter.None? then Err(ArgumentNull("collection"))
    else
      var es := EDThings(payload.value.elementDefinition.value);
      var ps := ParamThings(payload.value.parameter.value);
      assert forall j | 0 <= j < |ps| :: (es + ps)[|es| + j] == ps[j];
      Ok(es + ps)
  }

  /** On well-formed input, grouping is exactly the two per-kind filters. */
  lemma {:induction false} GroupByKind(ts: seq<Thing>)
    requires AllValid(ts)
    ensures Group(ts) == Ok((ElementDefinitionsOf(ts), ParametersOf(ts)))
  {
    if ts != [] {
      assert AllValid(ts[1..]) by {
        forall i | 0 <= i < |ts[1..]| ensures Valid(ts[1..][i]) {
          assert ts[1..][i] == ts[i + 1];
        }
      }
      GroupByKind(ts[1..]);
      assert Valid(ts[0]);
    }
  }

  /** A Thing of any other kind is dropped without trace. */
  lemma DropsOtherKinds(ts: seq<Thing>, other: Thing)
    requires Valid(other) && other.OtherThing?
    ensures Group([other] + ts) == Group(ts)
  {
    assert ([other] + ts)[1..] == ts;
  }

  lemma {:induction false} FiltersDistribute(a: seq<Thing>, b: seq<Thing>)
    ensures ElementDefinitionsOf(a + b) == ElementDefinitionsOf(a) + ElementDefinitionsOf(b)
    ensures ParametersOf(a + b) == ParametersOf(a) + ParametersOf(b)
  {
    if a != [] {
      var ab := a + b;
      assert ab != [] && ab[0] == a[0];
      assert ab[1..] == a[1..] + b;
      FiltersDistribute(a[1..], b);
      if a[0].ED? {
        assert [a[0].ed] + (ElementDefinitionsOf(a[1..]) + ElementDefinitionsOf(b))
            == ([a[0].ed] + ElementDefinitionsOf(a[1..])) + ElementDefinitionsOf(b);
      }
      if a[0].Param? {
        assert [a[0].p] + (ParametersOf(a[1..]) + ParametersOf(b))
            == ([a[0].p] + ParametersOf(a[1..])) + ParametersOf(b);
      }
    } else {
      assert a + b == b;
    }
  }

  lemma {:induction false} FiltersOfEDThings(es: seq<ElementDefinition>)
    ensures ElementDefinitionsOf(EDThings(es)) == es
    ensures ParametersOf(EDThings(es)) == []
  {
    if es != [] {
      assert EDThings(es)[1..] == EDThings(es[1..]);
      FiltersOfEDThings(es[1..]);
    }
  }

  lemma {:induction false} FiltersOfParamThings(ps: seq<Parameter>)
    ensures ElementDefinitionsOf(ParamThings(ps)) == []
    ensures ParametersOf(ParamThings(ps)) == ps
  {
    if ps != [] {
      assert ParamThings(ps)[1..] == ParamThings(ps[1..]);
      FiltersOfParamThings(ps[1..]);
    }
  }

  /** Group then flatten: all ElementDefinitions in input order, then all Parameters. */
  lemma GroupThenFlatten(ts: seq<Thing>, created: DateTime)
    requires AllValid(ts)
    ensures Create(Some(ts), created).Ok?
    ensures Flatten(Some(Create(Some(ts), created).value))
            == Ok(EDThings(ElementDefinitionsOf(ts)) + ParamThings(ParametersOf(ts)))
  {
    GroupByKind(ts);
  }

  /** Filtering a list written ElementDefinitions first gives back the two lists. */
  lemma FiltersOfFlattened(es: seq<ElementDefinition>, ps: seq<Parameter>)
    ensures ElementDefinitionsOf(EDThings(es) + ParamThings(ps)) == es
    ensures ParametersOf(EDThings(es) + ParamThings(ps)) == ps
  {
    FiltersDistribute(EDThings(es), ParamThings(ps));
    FiltersOfEDThings(es);
    FiltersOfParamThings(ps);
    assert es + [] == es && [] + ps == ps;
  }

  /** Input already ordered ElementDefinitions first comes back unchanged. */
  lemma GroupThenFlattenOrdered(es: seq<ElementDefinition>, ps: seq<Parameter>, created: DateTime)
    requires AllValid(EDThings(es) + ParamThings(ps))
    ensures Create(Some(EDThings(es) + ParamThings(ps)), created).Ok?
    ensures Flatten(Some(Create(Some(EDThings(es) + ParamThings(ps)), created).value))
            == Ok(EDThings(es) + ParamThings(ps))
  {
    GroupThenFlatten(EDThings(es) + ParamThings(ps), created);
    FiltersOfFlattened(es, ps);
  }

  /** The Things of a well-formed payload are well-formed. */
  lemma FlattenedValid(p: Payload)
    requires KindHomogeneous(p)
    ensures Flatten(Some(p)).Ok? ==> AllValid(Flatten(Some(p)).value)
  {
    if ListsPresent(p) {
      var es, ps := p.elementDefinition.value, p.parameter.value;
      var ts := Flatten(Some(p)).value;
      forall i | 0 <= i < |ts| ensures Valid(ts[i]) {
        if i < |es| {
          assert ts[i] == ED(es[i]);
        } else {
          assert ts[|es| + (i - |es|)] == Param(ps[i - |es|]);
        }
      }
    }
  }

  /**
   * Flattening succeeds exactly when neither list is null, and grouping
   * what it returns reproduces the payload.
   */
  lemma FlattenThenGroup(p: Payload)
    requires KindHomogeneous(p)
    ensures Flatten(Some(p)).Ok? <==> ListsPresent(p)
    ensures Flatten(Some(p)).Ok? ==> Create(Some(Flatten(Some(p)).value), p.created) == Ok(p)
  {
    if ListsPresent(p) {
      var es, ps := p.elementDefinition.value, p.parameter.value;
      var ts := EDThings(es) + ParamThings(ps);
      assert Flatten(Some(p)).value == ts;
      FlattenedValid(p);
      GroupByKind(ts);
      FiltersOfFlattened(es, ps);
    }
  }
}
