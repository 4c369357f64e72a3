/** `ObjectUtils.deepMerge(o1, o2)` (webscale-core/src/utils/object.utils.ts). The source
    writes into `o1` and returns a value; the model returns both: `merged` is `o1` after the
    call and `r` is what the call returns (or the TypeError it throws). */
module ObjectUtils {
  import opened Wrappers
  import opened JsValues

  predicate HasTruthyProp(v: Value)
  {
    v.Obj? && exists p :: p in v.props && Truthy(v.props[p])
  }

  /** What the call returns for two values that are both truthy: `o2`, except that two
      objects give `undefined` (the object branch has no `return`). */
  function NestedResult(a: Value, b: Value): Value
  {
    if TypeOf(a) == TypeOf(b) == "object" then Undefined else b
  }

  /** The value of property `p` after the two maps have been merged. */
  function MergedProp(m1: map<string, Value>, m2: map<string, Value>, p: string): Value
    requires p in m1 || (p in m2 && Truthy(m2[p]))
  {
    if p in m2 && Truthy(m2[p]) then
      if p in m1 && Truthy(m1[p]) then NestedResult(m1[p], m2[p]) else m2[p]
    else m1[p]
  }

  /** What `o1` is after `deepMerge(o1, o2)` returns normally; the merge writes only into an
      object `o1` that meets an object `o2`. */
  function MergeInto(o1: Value, o2: Value): Value
  {
    if o1.Obj? && o2.Obj? then
      var m1, m2 := o1.props, o2.props;
      Obj(map p | p in m1.Keys + m2.Keys && (p in m1 || Truthy(m2[p])) :: MergedProp(m1, m2, p))
    else o1
  }

  /** The three per-property rules for the properties of `m2` outside `todo`; the ones in
      `todo` are not visited yet. */
  ghost predicate MergedSoFar(m1: map<string, Value>, m2: map<string, Value>, acc: map<string, Value>, todo: set<string>)
  {
    (forall p :: p in m2 && p !in todo && Truthy(m2[p]) && !(p in m1 && Truthy(m1[p])) ==>
      p in acc && acc[p] == m2[p]) &&
    (forall p :: p in m2 && p !in todo && Truthy(m2[p]) && p in m1 && Truthy(m1[p]) ==>
      p in acc && acc[p] == NestedResult(m1[p], m2[p])) &&
    (forall p :: (p in todo || !(p in m2 && Truthy(m2[p]))) ==>
      (p in acc <==> p in m1) && (p in m1 ==> acc[p] == m1[p]))
  }

  /** A map that meets the three per-property rules for every property is the merged map. */
  lemma MergedMap(m1: map<string, Value>, m2: map<string, Value>, acc: map<string, Value>)
    requires MergedSoFar(m1, m2, acc, {})
    ensures acc == MergeInto(Obj(m1), Obj(m2)).props
  {
    var want := MergeInto(Obj(m1), Obj(m2)).props;
    assert acc.Keys == want.Keys;
    forall p | p in acc ensures acc[p] == want[p] {
    }
  }

  /** Visiting property `p` of `o2` keeps the rules, with `p` visited. */
  lemma MergeStep(m1: map<string, Value>, m2: map<string, Value>, acc: map<string, Value>, todo: set<string>, p: string)
    requires p in todo && todo <= m2.Keys && MergedSoFar(m1, m2, acc, todo)
    ensures var next := if !Truthy(m2[p]) then acc
        else if p in acc && Truthy(acc[p]) then acc[p := NestedResult(acc[p], m2[p])]
        else acc[p := m2[p]];
      MergedSoFar(m1, m2, next, todo - {p})
  {
  }

  method DeepMerge(o1: Value, o2: Value) returns (merged: Value, r: Result<Value>)
    // different `typeof`: `o2` is returned and `o1` is left alone
    ensures TypeOf(o1) != TypeOf(o2) ==> merged == o1 && r == Ok(o2)
    // same `typeof`, not "object": `o2` is returned
    ensures TypeOf(o1) == TypeOf(o2) != "object" ==> merged == o1 && r == Ok(o2)
    // both "object": reading a property of `null` throws as soon as `o2` has a truthy one ...
    ensures TypeOf(o1) == TypeOf(o2) == "object" ==>
      (r.Err? <==> o1 == Null && HasTruthyProp(o2))
    ensures r.Err? ==> merged == o1 && r.error.kind == TypeError
    ensures r.Ok? ==> merged == MergeInto(o1, o2)
    // ... and otherwise the call returns `undefined`
    ensures TypeOf(o1) == TypeOf(o2) == "object" && r.Ok? ==> r.value == Undefined
    ensures o1 == Null || o2 == Null ==> merged == o1
    // two objects: a truthy property of `o2` that is missing or falsy in `o1` is copied
    ensures o1.Obj? && o2.Obj? ==>
      merged.Obj? &&
      (forall p :: p in o2.props && Truthy(o2.props[p]) && !(p in o1.props && Truthy(o1.props[p])) ==>
        p in merged.props && merged.props[p] == o2.props[p])
    // a property truthy on both sides takes the nested call's result (`undefined` for objects)
    ensures o1.Obj? && o2.Obj? ==>
      merged.Obj? &&
      (forall p :: p in o2.props && Truthy(o2.props[p]) && p in o1.props && Truthy(o1.props[p]) ==>
        p in merged.props && merged.props[p] == NestedResult(o1.props[p], o2.props[p]))
    // properties that are absent or falsy in `o2` are untouched
    ensures o1.Obj? && o2.Obj? ==>
      merged.Obj? &&
      (forall p :: !(p in o2.props && Truthy(o2.props[p])) ==>
        (p in merged.props <==> p in o1.props) && (p in o1.props ==> merged.props[p] == o1.props[p]))
    decreases o2, 1
  {
    if TypeOf(o1) != TypeOf(o2) {
      return o1, Ok(o2);
    }
    if TypeOf(o1) != "object" {
      return o1, Ok(o2);
    }
    if o2.Null? {
      // `for (let property in null)` visits nothing
      return o1, Ok(Undefined);
    }
    if o1.Null? {
      if exists p :: p in o2.props && Truthy(o2.props[p]) {
        return o1, Err(Fault(TypeError, "Cannot read property of null"));
      }
      return o1, Ok(Undefined);
    }
    var acc := MergeProps(o1.props, o2.props);
    MergedMap(o1.props, o2.props, acc);
    return Obj(acc), Ok(Undefined);
  }

  /** The `for (let property in o2)` loop over two objects: each truthy property of `o2` is
      merged into the properties of `o1`, in any order. */
  method MergeProps(m1: map<string, Value>, m2: map<string, Value>) returns (acc: map<string, Value>)
    ensures MergedSoFar(m1, m2, acc, {})
    decreases Obj(m2), 0
  {
    acc := m1;
    var todo := m2.Keys;
    while todo != {}
      invariant todo <= m2.Keys
      invariant MergedSoFar(m1, m2, acc, todo)
      decreases |todo|
    {
      var p :| p in todo;
      MergeStep(m1, m2, acc, todo, p);
      if Truthy(m2[p]) {
        if p in acc && Truthy(acc[p]) {
          var _, nested := DeepMerge(acc[p], m2[p]);
          acc := acc[p := nested.value];
        } else {
          acc := acc[p := m2[p]];
        }
      }
      todo := todo - {p};
    }
  }
}
