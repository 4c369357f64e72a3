/** `Config` (webscale-core/src/config/config.ts): a list of property sources merged once into
    one object, and nested property lookup on the result. A property source is represented by
    the value its `load()` resolves to; `None` stands for a falsy entry of the list. */
module Config {
  import opened Wrappers
  import opened JsValues
  import opened Strings
  import ObjectUtils

  /** `property.split("\\.")` splits on the two characters backslash and dot, not on ".". */
  const Separator: string := "\\."

  /** The walk of `getFromObject`: `undefined` at the first falsy scope, otherwise one
      property access per segment. */
  function Walk(scope: Value, segments: seq<string>): Value
    decreases |segments|
  {
    if segments == [] then scope
    else if !Truthy(scope) then Undefined
    else Walk(Prop(scope, segments[0]), segments[1..])
  }

  function Lookup(obj: Value, property: string): Value
  {
    Walk(obj, Split(property, Separator))
  }

  /** `getFromObject(object, property)`. */
  method GetFromObject(obj: Value, property: string) returns (r: Value)
    ensures r == Lookup(obj, property)
  {
    var segments := Split(property, Separator);
    var scope := obj;
    var i := 0;
    while i < |segments|
      invariant 0 <= i <= |segments|
      invariant Walk(scope, segments[i..]) == Walk(obj, segments)
    {
      if !Truthy(scope) {
        return Undefined;
      }
      assert segments[i..][1..] == segments[i + 1..];
      scope := Prop(scope, segments[i]);
      i := i + 1;
    }
    return scope;
  }

  /** Walking two lists of segments one after the other is walking their concatenation. */
  lemma {:induction false} WalkAppend(v: Value, a: seq<string>, b: seq<string>)
    ensures Walk(v, a + b) == Walk(Walk(v, a), b)
    decreases |a|
  {
    if a == [] {
      assert a + b == b;
    } else if !Truthy(v) {
      assert Walk(Undefined, b) == Undefined;
    } else {
      assert (a + b)[1..] == a[1..] + b;
      WalkAppend(Prop(v, a[0]), a[1..], b);
    }
  }

  /** A property without a backslash, such as "server.port", is one key: the lookup never
      descends into nested objects. */
  lemma NoBackslashIsOneKey(obj: Value, property: string)
    requires forall i :: 0 <= i < |property| ==> property[i] != '\\'
    ensures Lookup(obj, property) == if Truthy(obj) then Prop(obj, property) else Undefined
  {
    forall i | 0 <= i && i + |Separator| <= |property|
      ensures property[i..][..|Separator|] != Separator
    {
      assert property[i..][..|Separator|][0] == property[i];
    }
    assert !Occurs(Separator, property);
    SplitWithoutSeparator(property, Separator);
    assert Split(property, Separator) == [property];
    assert [property][1..] == [];
    assert Walk(obj, [property]) == if Truthy(obj) then Walk(Prop(obj, property), []) else Undefined;
  }

  /** So a nested value cannot be reached with a dotted path. */
  lemma DottedPathMissesNestedValue()
    ensures Lookup(Obj(map["server" := Obj(map["port" := Num(80)])]), "server.port") == Undefined
  {
    NoBackslashIsOneKey(Obj(map["server" := Obj(map["port" := Num(80)])]), "server.port");
  }

  /** The sources merged in list order into `acc`, skipping falsy entries. */
  function MergeAll(acc: Value, sources: seq<Option<Value>>): Value
    decreases |sources|
  {
    if sources == [] then acc
    else MergeAll(if sources[0].Some? then ObjectUtils.MergeInto(acc, sources[0].value) else acc, sources[1..])
  }

  lemma {:induction false} MergeAllSnoc(acc: Value, sources: seq<Option<Value>>, last: Option<Value>)
    ensures MergeAll(acc, sources + [last]) ==
      var before := MergeAll(acc, sources);
      if last.Some? then ObjectUtils.MergeInto(before, last.value) else before
    decreases |sources|
  {
    if sources == [] {
      assert MergeAll(acc, [last]) == MergeAll(if last.Some? then ObjectUtils.MergeInto(acc, last.value) else acc, []);
    } else {
      assert (sources + [last])[1..] == sources[1..] + [last];
      MergeAllSnoc(if sources[0].Some? then ObjectUtils.MergeInto(acc, sources[0].value) else acc, sources[1..], last);
    }
  }

  /** Merging into an object always gives an object, so a loaded configuration is truthy. */
  lemma {:induction false} MergeAllIsObject(acc: Value, sources: seq<Option<Value>>)
    requires acc.Obj?
    ensures MergeAll(acc, sources).Obj?
    decreases |sources|
  {
    if sources != [] {
      MergeAllIsObject(if sources[0].Some? then ObjectUtils.MergeInto(acc, sources[0].value) else acc, sources[1..]);
    }
  }

  /** A truthy non-object property of the last source wins over every earlier source. */
  lemma LastSourceWins(sources: seq<Option<Value>>, m: map<string, Value>, p: string)
    requires p in m && Truthy(m[p]) && !m[p].Obj?
    ensures var merged := MergeAll(Obj(map[]), sources + [Some(Obj(m))]);
      merged.Obj? && p in merged.props && merged.props[p] == m[p]
  {
    MergeAllSnoc(Obj(map[]), sources, Some(Obj(m)));
    MergeAllIsObject(Obj(map[]), sources);
  }

  /** A section that two sources both define as an object is lost: it becomes `undefined`. */
  lemma NestedSectionIsLost(sources: seq<Option<Value>>, m: map<string, Value>, p: string)
    requires p in m && m[p].Obj?
    requires var before := MergeAll(Obj(map[]), sources);
      before.Obj? && p in before.props && before.props[p].Obj?
    ensures var merged := MergeAll(Obj(map[]), sources + [Some(Obj(m))]);
      merged.Obj? && p in merged.props && merged.props[p] == Undefined
  {
    MergeAllSnoc(Obj(map[]), sources, Some(Obj(m)));
  }

  /** `Config.instance`, the static slot the constructor fills. */
  class Registry {
    var instance: Config?

    constructor()
      ensures instance == null
    {
      instance := null;
    }

    /** Static `Config.get(property, defaultValue)`; `Undefined` stands for an absent default. */
    method Get(property: string, defaultValue: Value) returns (r: Result<Value>)
      ensures instance == null ==> r == Err(Fault(PlainError, "Config is not initialized"))
      ensures instance != null ==>
        var found := Lookup(instance.source, property);
        r == Ok(if Truthy(found) then found else defaultValue)
    {
      if instance == null {
        return Err(Fault(PlainError, "Config is not initialized"));
      }
      var v := instance.Get(property, defaultValue);
      return Ok(v);
    }
  }

  class Config {
    const propertySources: seq<Option<Value>>
    /** `__source`: `Undefined` until `load` has run. */
    var source: Value

    constructor(registry: Registry, propertySources: seq<Option<Value>>)
      modifies registry
      ensures registry.instance == this
      ensures this.propertySources == propertySources && source == Undefined
    {
      this.propertySources := propertySources;
      source := Undefined;
      new;
      registry.instance := this;
    }

    /** `config.get(property, defaultValue)`: a falsy lookup becomes the default, and
        `undefined` when there is none. */
    method Get(property: string, defaultValue: Value) returns (r: Value)
      ensures var found := Lookup(source, property);
        r == if Truthy(found) then found else defaultValue
    {
      r := GetFromObject(source, property);
      if !Truthy(r) {
        r := Undefined;
      }
      if r == Undefined && defaultValue != Undefined {
        r := defaultValue;
      }
    }

    /** `load()`: runs once; merges every source in list order into a fresh object. */
    method Load() returns (r: Result<()>)
      modifies this
      ensures Truthy(old(source)) ==>
        r == Err(Fault(PlainError, "Config already loaded")) && source == old(source)
      ensures !Truthy(old(source)) ==> r == Ok(()) && source == MergeAll(Obj(map[]), propertySources)
      ensures r.Ok? ==> source.Obj?
    {
      if Truthy(source) {
        return Err(Fault(PlainError, "Config already loaded"));
      }
      var combined := Obj(map[]);
      var i := 0;
      while i < |propertySources|
        invariant 0 <= i <= |propertySources|
        invariant combined.Obj?
        invariant MergeAll(combined, propertySources[i..]) == MergeAll(Obj(map[]), propertySources)
      {
        assert propertySources[i..][1..] == propertySources[i + 1..];
        var entry := propertySources[i];
        if entry.Some? {
          var merged, _ := ObjectUtils.DeepMerge(combined, entry.value);
          combined := merged;
        }
        i := i + 1;
      }
      source := combined;
      return Ok(());
    }
  }
}
