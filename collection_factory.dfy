/** `CollectionFactory` (webscale-collection/src/factory/collection.factory.ts): the registry of
    collections by name, option defaults and parent resolution. */
module CollectionFactories {
  import opened Wrappers
  import opened Datasource
  import opened Collections

  /** `options.parent`: absent, a collection name, or a `Collection` instance. */
  datatype ParentRef = NoParent | ParentName(parentName: string) | ParentInstance(instance: Collection)

  /** `CollectionOptions`; `children` lists the entries of the children object in order. */
  datatype CollectionOptions = CollectionOptions(singularName: Option<string>, version: Option<string>, schema: Option<Schema>,
                                                 readonly: bool, basePath: Option<string>, parent: ParentRef,
                                                 children: seq<ChildOptions>)

  datatype ChildOptions = ChildOptions(name: string, options: CollectionOptions)

  /** What `collection()` settles before it constructs a collection. */
  datatype Setup = Setup(parent: Collection?, name: string, singularName: string, version: string, basePath: string)

  /** `notEmpty(field, value, defaultValue)`: undefined, null and "" fall back to a truthy
      default, or fail. */
  function NotEmpty(field: string, value: Option<string>, default: Option<string>): (r: Result<string>)
    ensures r.Ok? ==> r.value != ""
    ensures value.Some? && value.value != "" ==> r == Ok(value.value)
    ensures (value.None? || value.value == "") ==>
      r == if default.Some? && default.value != "" then Ok(default.value) else Err(Fault(PlainError, field + " is missing or empty"))
  {
    if value.None? || value.value == "" then
      if default.Some? && default.value != "" then Ok(default.value) else Err(Fault(PlainError, field + " is missing or empty"))
    else Ok(value.value)
  }

  /** The parent `collection()` resolves: only a non-empty name is looked up; an instance is
      not used. */
  function ResolveParent(registry: map<string, Collection>, parent: ParentRef): (r: Result<Collection?>)
    ensures r.Ok? && r.value != null ==> r.value in registry.Values
  {
    match parent
    case ParentName(p) =>
      if p == "" then Ok(null)
      else if p in registry then Ok(registry[p])
      else Err(Fault(PlainError, "Unknown parent collection: '" + p + "'"))
    case _ => Ok(null)
  }

  /** The checks and defaults of `collection()` for a name not registered yet, in order. */
  function Resolve(registry: map<string, Collection>, factoryBasePath: string, name: string, options: CollectionOptions): Result<Setup>
  {
    var parent := ResolveParent(registry, options.parent);
    if parent.Err? then Err(parent.error)
    else
      var n := NotEmpty("name", Some(name), None);
      if n.Err? then Err(n.error)
      else
        var singular := NotEmpty("singularName", options.singularName, None);
        if singular.Err? then Err(singular.error)
        else
          var version := NotEmpty("version", options.version, Some("v1"));
          var base := if options.basePath.Some? && options.basePath.value != "" then options.basePath else Some(factoryBasePath);
          var basePath := NotEmpty("basePath", base, Some("/api"));
          assert version.Ok? && basePath.Ok?;
          Ok(Setup(parent.value, n.value, singular.value, version.value, basePath.value))
  }

  /** The defaults: version "v1"; basePath the option, else the factory's, else "/api"; and
      the errors in the order they are checked. */
  lemma ResolveDefaults(registry: map<string, Collection>, factoryBasePath: string, name: string, options: CollectionOptions)
    ensures var r := Resolve(registry, factoryBasePath, name, options);
      (r.Ok? <==> ResolveParent(registry, options.parent).Ok? && name != "" &&
                  options.singularName.Some? && options.singularName.value != "") &&
      (ResolveParent(registry, options.parent).Err? ==> r == Err(ResolveParent(registry, options.parent).error)) &&
      (r.Ok? ==>
        r.value.version == (if options.version.Some? && options.version.value != "" then options.version.value else "v1") &&
        r.value.basePath == (if options.basePath.Some? && options.basePath.value != "" then options.basePath.value
                             else if factoryBasePath != "" then factoryBasePath else "/api"))
  {
  }

  /** A parent given by name must be registered; one given as an instance is dropped. */
  lemma ParentResolution(registry: map<string, Collection>, parent: ParentRef)
    ensures parent.ParentName? && parent.parentName != "" && parent.parentName !in registry ==>
      ResolveParent(registry, parent) == Err(Fault(PlainError, "Unknown parent collection: '" + parent.parentName + "'"))
    ensures parent.ParentName? && parent.parentName != "" && parent.parentName in registry ==> ResolveParent(registry, parent) == Ok(registry[parent.parentName])
    ensures parent.ParentInstance? ==> ResolveParent(registry, parent) == Ok(null)
  {
  }

  /** The collection `collection()` constructs from a setup. */
  predicate BuiltFrom(c: Collection, setup: Setup, options: CollectionOptions)
  {
    c.name == setup.name && c.singularName == setup.singularName && c.version == setup.version &&
    c.basePath == setup.basePath && c.readonly == options.readonly && c.parent == setup.parent &&
    c.primaryFields == [setup.singularName + "Id"] &&
    c.parentPrimaryFields == (if setup.parent == null then [] else setup.parent.IdFields())
  }

  /** The state `new Collection(...)` leaves the collection in: its schema prepared from the
      options' schema (`{}` when there is none) for its id fields, its validator compiled from
      that schema, and no events yet. */
  ghost predicate Prepared(c: Collection, options: CollectionOptions, compile: Schema -> (Item -> bool))
    reads c
  {
    PreparedFrom(options.schema.GetOr(Schema(map[], None, None)), c.singularName, c.IdFields(), c.schema) &&
    c.validator == compile(c.schema) && c.events == []
  }

  /** What creating collections does to the collections in `registered`: their events stay
      (their schemas are fixed at construction). */
  twostate predicate Kept(registered: set<Collection>)
    reads registered
  {
    forall c :: c in registered ==>
      c.events == old(c.events)
  }

  /** How the creation of `child` failed, given the registry `before` its `collection()` call
      and the registry `after` the loop stopped: the name was new; either its setup did not
      resolve, with that error and nothing registered under it, or it was registered and the
      error came from its own children. */
  ghost predicate ChildFailed(child: ChildOptions, before: map<string, Collection>, after: map<string, Collection>,
                              factoryBasePath: string, e: Fault)
  {
    child.name !in before &&
    var setup := Resolve(before, factoryBasePath, child.name, child.options);
    (setup.Err? ==> e == setup.error && child.name !in after) &&
    (setup.Ok? ==> child.name in after)
  }

  /** Every child listed in the options is registered. */
  ghost predicate ChildrenRegistered(children: seq<ChildOptions>, registry: map<string, Collection>)
  {
    forall k :: 0 <= k < |children| ==> children[k].name in registry
  }

  /** `new Collection(...)` for a resolved setup: the id field is the singular name plus "Id",
      and the parent's id fields come first. */
  method Build(setup: Setup, options: CollectionOptions, compile: Schema -> (Item -> bool)) returns (c: Collection)
    requires setup.parent != null ==> setup.parent.Chained()
    modifies ({setup.parent} - {null})`children
    ensures fresh(c) && BuiltFrom(c, setup, options) && c.Chained()
    ensures Prepared(c, options, compile) && c.children == []
    ensures setup.parent != null ==>
      setup.parent.children == old(setup.parent.children) + [c] && setup.parent.events == old(setup.parent.events)
  {
    var parent := setup.parent;
    var parentIdFields := if parent == null then [] else parent.IdFields();
    c := new Collections.Collection(setup.name, setup.singularName, setup.version, setup.basePath,
                                    options.schema, options.readonly, [setup.singularName + "Id"], parentIdFields, parent, compile);
  }

  class CollectionFactory {
    const basePath: string
    /** Ajv's `compile`. */
    const compile: Schema -> (Item -> bool)
    var collections: map<string, Collection>
    /** The names in the order they were registered: the for-in order of `collections`. */
    var order: seq<string>
    /** The registered collections, whose `children` registration may extend. */
    ghost var Repr: set<Collection>

    ghost predicate Valid()
      reads this
    {
      (forall i :: 0 <= i < |order| ==> order[i] in collections) &&
      (forall k :: k in collections ==> k in order) &&
      (forall i, j :: 0 <= i < j < |order| ==> order[i] != order[j]) &&
      (forall k :: k in collections ==> collections[k] in Repr && collections[k].Chained())
    }

    constructor (basePath: string, compile: Schema -> (Item -> bool))
      ensures this.basePath == basePath && this.compile == compile
      ensures collections == map[] && order == [] && Repr == {} && Valid()
    {
      this.basePath := basePath;
      this.compile := compile;
      collections := map[];
      order := [];
      Repr := {};
    }

    /** `getCollection(name)`. */
    function GetCollection(name: string): (r: Option<Collection>)
      reads this
      ensures r.Some? <==> name in collections
      ensures r.Some? ==> r.value == collections[name]
    {
      if name in collections then Some(collections[name]) else None
    }

    /** `getCollections()`: the registered collections in registration order. */
    method GetCollections() returns (list: seq<Collection>)
      requires Valid()
      ensures |list| == |order| && forall i :: 0 <= i < |order| ==> list[i] == collections[order[i]]
      ensures forall k :: k in collections ==> collections[k] in list
    {
      list := [];
      var i := 0;
      while i < |order|
        invariant 0 <= i <= |order|
        invariant |list| == i && forall j :: 0 <= j < i ==> list[j] == collections[order[j]]
      {
        list := list + [collections[order[i]]];
        i := i + 1;
      }
      assert forall k :: k in collections ==> exists j :: 0 <= j < |order| && order[j] == k;
    }

    /** `collection(name, options)`: an existing name returns its collection whatever the
        options; a new name without options fails reading `options.parent`. */
    method Collection(collectionName: string, options: Option<CollectionOptions>) returns (r: Result<Collection>)
      requires Valid()
      modifies this, Repr`children
      ensures Valid()
      ensures forall k :: k in old(collections) ==> k in collections && collections[k] == old(collections)[k]
      ensures old(order) <= order
      ensures old(Repr) <= Repr && fresh(Repr - old(Repr))
      ensures Kept(old(Repr))
      ensures collectionName in old(collections) ==>
        r == Ok(old(collections)[collectionName]) && collections == old(collections) && order == old(order)
      ensures collectionName !in old(collections) && options.None? ==>
        r == Err(Fault(TypeError, "Cannot read property 'parent' of undefined")) &&
        collections == old(collections) && order == old(order)
      ensures options.Some? ==> Created(collectionName, options.value, r)
    {
      if options.Some? {
        r := CollectionWith(collectionName, options.value);
      } else if collectionName in collections {
        r := Ok(collections[collectionName]);
      } else {
        r := Err(Fault(TypeError, "Cannot read property 'parent' of undefined"));
      }
    }

    /** What `collection(name, options)` with options leaves behind: the existing collection,
        or the resolution error with nothing registered, or the new collection registered next
        in order and built from the resolved setup. */
    twostate predicate Created(collectionName: string, options: CollectionOptions, new r: Result<Collection>)
      reads *
    {
      (collectionName in old(collections) ==>
        r == Ok(old(collections)[collectionName]) && collections == old(collections) && order == old(order)) &&
      (collectionName !in old(collections) ==>
        var setup := Resolve(old(collections), basePath, collectionName, options);
        (setup.Err? ==> r == Err(setup.error) && collections == old(collections) && order == old(order)) &&
        (setup.Ok? ==>
          |order| > |old(order)| && order[|old(order)|] == collectionName && collectionName in collections &&
          fresh(collections[collectionName]) && BuiltFrom(collections[collectionName], setup.value, options) &&
          Prepared(collections[collectionName], options, compile) &&
          (r.Ok? ==> r.value == collections[collectionName] && ChildrenRegistered(options.children, collections)) &&
          (r.Err? ==>
             exists k :: 0 <= k < |options.children| &&
               ChildrenRegistered(options.children[..k], collections) && options.children[k].name !in old(collections))))
    }

    /** `collection(name, options)` with options: the collection is constructed and registered,
        then its children are created in order; a child's error propagates with the collections
        created so far left registered. */
    method CollectionWith(collectionName: string, options: CollectionOptions) returns (r: Result<Collection>)
      requires Valid()
      modifies this, Repr`children
      decreases options, 3
      ensures Valid()
      ensures forall k :: k in old(collections) ==> k in collections && collections[k] == old(collections)[k]
      ensures old(order) <= order
      ensures old(Repr) <= Repr && fresh(Repr - old(Repr))
      ensures Kept(old(Repr))
      ensures Created(collectionName, options, r)
    {
      var existing := GetCollection(collectionName);
      if existing.Some? {
        return Ok(existing.value);
      }
      var setup := Resolve(collections, basePath, collectionName, options);
      if setup.Err? {
        return Err(setup.error);
      }
      ghost var failedAt, before;
      r, failedAt, before := CreateNew(collectionName, setup.value, options);
    }

    /** A name not registered yet, with its setup resolved: register, then the children. */
    method CreateNew(collectionName: string, setup: Setup, options: CollectionOptions)
      returns (r: Result<Collection>, ghost failedAt: nat, ghost before: map<string, Collection>)
      requires Valid() && collectionName !in collections
      requires setup.parent != null ==> setup.parent in collections.Values
      modifies this, Repr`children
      decreases options, 2
      ensures Valid()
      ensures forall k :: k in old(collections) ==> k in collections && collections[k] == old(collections)[k]
      ensures old(order) <= order
      ensures old(Repr) <= Repr && fresh(Repr - old(Repr))
      ensures |order| > |old(order)| && order[|old(order)|] == collectionName && collectionName in collections
      ensures fresh(collections[collectionName]) && BuiltFrom(collections[collectionName], setup, options)
      ensures Prepared(collections[collectionName], options, compile)
      ensures Kept(old(Repr))
      ensures r.Ok? ==> r.value == collections[collectionName] && ChildrenRegistered(options.children, collections)
      ensures r.Err? ==>
        failedAt < |options.children| && ChildrenRegistered(options.children[..failedAt], collections) &&
        ChildFailed(options.children[failedAt], before, collections, basePath, r.error) &&
        forall k :: k in old(collections) ==> k in before && before[k] == old(collections)[k]
    {
      var collection := Register(collectionName, setup, options);
      ghost var registered := Repr;
      var failure;
      failure, failedAt, before := CreateChildren(options);
      assert collections[collectionName] == collection;
      assert Repr - old(Repr) == (Repr - registered) + {collection};
      assert fresh(Repr - old(Repr)) by {
        assert fresh(Repr - registered) && fresh(collection);
      }
      forall c | c in old(Repr)
        ensures c.events == old(c.events)
      {
        assert c in registered;
      }
      r := if failure.Some? then Err(failure.value) else Ok(collection);
    }

    /** Constructs the collection of a resolved setup and registers it under its name. */
    method Register(collectionName: string, setup: Setup, options: CollectionOptions) returns (collection: Collection)
      requires Valid() && collectionName !in collections
      requires setup.parent != null ==> setup.parent in collections.Values
      modifies this, ({setup.parent} - {null})`children
      ensures Valid() && fresh(collection) && BuiltFrom(collection, setup, options)
      ensures Prepared(collection, options, compile) && collection.children == []
      ensures collections == old(collections)[collectionName := collection] && order == old(order) + [collectionName]
      ensures Repr == old(Repr) + {collection}
      ensures Kept(old(Repr))
      ensures setup.parent != null ==> setup.parent.children == old(setup.parent.children) + [collection]
    {
      assert forall i :: 0 <= i < |order| ==> order[i] != collectionName;
      assert setup.parent != null ==> setup.parent in Repr && setup.parent.Chained() by {
        if setup.parent != null {
          var k :| k in collections && collections[k] == setup.parent;
        }
      }
      collection := Build(setup, options, compile);
      collections := collections[collectionName := collection];
      order := order + [collectionName];
      Repr := Repr + {collection};
    }

    /** The loop over `options.children`: each child is created in order; the first error stops
        the loop. */
    method CreateChildren(options: CollectionOptions)
      returns (failure: Option<Fault>, ghost failedAt: nat, ghost before: map<string, Collection>)
      requires Valid()
      modifies this, Repr`children
      decreases options, 1
      ensures Valid()
      ensures forall k :: k in old(collections) ==> k in collections && collections[k] == old(collections)[k]
      ensures old(order) <= order
      ensures old(Repr) <= Repr && fresh(Repr - old(Repr))
      ensures Kept(old(Repr))
      ensures failure.None? ==> ChildrenRegistered(options.children, collections)
      ensures failure.Some? ==>
        failedAt < |options.children| && ChildrenRegistered(options.children[..failedAt], collections) &&
        ChildFailed(options.children[failedAt], before, collections, basePath, failure.value) &&
        forall k :: k in old(collections) ==> k in before && before[k] == old(collections)[k]
    {
      failedAt, before := 0, collections;
      var i := 0;
      while i < |options.children|
        invariant 0 <= i <= |options.children|
        invariant Valid()
        invariant forall k :: k in old(collections) ==> k in collections && collections[k] == old(collections)[k]
        invariant old(order) <= order
        invariant old(Repr) <= Repr && fresh(Repr - old(Repr))
        invariant Kept(old(Repr))
        invariant ChildrenRegistered(options.children[..i], collections)
      {
        ghost var registry := collections;
        failure := CreateChild(options, i);
        if failure.Some? {
          return failure, i, registry;
        }
        assert options.children[..i + 1] == options.children[..i] + [options.children[i]];
        i := i + 1;
      }
      assert options.children[..i] == options.children;
      return None, 0, collections;
    }

    /** One turn of the children loop: `collection(child.name, child.options)`. */
    method CreateChild(options: CollectionOptions, i: nat) returns (failure: Option<Fault>)
      requires Valid() && i < |options.children|
      modifies this, Repr`children
      decreases options, 0
      ensures Valid()
      ensures forall k :: k in old(collections) ==> k in collections && collections[k] == old(collections)[k]
      ensures old(order) <= order
      ensures old(Repr) <= Repr && fresh(Repr - old(Repr))
      ensures Kept(old(Repr))
      ensures failure.None? ==> options.children[i].name in collections
      ensures failure.Some? ==> ChildFailed(options.children[i], old(collections), collections, basePath, failure.value)
    {
      var child := options.children[i];
      assert child in options.children;
      var created := CollectionWith(child.name, child.options);
      failure := if created.Err? then Some(created.error) else None;
    }
  }
}
