/** `Collection` (webscale-collection/src/collection.ts): key helpers, schema preparation, the
    include lookup, and the item operations over an in-memory connection. The connection a
    collection resolves from its context is passed in as `conn`; Ajv's `compile` is a
    function from the prepared schema to the validator. */
module Collections {
  import opened Wrappers
  import opened Strings
  import opened Datasource
  import opened KeyValue
  import opened InMemory

  /** `CollectionEventType` and `CollectionEvent`: `ids` has one entry per id field, `None`
      where the filter lacks it. */
  datatype CollectionEvent = CollectionEvent(kind: EventType, collection: string, name: string,
                                             ids: map<string, Option<string>>, before: Option<Item>, after: Option<Item>)

  /** `Search`: the query and the names of child collections to include. */
  datatype Search = Search(query: Option<Item>, includes: Option<seq<string>>)

  /** The keywords of a JSON schema that `prepareSchema` touches: plain string keywords, the
      `required` list and the sub-schemas of `properties` (each a map of string keywords). */
  datatype Schema = Schema(keywords: map<string, string>, required: Option<seq<string>>,
                           properties: Option<map<string, map<string, string>>>)

  const Draft07 := "http://json-schema.org/draft-07/schema#"

  const NoSearch := Fault(BadRequestError, "no Search is provided")

  /** `filter[field]`, `None` when undefined. */
  function FieldValue(filter: Item, field: string): Option<string>
  {
    if field in filter then Some(filter[field]) else None
  }

  /** The properties `prepareSchema` promises: `$async` dropped, the basic keywords set, every
      id field required once without disturbing what was required, and each id property a
      string titled by its field. */
  ghost predicate PreparedFrom(schema: Schema, singularName: string, idFields: seq<string>, prepared: Schema)
  {
    var req := schema.required.GetOr([]);
    var props := schema.properties.GetOr(map[]);
    prepared.keywords == (schema.keywords - {"$async"})["$schema" := Draft07]["$id" := singularName]["title" := singularName]["type" := "object"] &&
    prepared.required.Some? && prepared.properties.Some? &&
    var req' := prepared.required.value;
    var props' := prepared.properties.value;
    req <= req' &&
    (forall i :: |req| <= i < |req'| ==> req'[i] in idFields && req'[i] !in req) &&
    (forall f :: multiset(req')[f] == if f in idFields && f !in req then 1 else multiset(req)[f]) &&
    props'.Keys == props.Keys + (set f | f in idFields) &&
    (forall f :: f in idFields ==>
      props'[f] == (if f in props then props[f] else map[])["$id" := "#/properties/" + f]["type" := "string"]["title" := f]) &&
    (forall k :: k in props && k !in idFields ==> props'[k] == props[k])
  }

  /** The first pass of `prepareSchema`: each id field not yet required is pushed. */
  method RequireFields(req: seq<string>, idFields: seq<string>) returns (required: seq<string>)
    ensures req <= required
    ensures forall i :: |req| <= i < |required| ==> required[i] in idFields && required[i] !in req
    ensures forall f :: multiset(required)[f] == if f in idFields && f !in req then 1 else multiset(req)[f]
  {
    required := req;
    var i := 0;
    while i < |idFields|
      invariant 0 <= i <= |idFields|
      invariant req <= required
      invariant forall j :: |req| <= j < |required| ==> required[j] in idFields[..i] && required[j] !in req
      invariant forall f :: multiset(required)[f] == if f in idFields[..i] && f !in req then 1 else multiset(req)[f]
    {
      var field := idFields[i];
      assert idFields[..i + 1] == idFields[..i] + [field];
      if field !in required {
        required := required + [field];
      }
      i := i + 1;
    }
    assert idFields[..i] == idFields;
  }

  /** An id property as the second pass of `prepareSchema` leaves it: a string titled by its
      field, keeping its other keywords. */
  function Titled(sub: map<string, string>, field: string): map<string, string>
  {
    sub["$id" := "#/properties/" + field]["type" := "string"]["title" := field]
  }

  /** The properties once the fields in `done` have been described. */
  ghost predicate DescribedUpTo(props: map<string, map<string, string>>, done: seq<string>, properties: map<string, map<string, string>>)
  {
    properties.Keys == props.Keys + (set f | f in done) &&
    (forall f :: f in done ==> properties[f] == Titled(if f in props then props[f] else map[], f)) &&
    (forall k :: k in props && k !in done ==> properties[k] == props[k])
  }

  /** Describing field `i` extends what is described by it. */
  lemma DescribeStep(props: map<string, map<string, string>>, idFields: seq<string>, i: nat, properties: map<string, map<string, string>>)
    requires i < |idFields| && DescribedUpTo(props, idFields[..i], properties)
    ensures var field := idFields[i];
      var sub := if field in properties then properties[field] else map[];
      DescribedUpTo(props, idFields[..i + 1], properties[field := Titled(sub, field)])
  {
    var field := idFields[i];
    var done := idFields[..i];
    var base := if field in props then props[field] else map[];
    var sub := if field in properties then properties[field] else map[];
    assert idFields[..i + 1] == done + [field];
    assert Titled(sub, field) == Titled(base, field) by {
      if field in done {
        TitledTwice(base, field);
      }
    }
    var next := properties[field := Titled(sub, field)];
    var done' := done + [field];
    assert next.Keys == props.Keys + (set f | f in done') by {
      assert (set f | f in done') == (set f | f in done) + {field};
    }
    forall f | f in done' ensures next[f] == Titled(if f in props then props[f] else map[], f) {
      if f != field {
        assert f in done;
      }
    }
    assert forall k :: k in props && k !in done' ==> next[k] == props[k];
  }

  /** Describing a property twice describes it once. */
  lemma TitledTwice(sub: map<string, string>, field: string)
    ensures Titled(Titled(sub, field), field) == Titled(sub, field)
  {
  }

  /** The second pass of `prepareSchema`: each id property becomes a string titled by its
      field, keeping its other keywords. */
  method DescribeFields(props: map<string, map<string, string>>, idFields: seq<string>) returns (properties: map<string, map<string, string>>)
    ensures properties.Keys == props.Keys + (set f | f in idFields)
    ensures forall f :: f in idFields ==>
      properties[f] == (if f in props then props[f] else map[])["$id" := "#/properties/" + f]["type" := "string"]["title" := f]
    ensures forall k :: k in props && k !in idFields ==> properties[k] == props[k]
  {
    properties := props;
    var i := 0;
    assert idFields[..0] == [];
    while i < |idFields|
      invariant 0 <= i <= |idFields|
      invariant DescribedUpTo(props, idFields[..i], properties)
    {
      var field := idFields[i];
      DescribeStep(props, idFields, i, properties);
      var sub := if field in properties then properties[field] else map[];
      properties := properties[field := sub["$id" := "#/properties/" + field]["type" := "string"]["title" := field]];
      i := i + 1;
    }
    assert idFields[..i] == idFields;
  }

  /** `prepareSchema(schema)`. */
  method PrepareSchema(schema: Schema, singularName: string, idFields: seq<string>) returns (prepared: Schema)
    ensures PreparedFrom(schema, singularName, idFields, prepared)
  {
    var keywords := (schema.keywords - {"$async"})["$schema" := Draft07]["$id" := singularName]["title" := singularName]["type" := "object"];
    var required := RequireFields(schema.required.GetOr([]), idFields);
    var properties := DescribeFields(schema.properties.GetOr(map[]), idFields);
    prepared := Schema(keywords, Some(required), Some(properties));
  }

  /** The object `getIds` fills in order: one entry per field. */
  function IdsOf(fields: seq<string>, filter: Item): (ids: map<string, Option<string>>)
    ensures ids.Keys == set f | f in fields
    ensures forall f :: f in ids ==> ids[f] == FieldValue(filter, f)
    decreases |fields|
  {
    if fields == [] then map[]
    else
      var rest := IdsOf(fields[..|fields| - 1], filter);
      assert forall f :: f in fields <==> f in fields[..|fields| - 1] || f == fields[|fields| - 1];
      rest[fields[|fields| - 1] := FieldValue(filter, fields[|fields| - 1])]
  }

  /** The filter values of the fields, `undefined` rendered as "" the way `Array.join` does. */
  function NameParts(fields: seq<string>, filter: Item): (parts: seq<string>)
    ensures |parts| == |fields|
    ensures forall i :: 0 <= i < |fields| ==> parts[i] == FieldValue(filter, fields[i]).GetOr("")
    decreases |fields|
  {
    if fields == [] then [] else [FieldValue(filter, fields[0]).GetOr("")] + NameParts(fields[1..], filter)
  }

  /** The first child with the given name: `children.find`. */
  function FindChild(children: seq<Collection>, name: string): (r: Option<Collection>)
    ensures r.None? <==> forall i :: 0 <= i < |children| ==> children[i].name != name
    ensures r.Some? ==> exists i :: 0 <= i < |children| && children[i] == r.value && r.value.name == name &&
                                   forall j :: 0 <= j < i ==> children[j].name != name
    decreases |children|
  {
    if children == [] then None
    else if children[0].name == name then Some(children[0])
    else
      var r := FindChild(children[1..], name);
      assert forall i :: 1 <= i < |children| ==> children[i] == children[1..][i - 1];
      assert r.Some? ==> exists i :: 1 <= i < |children| && children[i] == r.value && r.value.name == name &&
                                     forall j :: 0 <= j < i ==> children[j].name != name by {
        if r.Some? {
          var k :| 0 <= k < |children[1..]| && children[1..][k] == r.value && r.value.name == name &&
            forall j :: 0 <= j < k ==> children[1..][j].name != name;
          assert children[k + 1] == r.value;
        }
      }
      r
  }

  /** The includes no child matches once lowercased, in order. */
  function UnknownIncludes(includes: seq<string>, children: seq<Collection>): (unknown: seq<string>)
    ensures |unknown| <= |includes|
    ensures |unknown| == 0 <==> forall i :: 0 <= i < |includes| ==> FindChild(children, ToLower(includes[i])).Some?
    ensures forall x :: x in unknown <==> x in includes && FindChild(children, ToLower(x)).None?
    decreases |includes|
  {
    if includes == [] then []
    else
      var rest := UnknownIncludes(includes[1..], children);
      assert forall i :: 1 <= i < |includes| ==> includes[i] == includes[1..][i - 1];
      if FindChild(children, ToLower(includes[0])).None? then [includes[0]] + rest else rest
  }

  /** The child matched by each include, in order. */
  function MatchedIncludes(includes: seq<string>, children: seq<Collection>): (matched: seq<Collection>)
    requires forall i :: 0 <= i < |includes| ==> FindChild(children, ToLower(includes[i])).Some?
    ensures |matched| == |includes|
    ensures forall i :: 0 <= i < |includes| ==> matched[i] == FindChild(children, ToLower(includes[i])).value
    decreases |includes|
  {
    if includes == [] then [] else [FindChild(children, ToLower(includes[0])).value] + MatchedIncludes(includes[1..], children)
  }

  /** `getItem` after the include lookup: the item at the item path, kept only when it agrees
      with every field of the query. */
  function FetchItem(key: CollectionKey, query: Item, s: Store, encode: string -> string): Result<Option<Item>>
  {
    var path := GetItemPath(key, query, encode);
    if path.Err? then Err(path.error)
    else
      var found := ItemAt(s, key.name, path.value);
      if found.Some? && AgreesOn(found.value, query) then Ok(found) else Ok(None)
  }

  /** An item is returned only when it is stored at its path and matches the query; a
      missing field is the error of `getItemPath`. */
  lemma FetchItemMeaning(key: CollectionKey, query: Item, s: Store, encode: string -> string)
    ensures var path := GetItemPath(key, query, encode);
      var r := FetchItem(key, query, s, encode);
      (r.Err? <==> path.Err?) &&
      (r.Err? ==> r.error.kind == BadRequestError) &&
      (r.Ok? && r.value.Some? ==>
        ItemAt(s, key.name, path.value) == r.value && forall f :: f in query ==> f in r.value.value && r.value.value[f] == query[f]) &&
      (r.Ok? && r.value.None? ==> ItemAt(s, key.name, path.value).None? || !AgreesOn(ItemAt(s, key.name, path.value).value, query))
  {
  }

  /** What `filter` keeps of the query: the values of the given fields that it has. */
  function Restrict(query: Item, fields: seq<string>): (r: Item)
    ensures forall f :: f in r <==> f in query && f in fields
    ensures forall f :: f in r ==> r[f] == query[f]
  {
    map f | f in query && f in fields :: query[f]
  }

  /** One step of `checkParentsExists`: `getItem` on the ancestor with the ancestor's id
      fields of the query. */
  method CheckParent(conn: InMemoryConnection, ancestor: Collection, query: Item) returns (failure: Option<Fault>)
    ensures failure == ParentFailure(ancestor, query, conn.collections, conn.encode)
  {
    var parentFilter := Restrict(query, ancestor.IdFields());
    var found := ancestor.GetItem(conn, Some(Search(Some(parentFilter), None)));
    if found.Err? {
      return Some(found.error);
    }
    if found.value.None? {
      return Some(Fault(NotFoundError, ancestor.singularName + " '" + ancestor.GetName(parentFilter) + "' not found"));
    }
    return None;
  }

  /** The loop of `checkParentsExists`: the ancestors in `chain` (nearest first) are walked
      from the root down, and the first failure met is returned. */
  method CheckChain(conn: InMemoryConnection, chain: seq<Collection>, query: Item) returns (r: Result<()>)
    ensures r == ParentsCheck(chain, query, conn.collections, conn.encode)
  {
    ghost var failures := ParentFailures(chain, query, conn.collections, conn.encode);
    var i := |chain|;
    assert failures[..i] == failures;
    while i > 0
      invariant 0 <= i <= |chain|
      invariant RootFirst(failures[..i]) == RootFirst(failures)
      decreases i
    {
      var failure := CheckParent(conn, chain[i - 1], query);
      assert failure == failures[i - 1];
      RootFirstStep(failures, i);
      if failure.Some? {
        return Err(failure.value);
      }
      i := i - 1;
    }
    assert failures[..0] == [];
    return Ok(());
  }

  /** Whether the check of one ancestor fails: the item is missing, or its path is. */
  function ParentFailure(a: Collection, query: Item, s: Store, encode: string -> string): Option<Fault>
  {
    var parentFilter := Restrict(query, a.IdFields());
    var found := FetchItem(a.Key(), parentFilter, s, encode);
    if found.Err? then Some(found.error)
    else if found.value.None? then Some(Fault(NotFoundError, a.singularName + " '" + a.GetName(parentFilter) + "' not found"))
    else None
  }

  /** The failures of a chain, nearest first, reported root-first: the failure of the last
      element that has one. */
  function RootFirst(failures: seq<Option<Fault>>): Result<()>
    decreases |failures|
  {
    if failures == [] then Ok(())
    else if failures[|failures| - 1].Some? then Err(failures[|failures| - 1].value)
    else RootFirst(failures[..|failures| - 1])
  }

  /** The report passes exactly when nothing fails, and otherwise names the failure nearest
      the end. */
  lemma {:induction false} RootFirstMeaning(failures: seq<Option<Fault>>)
    ensures RootFirst(failures).Ok? <==> forall i :: 0 <= i < |failures| ==> failures[i].None?
    ensures RootFirst(failures).Err? ==>
      exists i :: 0 <= i < |failures| && failures[i] == Some(RootFirst(failures).error) &&
                  forall j :: i < j < |failures| ==> failures[j].None?
    decreases |failures|
  {
    if failures == [] {
    } else if failures[|failures| - 1].Some? {
      var last := |failures| - 1;
      assert failures[last] == Some(RootFirst(failures).error);
    } else {
      var front := failures[..|failures| - 1];
      RootFirstMeaning(front);
      assert RootFirst(failures) == RootFirst(front);
      assert (forall i :: 0 <= i < |failures| ==> failures[i].None?) <==> (forall i :: 0 <= i < |front| ==> front[i].None?) by {
        assert forall i :: 0 <= i < |front| ==> front[i] == failures[i];
      }
      if RootFirst(front).Err? {
        var i :| 0 <= i < |front| && front[i] == Some(RootFirst(front).error) &&
                 forall j :: i < j < |front| ==> front[j].None?;
        assert front[i] == failures[i];
        assert forall j :: i < j < |failures| ==> failures[j].None? by {
          assert forall j :: i < j < |front| ==> front[j] == failures[j];
        }
      }
    }
  }

  /** One step of the report, taken from the end of a prefix. */
  lemma RootFirstStep(failures: seq<Option<Fault>>, i: nat)
    requires 0 < i <= |failures|
    ensures RootFirst(failures[..i]) == if failures[i - 1].Some? then Err(failures[i - 1].value) else RootFirst(failures[..i - 1])
  {
    assert failures[..i][..i - 1] == failures[..i - 1];
  }

  /** The outcome of checking each ancestor, nearest first. */
  function ParentFailures(chain: seq<Collection>, query: Item, s: Store, encode: string -> string): (failures: seq<Option<Fault>>)
    ensures |failures| == |chain|
    ensures forall i :: 0 <= i < |chain| ==> failures[i] == ParentFailure(chain[i], query, s, encode)
  {
    seq(|chain|, i requires 0 <= i < |chain| => ParentFailure(chain[i], query, s, encode))
  }

  /** `checkParentsExists`: the ancestors (nearest first in `chain`) are checked root-first;
      the first failure is thrown. */
  function ParentsCheck(chain: seq<Collection>, query: Item, s: Store, encode: string -> string): Result<()>
  {
    RootFirst(ParentFailures(chain, query, s, encode))
  }

  /** The check passes exactly when no ancestor fails; otherwise it reports the failure of
      the ancestor nearest the root among those that fail. */
  lemma ParentsCheckRootFirst(chain: seq<Collection>, query: Item, s: Store, encode: string -> string)
    ensures ParentsCheck(chain, query, s, encode).Ok? <==>
      forall i :: 0 <= i < |chain| ==> ParentFailure(chain[i], query, s, encode).None?
    ensures ParentsCheck(chain, query, s, encode).Err? ==>
      exists i :: 0 <= i < |chain| && ParentFailure(chain[i], query, s, encode) == Some(ParentsCheck(chain, query, s, encode).error) &&
                  forall j :: i < j < |chain| ==> ParentFailure(chain[j], query, s, encode).None?
  {
    RootFirstMeaning(ParentFailures(chain, query, s, encode));
  }

  /** `saveItem(item)` on the stores, the connection's events and the collection's events:
      the parents are checked, then the item validated, then what is stored at its path read,
      then the item saved. Only a save that succeeds is reported: UPDATED with what was there,
      else CREATED. */
  ghost function SaveItemState(c: Collection, s: Store, ds: seq<DatasourceEvent>, es: seq<CollectionEvent>, item: Item, encode: string -> string)
    : (Store, seq<DatasourceEvent>, seq<CollectionEvent>, Result<Item>)
    requires |c.primaryFields| > 0
  {
    var check := ParentsCheck(c.ancestors, item, s, encode);
    if check.Err? then (s, ds, es, Err(check.error))
    else if !c.validator(item) then (s, ds, es, Err(Fault(BadRequestError, c.singularName + " is invalid")))
    else
      var path := GetItemPath(c.Key(), item, encode);
      if path.Err? then (s, ds, es, Err(path.error))
      else
        var existing := ItemAt(s, c.name, path.value);
        var saved := SaveState(s, ds, c.name, path.value, item);
        if saved.2.Err? then (saved.0, saved.1, es, saved.2)
        else (saved.0, saved.1,
              es + [CollectionEvent(if existing.Some? then Updated else Created, c.name, c.GetName(item), c.GetIds(item), existing, Some(saved.2.value))],
              saved.2)
  }

  /** A successful `saveItem` returns the item, reports it as `after` with what was stored
      before as `before`, and `getItem` with the item as query then finds it. */
  lemma SaveItemThenGet(c: Collection, s: Store, ds: seq<DatasourceEvent>, es: seq<CollectionEvent>, item: Item, encode: string -> string)
    requires |c.primaryFields| > 0
    requires SaveItemState(c, s, ds, es, item, encode).3.Ok?
    ensures var (s', _, es', r) := SaveItemState(c, s, ds, es, item, encode);
      var path := GetItemPath(c.Key(), item, encode);
      r.value == item && path.Ok? &&
      es' == es + [CollectionEvent(if ItemAt(s, c.name, path.value).Some? then Updated else Created,
                                   c.name, c.GetName(item), c.GetIds(item), ItemAt(s, c.name, path.value), Some(item))] &&
      FetchItem(c.Key(), item, s', encode) == Ok(Some(item))
  {
    var path := GetItemPath(c.Key(), item, encode);
    assert |path.value| == |c.parentPrimaryFields| + |c.primaryFields|;
    SaveMeaning(s, ds, c.name, path.value, item);
  }

  /** A `saveItem` that fails before the save, on a missing parent, an invalid item or a
      missing key field, changes nothing. */
  lemma SaveItemFailsEarly(c: Collection, s: Store, ds: seq<DatasourceEvent>, es: seq<CollectionEvent>, item: Item, encode: string -> string)
    requires |c.primaryFields| > 0
    requires ParentsCheck(c.ancestors, item, s, encode).Err? || !c.validator(item) || GetItemPath(c.Key(), item, encode).Err?
    ensures var (s', ds', es', r) := SaveItemState(c, s, ds, es, item, encode);
      r.Err? && s' == s && ds' == ds && es' == es &&
      (ParentsCheck(c.ancestors, item, s, encode).Err? ==> r.error == ParentsCheck(c.ancestors, item, s, encode).error)
  {
  }

  /** `deleteItem(search)` on the stores and both event lists: the item is read first, and
      only an item that exists is deleted and reported. */
  ghost function DeleteItemState(c: Collection, s: Store, ds: seq<DatasourceEvent>, es: seq<CollectionEvent>, search: Option<Search>, encode: string -> string)
    : (Store, seq<DatasourceEvent>, seq<CollectionEvent>, Result<bool>)
  {
    if search.None? then (s, ds, es, Err(NoSearch))
    else
      var query := search.value.query.GetOr(map[]);
      var path := GetItemPath(c.Key(), query, encode);
      if path.Err? then (s, ds, es, Err(path.error))
      else
        var item := ItemAt(s, c.name, path.value);
        if item.None? then (s, ds, es, Ok(false))
        else
          var deleted := DeleteState(s, ds, c.name, path.value);
          if !deleted.2 then (deleted.0, deleted.1, es, Ok(false))
          else (deleted.0, deleted.1, es + [CollectionEvent(Deleted, c.name, c.GetName(query), c.GetIds(query), item, None)], Ok(true))
  }

  /** `deleteItem` answers true exactly when an item is stored at the path of the query; it
      then reports DELETED with that item as `before` and `get` no longer finds it. Otherwise
      nothing changes. */
  lemma DeleteItemMeaning(c: Collection, s: Store, ds: seq<DatasourceEvent>, es: seq<CollectionEvent>, search: Option<Search>, encode: string -> string)
    ensures var (s', ds', es', r) := DeleteItemState(c, s, ds, es, search, encode);
      var query := if search.Some? then search.value.query.GetOr(map[]) else map[];
      var path := GetItemPath(c.Key(), query, encode);
      (r == Ok(true) <==> search.Some? && path.Ok? && ItemAt(s, c.name, path.value).Some?) &&
      (r != Ok(true) ==> s' == s && ds' == ds && es' == es) &&
      (r == Ok(true) ==>
        ItemAt(s', c.name, path.value).None? &&
        es' == es + [CollectionEvent(Deleted, c.name, c.GetName(query), c.GetIds(query), ItemAt(s, c.name, path.value), None)])
  {
    if search.Some? {
      var query := search.value.query.GetOr(map[]);
      var path := GetItemPath(c.Key(), query, encode);
      if path.Ok? && ItemAt(s, c.name, path.value).Some? {
        assert |path.value| == |c.parentPrimaryFields| + |c.primaryFields|;
        if path.value != [] {
          DeleteRemovesItem(s, c.name, path.value, path.value);
        }
      }
    }
  }

  class Collection {
    const name: string
    const singularName: string
    const version: string
    const basePath: string
    const readonly: bool
    const primaryFields: seq<string>
    const parentPrimaryFields: seq<string>
    const parent: Collection?
    /** The parent chain, nearest first. */
    ghost const ancestors: seq<Collection>
    const validator: Item -> bool
    const schema: Schema
    var children: seq<Collection>
    /** Every event pushed into the event stream, in order. */
    var events: seq<CollectionEvent>

    /** `ancestors` follows `parent` one step. */
    ghost predicate Linked()
    {
      if parent == null then ancestors == [] else ancestors == [parent] + parent.ancestors
    }

    /** `ancestors` follows `parent` all the way up. */
    ghost predicate Chained()
    {
      Linked() && forall i :: 0 <= i < |ancestors| ==> ancestors[i].Linked()
    }

    /** The collection registers itself with its parent; a missing schema starts as `{}`. */
    constructor (name: string, singularName: string, version: string, basePath: string, schema: Option<Schema>,
                 readonly: bool, primaryFields: seq<string>, parentPrimaryFields: seq<string>, parent: Collection?,
                 compile: Schema -> (Item -> bool))
      requires parent != null ==> parent.Chained()
      modifies ({parent} - {null})`children
      ensures this.name == name && this.singularName == singularName && this.version == version && this.basePath == basePath
      ensures this.readonly == readonly && this.primaryFields == primaryFields && this.parentPrimaryFields == parentPrimaryFields
      ensures this.parent == parent && this.validator == compile(this.schema) && Chained()
      ensures PreparedFrom(schema.GetOr(Schema(map[], None, None)), singularName, parentPrimaryFields + primaryFields, this.schema)
      ensures children == [] && events == []
      ensures parent != null ==> parent.children == old(parent.children) + [this] && parent.events == old(parent.events)
    {
      this.name := name;
      this.singularName := singularName;
      this.version := version;
      this.basePath := basePath;
      this.readonly := readonly;
      this.primaryFields := primaryFields;
      this.parentPrimaryFields := parentPrimaryFields;
      this.parent := parent;
      this.ancestors := if parent == null then [] else [parent] + parent.ancestors;
      var prepared := PrepareSchema(schema.GetOr(Schema(map[], None, None)), singularName, parentPrimaryFields + primaryFields);
      this.schema := prepared;
      this.validator := compile(prepared);
      children := [];
      events := [];
      new;
      if parent != null {
        parent.children := parent.children + [this];
      }
    }

    /** `getIdFields()`: the parent's id fields first, then the collection's own. */
    function IdFields(): (ids: seq<string>)
    {
      parentPrimaryFields + primaryFields
    }

    /** The id fields are the parent's, in order, followed by the collection's own. */
    lemma IdFieldsOrder()
      ensures |IdFields()| == |parentPrimaryFields| + |primaryFields|
      ensures forall i :: 0 <= i < |parentPrimaryFields| ==> IdFields()[i] == parentPrimaryFields[i]
      ensures forall i :: 0 <= i < |primaryFields| ==> IdFields()[|parentPrimaryFields| + i] == primaryFields[i]
    {
    }

    /** What a connection reads of the collection. */
    function Key(): CollectionKey
    {
      CollectionKey(name, parentPrimaryFields, primaryFields)
    }

    /** The key carries the collection's name and its id fields, split into the parent's and
        its own. */
    lemma KeyIdFields()
      ensures Key().name == name && Key().parentPrimaryFields + Key().primaryFields == IdFields()
      ensures Key().primaryFields == primaryFields
    {
    }

    /** `getIds(filter)`. */
    function GetIds(filter: Item): (ids: map<string, Option<string>>)
      ensures ids.Keys == set f | f in IdFields()
      ensures forall f :: f in ids ==> ids[f] == FieldValue(filter, f)
    {
      IdsOf(IdFields(), filter)
    }

    /** `getName(filter)`: the primary-field values joined with "-", a missing one read as ""
        (as `join` renders `undefined`). */
    function GetName(filter: Item): string
    {
      Join(NameParts(primaryFields, filter), "-")
    }

    /** With one primary field the name is its value; when no value contains "-", splitting
        the name at "-" gives back one value per primary field. */
    lemma GetNameSplits(filter: Item)
      ensures |primaryFields| == 1 ==> GetName(filter) == FieldValue(filter, primaryFields[0]).GetOr("")
      ensures |primaryFields| >= 1 && (forall i :: 0 <= i < |primaryFields| ==> !Occurs("-", FieldValue(filter, primaryFields[i]).GetOr(""))) ==>
        Split(GetName(filter), "-") == NameParts(primaryFields, filter)
    {
      if |primaryFields| >= 1 && (forall i :: 0 <= i < |primaryFields| ==> !Occurs("-", FieldValue(filter, primaryFields[i]).GetOr(""))) {
        SplitJoin(NameParts(primaryFields, filter), "-");
      }
    }

    /** `filter(item, search)`: every query field strictly equal in the item. */
    predicate Filter(item: Item, search: Search)
      ensures search.query.None? ==> Filter(item, search)
      ensures search.query.Some? ==>
        (Filter(item, search) <==> forall f :: f in search.query.value ==> FieldValue(item, f) == Some(search.query.value[f]))
    {
      search.query.None? || AgreesOn(item, search.query.value)
    }

    /** `getIncludeCollections(search)`: the child named by each include, lowercased, or the
        error listing every include without one. */
    function IncludeCollections(search: Search): (r: Result<seq<Collection>>)
      reads this
      ensures search.includes.None? ==> r == Ok([])
      ensures search.includes.Some? ==>
        (r.Err? <==> exists i :: 0 <= i < |search.includes.value| && FindChild(children, ToLower(search.includes.value[i])).None?)
      ensures search.includes.Some? && r.Err? ==>
        r.error == Fault(BadRequestError, "Unknown collections to include: " + Join(UnknownIncludes(search.includes.value, children), ", "))
      ensures search.includes.Some? && r.Ok? ==>
        |r.value| == |search.includes.value| &&
        forall i :: 0 <= i < |r.value| ==> r.value[i] in children && r.value[i].name == ToLower(search.includes.value[i])
    {
      if search.includes.None? then Ok([])
      else
        var includes := search.includes.value;
        var unknown := UnknownIncludes(includes, children);
        if |unknown| > 0 then Err(Fault(BadRequestError, "Unknown collections to include: " + Join(unknown, ", ")))
        else
          var matched := MatchedIncludes(includes, children);
          assert forall i :: 0 <= i < |matched| ==> matched[i] in children && matched[i].name == ToLower(includes[i]) by {
            forall i | 0 <= i < |matched|
              ensures matched[i] in children && matched[i].name == ToLower(includes[i])
            {
              var found := FindChild(children, ToLower(includes[i]));
              var k :| 0 <= k < |children| && children[k] == found.value && found.value.name == ToLower(includes[i]) &&
                forall j :: 0 <= j < k ==> children[j].name != ToLower(includes[i]);
            }
          }
          Ok(matched)
    }

    /** `getItem(search)`: no search is an error, then the includes are looked up, then the
        item is read and kept only when it matches the query. Include results are not
        attached. */
    method GetItem(conn: InMemoryConnection, search: Option<Search>) returns (r: Result<Option<Item>>)
      ensures r == if search.None? then Err(NoSearch)
                   else if IncludeCollections(search.value).Err? then Err(IncludeCollections(search.value).error)
                   else FetchItem(Key(), search.value.query.GetOr(map[]), conn.collections, conn.encode)
    {
      if search.None? {
        return Err(NoSearch);
      }
      var query := search.value.query.GetOr(map[]);
      var includes := IncludeCollections(search.value);
      if includes.Err? {
        return Err(includes.error);
      }
      var main := conn.Get(Key(), query);
      if main.Err? {
        return Err(main.error);
      }
      if main.value.None? {
        return Ok(None);
      }
      var result := main.value.value;
      if !Filter(result, Search(Some(query), search.value.includes)) {
        return Ok(None);
      }
      return Ok(Some(result));
    }

    /** The parent of a chained collection is chained. */
    lemma ParentChained()
      requires Chained() && parent != null
      ensures parent.Chained() && ancestors == [parent] + parent.ancestors
    {
      assert ancestors[0] == parent;
      assert forall i :: 0 <= i < |parent.ancestors| ==> parent.ancestors[i] == ancestors[i + 1];
    }

    /** The loop of `checkParentsExists` that collects the parents, nearest first. */
    method ParentChain() returns (chain: seq<Collection>)
      requires Chained()
      ensures chain == ancestors
    {
      var scope: Collection := this;
      chain := [];
      while scope.parent != null
        invariant scope.Chained()
        invariant chain + scope.ancestors == ancestors
        decreases |scope.ancestors|
      {
        var up: Collection := scope.parent;
        scope.ParentChained();
        scope := up;
        chain := chain + [scope];
      }
    }

    /** `checkParentsExists({query})`: the chain of parents is collected, then checked from
        its far end. */
    method CheckParentsExists(conn: InMemoryConnection, query: Item) returns (r: Result<()>)
      requires Chained()
      ensures r == ParentsCheck(ancestors, query, conn.collections, conn.encode)
    {
      var chain := ParentChain();
      r := CheckChain(conn, chain, query);
    }

    /** `saveItem(item)`. */
    method SaveItem(conn: InMemoryConnection, item: Item) returns (r: Result<Item>)
      requires Chained() && |primaryFields| > 0
      modifies this`events, conn
      ensures (conn.collections, conn.events, events, r) ==
        SaveItemState(this, old(conn.collections), old(conn.events), old(events), item, conn.encode)
      ensures unchanged(this`children)
    {
      var check := CheckParentsExists(conn, item);
      if check.Err? {
        return Err(check.error);
      }
      if !validator(item) {
        return Err(Fault(BadRequestError, singularName + " is invalid"));
      }
      var existing := conn.Get(Key(), item);
      if existing.Err? {
        return Err(existing.error);
      }
      var result := conn.Save(Key(), item);
      if result.Err? {
        return Err(result.error);
      }
      events := events + [CollectionEvent(if existing.value.Some? then Updated else Created, name, GetName(item), GetIds(item), existing.value, Some(result.value))];
      return result;
    }

    /** `deleteItem(search)`. */
    method DeleteItem(conn: InMemoryConnection, search: Option<Search>) returns (r: Result<bool>)
      modifies this`events, conn
      ensures (conn.collections, conn.events, events, r) ==
        DeleteItemState(this, old(conn.collections), old(conn.events), old(events), search, conn.encode)
      ensures unchanged(this`children)
    {
      if search.None? {
        return Err(NoSearch);
      }
      var query := search.value.query.GetOr(map[]);
      var item := conn.Get(Key(), query);
      if item.Err? {
        return Err(item.error);
      }
      if item.value.None? {
        return Ok(false);
      }
      var deleted := conn.Delete(Key(), query);
      assert deleted.Ok?;
      if deleted.value {
        events := events + [CollectionEvent(Deleted, name, GetName(query), GetIds(query), item.value, None)];
        return Ok(true);
      }
      return Ok(false);
    }
  }
}
