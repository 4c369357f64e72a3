/** The path computations of `KeyValueConnection`
    (webscale-collection/src/datasource/key-value.connection.ts): an item lives at one path
    segment per key field, parent fields first. `encodeURIComponent` is the parameter `encode`. */
module KeyValue {
  import opened Wrappers
  import opened Strings
  import opened Datasource

  /** `filter[field]` is truthy: present and not the empty string. */
  predicate Present(filter: Item, field: string)
  {
    field in filter && filter[field] != ""
  }

  /** The fields whose filter value is falsy, in order. */
  function MissingFields(fields: seq<string>, filter: Item): (missing: seq<string>)
    ensures |missing| <= |fields|
    ensures forall f :: f in missing <==> f in fields && !Present(filter, f)
    ensures |missing| == 0 <==> forall i :: 0 <= i < |fields| ==> Present(filter, fields[i])
    decreases |fields|
  {
    if fields == [] then []
    else
      var rest := MissingFields(fields[1..], filter);
      assert forall i :: 1 <= i < |fields| ==> fields[i] == fields[1..][i - 1];
      if Present(filter, fields[0]) then rest else [fields[0]] + rest
  }

  /** The missing fields of a concatenation are those of each part, in order. */
  lemma {:induction false} MissingFieldsAppend(a: seq<string>, b: seq<string>, filter: Item)
    ensures MissingFields(a + b, filter) == MissingFields(a, filter) + MissingFields(b, filter)
    decreases |a|
  {
    if a != [] {
      assert (a + b)[0] == a[0] && (a + b)[1..] == a[1..] + b;
      MissingFieldsAppend(a[1..], b, filter);
      assert MissingFields(a + b, filter) ==
        (if Present(filter, a[0]) then [] else [a[0]]) + MissingFields(a[1..] + b, filter);
    } else {
      assert a + b == b;
    }
  }

  /** The encoded filter values of the fields, in order. */
  function Encoded(fields: seq<string>, filter: Item, encode: string -> string): (segments: seq<string>)
    requires forall i :: 0 <= i < |fields| ==> fields[i] in filter && filter[fields[i]] != ""
    ensures |segments| == |fields|
    ensures forall i :: 0 <= i < |fields| ==> segments[i] == encode(filter[fields[i]])
    decreases |fields|
  {
    if fields == [] then [] else [encode(filter[fields[0]])] + Encoded(fields[1..], filter, encode)
  }

  /** The shared body of `getCollectionPath` and `getItemPath`: one segment per field, or a
      BadRequestError listing every missing field in order. */
  function FieldPath(fields: seq<string>, filter: Item, encode: string -> string): (r: Result<seq<string>>)
    ensures r.Err? <==> exists i :: 0 <= i < |fields| && !Present(filter, fields[i])
    ensures r.Err? ==> r.error == Fault(BadRequestError, "Missing fields: " + Join(MissingFields(fields, filter), ", "))
    ensures r.Ok? ==> |r.value| == |fields| && forall i :: 0 <= i < |fields| ==> r.value[i] == encode(filter[fields[i]])
  {
    var missing := MissingFields(fields, filter);
    if |missing| > 0 then Err(Fault(BadRequestError, "Missing fields: " + Join(missing, ", ")))
    else Ok(Encoded(fields, filter, encode))
  }

  /** `getCollectionPath(collection, filter)`: the parent fields only. */
  function GetCollectionPath(key: CollectionKey, filter: Item, encode: string -> string): Result<seq<string>>
  {
    FieldPath(key.parentPrimaryFields, filter, encode)
  }

  /** `getItemPath(collection, filter)`: the parent fields, then the primary fields. */
  function GetItemPath(key: CollectionKey, filter: Item, encode: string -> string): Result<seq<string>>
  {
    FieldPath(key.parentPrimaryFields + key.primaryFields, filter, encode)
  }

  /** A collection path fails exactly when a parent id field is missing, listing the missing
      ones; otherwise it holds the encoded parent values, one per parent field. */
  lemma CollectionPathMeaning(key: CollectionKey, filter: Item, encode: string -> string)
    ensures var r := GetCollectionPath(key, filter, encode);
      (r.Err? <==> exists i :: 0 <= i < |key.parentPrimaryFields| && !Present(filter, key.parentPrimaryFields[i])) &&
      (r.Err? ==> r.error == Fault(BadRequestError, "Missing fields: " + Join(MissingFields(key.parentPrimaryFields, filter), ", "))) &&
      (r.Ok? ==>
        |r.value| == |key.parentPrimaryFields| &&
        forall i :: 0 <= i < |key.parentPrimaryFields| ==> r.value[i] == encode(filter[key.parentPrimaryFields[i]]))
  {
  }

  /** An item path fails exactly when a parent or primary id field is missing; otherwise it
      holds the encoded parent values followed by the encoded primary values. */
  lemma ItemPathMeaning(key: CollectionKey, filter: Item, encode: string -> string)
    ensures var r := GetItemPath(key, filter, encode);
      (r.Err? <==>
        (exists i :: 0 <= i < |key.parentPrimaryFields| && !Present(filter, key.parentPrimaryFields[i])) ||
        (exists i :: 0 <= i < |key.primaryFields| && !Present(filter, key.primaryFields[i]))) &&
      (r.Ok? ==>
        |r.value| == |key.parentPrimaryFields| + |key.primaryFields| &&
        (forall i :: 0 <= i < |key.parentPrimaryFields| ==> r.value[i] == encode(filter[key.parentPrimaryFields[i]])) &&
        (forall i :: 0 <= i < |key.primaryFields| ==> r.value[|key.parentPrimaryFields| + i] == encode(filter[key.primaryFields[i]])))
  {
    var fields := key.parentPrimaryFields + key.primaryFields;
    assert forall i :: 0 <= i < |key.primaryFields| ==> fields[|key.parentPrimaryFields| + i] == key.primaryFields[i];
    assert forall i :: 0 <= i < |fields| ==>
      fields[i] == (if i < |key.parentPrimaryFields| then key.parentPrimaryFields[i] else key.primaryFields[i - |key.parentPrimaryFields|]);
  }

  /** An item path exists only where its collection path exists, and extends it by one segment
      per primary field; the error lists the missing parent fields before the primary ones. */
  lemma CollectionPathIsPrefix(key: CollectionKey, filter: Item, encode: string -> string)
    ensures GetItemPath(key, filter, encode).Ok? ==>
      GetCollectionPath(key, filter, encode).Ok? &&
      GetItemPath(key, filter, encode).value[..|key.parentPrimaryFields|] == GetCollectionPath(key, filter, encode).value &&
      |GetItemPath(key, filter, encode).value| == |key.parentPrimaryFields| + |key.primaryFields|
    ensures GetItemPath(key, filter, encode).Err? ==>
      GetItemPath(key, filter, encode).error.message ==
      "Missing fields: " + Join(MissingFields(key.parentPrimaryFields, filter) + MissingFields(key.primaryFields, filter), ", ")
  {
    var fields := key.parentPrimaryFields + key.primaryFields;
    MissingFieldsAppend(key.parentPrimaryFields, key.primaryFields, filter);
    if GetItemPath(key, filter, encode).Ok? {
      assert forall i :: 0 <= i < |key.parentPrimaryFields| ==> fields[i] == key.parentPrimaryFields[i];
    }
  }

  /** The message of the delete test: both fields missing, in field order. */
  lemma TwoMissingFields(encode: string -> string)
    ensures GetItemPath(CollectionKey("repos", ["projectId"], ["repoId"]), map[], encode) ==
      Err(Fault(BadRequestError, "Missing fields: projectId, repoId"))
  {
    var fields := ["projectId"] + ["repoId"];
    var key := CollectionKey("repos", ["projectId"], ["repoId"]);
    assert key.parentPrimaryFields + key.primaryFields == fields;
    var missing := MissingFields(fields, map[]);
    assert missing == ["projectId", "repoId"] by {
      assert fields[1..] == ["repoId"];
      assert MissingFields(["repoId"], map[]) == ["repoId"] by {
        assert ["repoId"][1..] == [];
      }
    }
    var listed := Join(missing, ", ");
    assert listed == "projectId, repoId" by {
      assert ["projectId", "repoId"][1..] == ["repoId"];
      assert listed == "projectId" + ", " + "repoId";
    }
    assert "Missing fields: " + listed == "Missing fields: projectId, repoId";
  }
}
