/** The pure parts of the Express binding
    (webscale-collection-express-api/src/factory/express-collection.factory.ts): endpoint paths
    and their parameters, the swagger operation ids, and the streamed JSON array response. */
module ExpressRoutes {
  import opened Wrappers
  import opened Strings
  import opened Datasource
  import opened Collections

  /** `pattern`: express route parameters (`:field`) or swagger templates (`{field}`). */
  datatype Pattern = ExpressPattern | SwaggerPattern

  function FieldParam(field: string, pattern: Pattern): string
  {
    match pattern
    case ExpressPattern => ":" + field
    case SwaggerPattern => "{" + field + "}"
  }

  function FieldParams(fields: seq<string>, pattern: Pattern): (params: seq<string>)
    ensures |params| == |fields| && forall i :: 0 <= i < |fields| ==> params[i] == FieldParam(fields[i], pattern)
  {
    seq(|fields|, i requires 0 <= i < |fields| => FieldParam(fields[i], pattern))
  }

  /** `getFieldPath(c, pattern)`: one parameter per primary field, joined by "/". */
  function FieldPath(c: Collection, pattern: Pattern): string
  {
    Join(FieldParams(c.primaryFields, pattern), "/")
  }

  /** The field path splits back into one parameter per primary field, when no field holds a
      "/". */
  lemma FieldPathSegments(c: Collection, pattern: Pattern)
    requires |c.primaryFields| >= 1
    requires forall i :: 0 <= i < |c.primaryFields| ==> !Occurs("/", c.primaryFields[i])
    ensures Split(FieldPath(c, pattern), "/") == FieldParams(c.primaryFields, pattern)
  {
    var params := FieldParams(c.primaryFields, pattern);
    forall k | 0 <= k < |params|
      ensures !Occurs("/", params[k])
    {
      var f := c.primaryFields[k];
      var pre := if pattern.ExpressPattern? then ":" else "{";
      var post := if pattern.ExpressPattern? then "" else "}";
      assert params[k] == pre + f + post;
      forall i | 0 <= i && i + 1 <= |params[k]|
        ensures params[k][i..][..1] != "/"
      {
        assert params[k][i..][..1] == [params[k][i]];
        if i == 0 {
          assert params[k][i] == pre[0];
        } else if i <= |f| {
          assert params[k][i] == f[i - 1] && f[i - 1..][..1] == [f[i - 1]];
        } else {
          assert params[k][i] == post[0];
        }
      }
    }
    SplitJoin(params, "/");
  }

  /** What `getEndpointPath` appends for one ancestor. The source puts no "/" between the name
      and the field path. */
  function Segment(c: Collection, pattern: Pattern): string
  {
    "/" + c.name + FieldPath(c, pattern)
  }

  /** The segments of a chain given nearest first, written root first. */
  function ParentsPath(chain: seq<Collection>, pattern: Pattern): string
  {
    if chain == [] then "" else ParentsPath(chain[1..], pattern) + Segment(chain[0], pattern)
  }

  /** `getEndpointPath(c, pattern)`. */
  ghost function EndpointPathOf(c: Collection, pattern: Pattern): string
  {
    c.basePath + "/" + c.version + ParentsPath(c.ancestors, pattern) + "/" + c.name
  }

  /** The item path registered for a collection: the endpoint path followed directly by the
      collection's own field path. */
  ghost function ItemPathOf(c: Collection, pattern: Pattern): string
  {
    EndpointPathOf(c, pattern) + FieldPath(c, pattern)
  }

  /** `getEndpointPath(c, pattern)`: the parent chain is collected nearest first, then written
      from its far end. */
  method EndpointPath(c: Collection, pattern: Pattern) returns (path: string)
    requires c.Chained()
    ensures path == EndpointPathOf(c, pattern)
  {
    var chain := c.ParentChain();
    path := WriteParents(c.basePath + "/" + c.version, chain, pattern);
    path := path + "/" + c.name;
  }

  /** The loop of `getEndpointPath`: the segments of the chain, from its far end, appended to
      `start`. */
  method WriteParents(start: string, chain: seq<Collection>, pattern: Pattern) returns (path: string)
    ensures path == start + ParentsPath(chain, pattern)
  {
    path := start;
    var i := |chain|;
    assert chain[i..] == [];
    while i > 0
      invariant 0 <= i <= |chain|
      invariant path == start + ParentsPath(chain[i..], pattern)
    {
      i := i - 1;
      ParentsPathStep(start, chain, i, pattern);
      path := path + Segment(chain[i], pattern);
    }
    assert chain[0..] == chain;
  }

  /** One more segment of the chain, written after the ones beyond it. */
  lemma ParentsPathStep(start: string, chain: seq<Collection>, i: nat, pattern: Pattern)
    requires i < |chain|
    ensures start + ParentsPath(chain[i..], pattern) == (start + ParentsPath(chain[i + 1..], pattern)) + Segment(chain[i], pattern)
  {
    assert chain[i..][1..] == chain[i + 1..];
  }

  /** A child's endpoint path is its parent's item path followed by "/" and the child's name,
      when both share basePath and version. */
  lemma ChildUnderParentItem(c: Collection, pattern: Pattern)
    requires c.Chained() && c.parent != null
    requires c.basePath == c.parent.basePath && c.version == c.parent.version
    ensures EndpointPathOf(c, pattern) == ItemPathOf(c.parent, pattern) + "/" + c.name
  {
    c.ParentChained();
  }

  /** The missing separator: a collection with one primary field `f` registers its item route
      at the endpoint path followed by ":f", not "/:f". */
  lemma ItemPathMissesSlash(c: Collection, f: string)
    requires c.primaryFields == [f]
    ensures ItemPathOf(c, ExpressPattern) == EndpointPathOf(c, ExpressPattern) + ":" + f
  {
    assert FieldParams(c.primaryFields, ExpressPattern) == [":" + f];
  }

  /** `{in: "path", required: true, name}`. */
  datatype PathParam = PathParam(location: string, name: string, required: bool)

  /** `getEndpointParams(c)`. */
  function EndpointParams(c: Collection): (params: seq<PathParam>)
    ensures |params| == |c.primaryFields|
    ensures forall i :: 0 <= i < |params| ==> params[i] == PathParam("path", c.primaryFields[i], true)
  {
    seq(|c.primaryFields|, i requires 0 <= i < |c.primaryFields| => PathParam("path", c.primaryFields[i], true))
  }

  /** The parameters of a chain given nearest first, nearest first. */
  function AncestorParams(chain: seq<Collection>): seq<PathParam>
  {
    if chain == [] then [] else EndpointParams(chain[0]) + AncestorParams(chain[1..])
  }

  /** `getEndpointAllParams(c)`: the parents' parameters, nearest parent first. */
  method EndpointAllParams(c: Collection) returns (params: seq<PathParam>)
    requires c.Chained()
    ensures params == AncestorParams(c.ancestors)
  {
    params := [];
    var scope: Collection := c;
    while scope.parent != null
      invariant scope.Chained()
      invariant params + AncestorParams(scope.ancestors) == AncestorParams(c.ancestors)
      decreases |scope.ancestors|
    {
      var up: Collection := scope.parent;
      scope.ParentChained();
      params := params + EndpointParams(up);
      scope := up;
    }
  }

  /** The parameters of an item operation: the collection's own, then the parents'. */
  ghost function ItemParams(c: Collection): seq<PathParam>
  {
    EndpointParams(c) + AncestorParams(c.ancestors)
  }

  /** Every parameter of a parent chain has its template in the chain's path. */
  lemma {:induction false} AncestorParamsInPath(chain: seq<Collection>, p: PathParam)
    requires p in AncestorParams(chain)
    ensures Occurs(FieldParam(p.name, SwaggerPattern), ParentsPath(chain, SwaggerPattern))
    decreases |chain|
  {
    var head := chain[0];
    var before := ParentsPath(chain[1..], SwaggerPattern);
    if p in EndpointParams(head) {
      var i :| 0 <= i < |head.primaryFields| && EndpointParams(head)[i] == p;
      OccursInJoin(FieldParams(head.primaryFields, SwaggerPattern), "/", i);
      OccursInRight(FieldParam(p.name, SwaggerPattern), "/" + head.name, FieldPath(head, SwaggerPattern));
      OccursInRight(FieldParam(p.name, SwaggerPattern), before, Segment(head, SwaggerPattern));
      assert before + Segment(head, SwaggerPattern) == before + ("/" + head.name + FieldPath(head, SwaggerPattern));
    } else {
      AncestorParamsInPath(chain[1..], p);
      OccursInLeft(FieldParam(p.name, SwaggerPattern), before, Segment(head, SwaggerPattern));
    }
  }

  /** The swagger item parameters and item path agree: every parameter listed has its
      `{name}` template in the path, and there is one parameter per field along the chain. */
  lemma ItemParamsInPath(c: Collection, p: PathParam)
    requires p in ItemParams(c)
    ensures Occurs(FieldParam(p.name, SwaggerPattern), ItemPathOf(c, SwaggerPattern))
  {
    var t := FieldParam(p.name, SwaggerPattern);
    var fields := FieldPath(c, SwaggerPattern);
    if p in EndpointParams(c) {
      assert Occurs(t, fields) by {
        var i :| 0 <= i < |c.primaryFields| && EndpointParams(c)[i] == p;
        OccursInJoin(FieldParams(c.primaryFields, SwaggerPattern), "/", i);
      }
      OccursInRight(t, EndpointPathOf(c, SwaggerPattern), fields);
    } else {
      var head := c.basePath + "/" + c.version;
      var parents := ParentsPath(c.ancestors, SwaggerPattern);
      var tail := "/" + c.name;
      assert Occurs(t, parents) by {
        AncestorParamsInPath(c.ancestors, p);
      }
      OccursInRight(t, head, parents);
      OccursInLeft(t, head + parents, tail + fields);
      assert ItemPathOf(c, SwaggerPattern) == (head + parents) + (tail + fields) by {
        ConcatRegroup(head + parents, "/", c.name, fields);
      }
    }
  }

  /** Regrouping a concatenation of four strings. */
  lemma ConcatRegroup(a: string, b: string, c: string, d: string)
    ensures ((a + b) + c) + d == a + ((b + c) + d)
  {
  }

  /** `prefix + name.substring(0, 1).toUpperCase() + name.substring(1)`. */
  function OperationId(prefix: string, name: string): (id: string)
    ensures |id| == |prefix| + |name| && id[..|prefix|] == prefix
    ensures name != "" ==> id[|prefix|] == UpperChar(name[0]) && id[|prefix| + 1..] == name[1..]
  {
    if name == "" then prefix else prefix + [UpperChar(name[0])] + name[1..]
  }

  /** The name comes back from the operation id by lowering its first character again, unless
      that character was an upper-case letter to begin with. */
  lemma OperationIdRecoversName(prefix: string, name: string)
    requires name != "" && !('A' <= name[0] <= 'Z')
    ensures var id := OperationId(prefix, name); [LowerChar(id[|prefix|])] + id[|prefix| + 1..] == name
  {
  }

  /** Which of the two routes of a collection an operation belongs to. */
  datatype Route = ListRoute | ItemRoute

  datatype Operation = Operation(route: Route, verb: string, operationId: string)

  /** The operations of the swagger document for one collection: list and get always, post,
      put and delete unless the collection is readonly. */
  function Operations(name: string, singularName: string, readonly: bool): (ops: seq<Operation>)
    ensures |ops| == if readonly then 2 else 5
    ensures Operation(ListRoute, "get", OperationId("list", name)) in ops
    ensures Operation(ItemRoute, "get", OperationId("get", singularName)) in ops
    ensures forall op :: op in ops && op.verb != "get" ==> !readonly
    ensures !readonly ==>
      Operation(ListRoute, "post", OperationId("post", singularName)) in ops &&
      Operation(ItemRoute, "put", OperationId("put", singularName)) in ops &&
      Operation(ItemRoute, "delete", OperationId("delete", singularName)) in ops
  {
    var list := Operation(ListRoute, "get", OperationId("list", name));
    var post := Operation(ListRoute, "post", OperationId("post", singularName));
    var get := Operation(ItemRoute, "get", OperationId("get", singularName));
    var put := Operation(ItemRoute, "put", OperationId("put", singularName));
    var delete := Operation(ItemRoute, "delete", OperationId("delete", singularName));
    if readonly then [list, get] else [list, post, get, put, delete]
  }

  /** Within one collection's document, no two operations share an operation id or a route
      and verb: the two-letter prefixes "li", "po", "ge", "pu" and "de" already differ. */
  lemma OperationsDistinct(name: string, singularName: string, readonly: bool)
    ensures var ops := Operations(name, singularName, readonly);
      forall i, j :: 0 <= i < j < |ops| ==> ops[i].operationId != ops[j].operationId && (ops[i].route, ops[i].verb) != (ops[j].route, ops[j].verb)
  {
    var ops := Operations(name, singularName, readonly);
    var prefixes := if readonly then ["li", "ge"] else ["li", "po", "ge", "pu", "de"];
    forall i | 0 <= i < |ops|
      ensures ops[i].operationId[..2] == prefixes[i]
    {
    }
  }

  /** How the observable of items ends. */
  datatype Completion = Completed | Failed(error: Fault)

  /** What `observableToJsonResponse` does to the response: its header, what it writes, whether
      it ends it, and the error it passes to `next`. */
  datatype Response = Response(contentType: Option<string>, status: Option<int>, chunks: seq<string>, ended: bool,
                               forwarded: Option<Fault>)

  /** One written line per item: its JSON and a newline, with no separating commas. */
  function Lines(items: seq<Item>, stringify: Item -> string): (lines: seq<string>)
    ensures |lines| == |items| && forall i :: 0 <= i < |items| ==> lines[i] == stringify(items[i]) + "\n"
  {
    seq(|items|, i requires 0 <= i < |items| => stringify(items[i]) + "\n")
  }

  function Concat(chunks: seq<string>): string
  {
    if chunks == [] then "" else chunks[0] + Concat(chunks[1..])
  }

  /** `observableToJsonResponse(observable, response, next)` for an observable that emits
      `items` and then ends as `completion`: "[\n" opens the array once, before the first item
      or at completion; each item is written as its JSON line; "]" closes it on completion. An
      error after no item leaves the response untouched. */
  method JsonResponse(items: seq<Item>, completion: Completion, stringify: Item -> string) returns (response: Response)
    ensures var started := items != [] || completion.Completed?;
      response.contentType == (if started then Some("application/json") else None) &&
      response.status == (if started then Some(200) else None) &&
      response.chunks == (if started then ["[\n"] else []) + Lines(items, stringify) + (if completion.Completed? then ["]"] else []) &&
      response.ended == completion.Completed? &&
      response.forwarded == (if completion.Failed? then Some(completion.error) else None)
  {
    response := Response(None, None, [], false, None);
    var sendHeader := false;
    var i := 0;
    while i < |items|
      invariant 0 <= i <= |items|
      invariant sendHeader == (i > 0)
      invariant response == Response(if sendHeader then Some("application/json") else None, if sendHeader then Some(200) else None,
                                     (if sendHeader then ["[\n"] else []) + Lines(items[..i], stringify), false, None)
    {
      if !sendHeader {
        response := response.(contentType := Some("application/json"), status := Some(200));
        sendHeader := true;
        response := response.(chunks := response.chunks + ["[\n"]);
      }
      assert Lines(items[..i + 1], stringify) == Lines(items[..i], stringify) + [stringify(items[i]) + "\n"];
      response := response.(chunks := response.chunks + [stringify(items[i]) + "\n"]);
      i := i + 1;
    }
    assert items[..i] == items;
    match completion
    case Failed(e) =>
      response := response.(forwarded := Some(e));
    case Completed =>
      if !sendHeader {
        response := response.(contentType := Some("application/json"), status := Some(200));
        sendHeader := true;
        response := response.(chunks := response.chunks + ["[\n"]);
      }
      response := response.(chunks := response.chunks + ["]"], ended := true);
  }

  /** The JSON lines followed by "]", joined, as a list of pieces separated by newlines. */
  lemma {:induction false} LinesJoin(jsons: seq<string>)
    ensures Concat(seq(|jsons|, i requires 0 <= i < |jsons| => jsons[i] + "\n")) + "]" == Join(jsons + ["]"], "\n")
    decreases |jsons|
  {
    var lines := seq(|jsons|, i requires 0 <= i < |jsons| => jsons[i] + "\n");
    if jsons != [] {
      var rest := jsons[1..];
      LinesJoin(rest);
      assert lines[1..] == seq(|rest|, i requires 0 <= i < |rest| => rest[i] + "\n");
      assert (jsons + ["]"])[1..] == rest + ["]"];
    }
  }

  /** A completed response body splits on newlines into "[", one JSON text per item, and "]",
      when no JSON text holds a newline: the array can be read back line by line. */
  lemma CompletedBodyLines(items: seq<Item>, stringify: Item -> string)
    requires forall i :: 0 <= i < |items| ==> !Occurs("\n", stringify(items[i]))
    ensures var jsons := seq(|items|, i requires 0 <= i < |items| => stringify(items[i]));
      Split(Concat(["[\n"] + Lines(items, stringify) + ["]"]), "\n") == ["["] + jsons + ["]"]
  {
    var jsons := seq(|items|, i requires 0 <= i < |items| => stringify(items[i]));
    var lines := Lines(items, stringify);
    assert lines == seq(|jsons|, i requires 0 <= i < |jsons| => jsons[i] + "\n");
    LinesJoin(jsons);
    ConcatAppend(lines, ["]"]);
    assert (["[\n"] + lines + ["]"])[1..] == lines + ["]"];
    assert Concat(["[\n"] + lines + ["]"]) == "[\n" + (Concat(lines) + "]");
    assert (["["] + jsons + ["]"])[1..] == jsons + ["]"];
    assert Join(["["] + jsons + ["]"], "\n") == "[" + "\n" + Join(jsons + ["]"], "\n");
    var parts := ["["] + jsons + ["]"];
    forall k | 0 <= k < |parts|
      ensures !Occurs("\n", parts[k])
    {
      if k == 0 || k == |parts| - 1 {
        assert |parts[k]| == 1 && parts[k] != "\n";
      }
    }
    SplitJoin(parts, "\n");
  }

  lemma {:induction false} ConcatAppend(a: seq<string>, b: seq<string>)
    ensures Concat(a + b) == Concat(a) + Concat(b)
    decreases |a|
  {
    if a != [] {
      assert (a + b)[1..] == a[1..] + b;
      ConcatAppend(a[1..], b);
    } else {
      assert a + b == b;
    }
  }
}
