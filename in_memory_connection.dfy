/** `InMemoryConnection` (webscale-collection/src/datasource/in-memory.connection.ts) with the
    path-first wrappers of `KeyValueConnection`
    (webscale-collection/src/datasource/key-value.connection.ts). `collections` holds one tree
    per collection name; `events` is everything pushed into the stream, in order. */
module InMemory {
  import opened Wrappers
  import opened Strings
  import opened OrderedMap
  import opened Datasource
  import opened KeyValue
  import opened InMemoryTree

  type Store = map<string, Entries<Node>>

  /** The node a path leads to in a collection's tree. */
  function NodeAt(c: Store, name: string, path: seq<string>): Option<Node>
  {
    if name in c then FromPath(Folder(c[name]), path) else None
  }

  /** What `getForPath` resolves to. */
  function ItemAt(c: Store, name: string, path: seq<string>): Option<Item>
  {
    ItemOf(NodeAt(c, name, path))
  }

  /** What `getKeys` resolves to: the keys of the folder, in insertion order. */
  function KeysAt(c: Store, name: string, path: seq<string>): Option<seq<string>>
  {
    var n := NodeAt(c, name, path);
    if n.Some? && n.value.Folder? then Some(Keys(n.value.children)) else None
  }

  /** The tree of a collection, empty before its first save. */
  function RootOf(c: Store, name: string): Entries<Node>
  {
    if name in c then c[name] else []
  }

  /** The keys `getKeys` finds are those of the folder at the path; no folder has none. */
  lemma KeysAtFolder(c: Store, name: string, path: seq<string>)
    ensures (if KeysAt(c, name, path).Some? then KeysAt(c, name, path).value else []) == Keys(FolderAt(RootOf(c, name), path))
  {
    if name !in c && path != [] {
      FromPathStep([], path);
    }
  }

  /** What `getForPath` finds at `prefix + [b]` is what `b` holds in the folder at `prefix`. */
  lemma ItemAtLast(c: Store, name: string, prefix: seq<string>, b: string)
    ensures NodeAt(c, name, prefix + [b]) == Get(FolderAt(RootOf(c, name), prefix), b)
    ensures ItemAt(c, name, prefix + [b]) == ItemOf(Get(FolderAt(RootOf(c, name), prefix), b))
  {
    LookupLast(RootOf(c, name), prefix, b);
    if name !in c && prefix != [] {
      FromPathStep([], prefix);
    }
  }

  /** The message of a conflicting save. */
  function ConflictError(prefix: seq<string>): Fault
  {
    Fault(PlainError, "Unable to store '" + Join(prefix, "/") + "': conflict")
  }

  /** `JSON.parse` of a `Map`: its text `[object Map]` is not JSON. */
  const ParseMapError := Fault(SyntaxError, "Unexpected token o in JSON at position 1")

  /** `saveForPath(collection, path, item)`: the stores, the events and the result after it.
      The collection's tree is always created. The basename is stored even when it held a
      folder, but reading that folder back as JSON then throws and no event is sent. The event
      id is the path without its basename. */
  function SaveState(c: Store, events: seq<DatasourceEvent>, name: string, path: seq<string>, item: Item): (Store, seq<DatasourceEvent>, Result<Item>)
    requires |path| > 0
  {
    var root := if name in c then c[name] else [];
    var prefix := path[..|path| - 1];
    var saved := SaveIn(root, prefix, path[|path| - 1], item);
    var store := c[name := saved.0];
    if saved.1.Conflict? then (store, events, Err(ConflictError(prefix)))
    else
      var previous := saved.1.previous;
      if previous.Some? && previous.value.Folder? then (store, events, Err(ParseMapError))
      else
        var before := if previous.Some? then Some(previous.value.item) else None;
        var event := DatasourceEvent(if previous.Some? then Updated else Created, Join(prefix, "/"), name, before, Some(item));
        (store, events + [event], Ok(item))
  }

  /** What a save does, in terms of what `get` reads before and after: it conflicts exactly
      when an item lies on the way, and then changes nothing; otherwise the item is stored.
      It fails afterwards when a folder was at the path, and else reports CREATED or UPDATED
      with what was there. */
  lemma SaveMeaning(c: Store, events: seq<DatasourceEvent>, name: string, path: seq<string>, item: Item)
    requires |path| > 0
    ensures var (c', e', r) := SaveState(c, events, name, path, item);
      var prefix := path[..|path| - 1];
      var conflict := r.Err? && r.error.kind == PlainError;
      (conflict <==> name in c && LeafOnPrefix(c[name], prefix)) &&
      (conflict ==> c' == c && e' == events && r.error == ConflictError(prefix)) &&
      (!conflict ==> ItemAt(c', name, path) == Some(item)) &&
      (r.Err? && r.error.kind == SyntaxError <==>
        !conflict && NodeAt(c, name, path).Some? && NodeAt(c, name, path).value.Folder?) &&
      (r.Err? && r.error.kind == SyntaxError ==> e' == events && r.error == ParseMapError) &&
      (r.Ok? ==>
        r.value == item &&
        e' == events + [DatasourceEvent(if ItemAt(c, name, path).Some? then Updated else Created,
                                        Join(prefix, "/"), name, ItemAt(c, name, path), Some(item))])
    ensures forall other :: other != name ==> (other in SaveState(c, events, name, path, item).0 <==> other in c)
    ensures forall other :: other != name && other in c ==> SaveState(c, events, name, path, item).0[other] == c[other]
  {
    var prefix := path[..|path| - 1];
    var saved := SaveIn(RootOf(c, name), prefix, path[|path| - 1], item);
    SaveConflict(c, events, name, path, item);
    if saved.1.Saved? {
      SaveStored(c, name, path, item);
    }
  }

  /** The conflict case of a save: exactly when an item lies on the way, and it changes nothing. */
  lemma SaveConflict(c: Store, events: seq<DatasourceEvent>, name: string, path: seq<string>, item: Item)
    requires |path| > 0
    ensures var (c', e', r) := SaveState(c, events, name, path, item);
      var prefix := path[..|path| - 1];
      (SaveIn(RootOf(c, name), prefix, path[|path| - 1], item).1.Conflict? <==> name in c && LeafOnPrefix(c[name], prefix)) &&
      (SaveIn(RootOf(c, name), prefix, path[|path| - 1], item).1.Conflict? ==> c' == c)
  {
    var root := RootOf(c, name);
    var prefix := path[..|path| - 1];
    var b := path[|path| - 1];
    ConflictIffLeafOnPrefix(root, prefix, b, item);
    if name !in c {
      SaveInEmpty(prefix, b, item);
    }
    if SaveIn(root, prefix, b, item).1.Conflict? {
      ConflictUnchanged(root, prefix, b, item);
      assert c[name := root] == c;
    }
  }

  /** A save that does not conflict stores the item, and what it replaced is what was at the path. */
  lemma SaveStored(c: Store, name: string, path: seq<string>, item: Item)
    requires |path| > 0
    requires SaveIn(RootOf(c, name), path[..|path| - 1], path[|path| - 1], item).1.Saved?
    ensures var saved := SaveIn(RootOf(c, name), path[..|path| - 1], path[|path| - 1], item);
      ItemAt(c[name := saved.0], name, path) == Some(item) && NodeAt(c, name, path) == saved.1.previous
  {
    var prefix := path[..|path| - 1];
    var b := path[|path| - 1];
    assert path == prefix + [b];
    NodeAtRoot(c, name, path);
    SaveAtLast(RootOf(c, name), prefix, b, item);
  }

  /** Below its root, a collection without a tree reads like an empty one. */
  lemma NodeAtRoot(c: Store, name: string, path: seq<string>)
    requires path != []
    ensures NodeAt(c, name, path) == FromPath(Folder(RootOf(c, name)), path)
  {
    if name !in c {
      FromPathStep([], path);
    }
  }

  /** Saving again at the same path overwrites: UPDATED with the first item as `before`, and
      `get` returns the second. */
  lemma SaveTwice(c: Store, events: seq<DatasourceEvent>, name: string, path: seq<string>, first: Item, second: Item)
    requires |path| > 0
    requires SaveState(c, events, name, path, first).2.Ok?
    ensures var (c1, e1, _) := SaveState(c, events, name, path, first);
      var (c2, e2, r2) := SaveState(c1, e1, name, path, second);
      r2 == Ok(second) && ItemAt(c2, name, path) == Some(second) &&
      e2 == e1 + [DatasourceEvent(Updated, Join(path[..|path| - 1], "/"), name, Some(first), Some(second))]
  {
    var (c1, e1, _) := SaveState(c, events, name, path, first);
    var prefix := path[..|path| - 1];
    assert ItemAt(c1, name, path) == Some(first) by {
      SaveMeaning(c, events, name, path, first);
    }
    assert !LeafOnPrefix(c1[name], prefix) by {
      assert path == prefix + [path[|path| - 1]];
      ReachableNotBlocked(c1[name], prefix, path[|path| - 1]);
    }
    SaveMeaning(c1, e1, name, path, second);
  }

  /** A save that succeeds leaves the parent a folder whose keys are the ones before, plus the
      basename at the end when it is new: `getKeys` lists children in insertion order. */
  lemma SaveAppendsKey(c: Store, events: seq<DatasourceEvent>, name: string, path: seq<string>, item: Item)
    requires |path| > 0
    requires SaveState(c, events, name, path, item).2.Ok?
    ensures var prefix := path[..|path| - 1];
      var before := if KeysAt(c, name, prefix).Some? then KeysAt(c, name, prefix).value else [];
      KeysAt(SaveState(c, events, name, path, item).0, name, prefix) ==
        Some(if ItemAt(c, name, path).Some? then before else before + [path[|path| - 1]])
  {
    var root := RootOf(c, name);
    var prefix := path[..|path| - 1];
    var b := path[|path| - 1];
    var saved := SaveIn(root, prefix, b, item);
    var F := FolderAt(root, prefix);
    assert SaveState(c, events, name, path, item).0 == c[name := saved.0];
    SaveInFolder(root, prefix, b, item);
    assert NodeAt(c[name := saved.0], name, prefix) == Some(Folder(Set(F, b, Leaf(item))));
    KeysAtFolder(c, name, prefix);
    assert path == prefix + [b];
    ItemAtLast(c, name, prefix, b);
  }

  /** Two new children saved one after the other under a folder that did not exist are listed
      in that order. */
  lemma ChildrenInSaveOrder(c: Store, events: seq<DatasourceEvent>, name: string, prefix: seq<string>, b1: string, b2: string, item1: Item, item2: Item)
    requires b1 != b2 && KeysAt(c, name, prefix).None? && ItemAt(c, name, prefix + [b1]).None?
    requires SaveState(c, events, name, prefix + [b1], item1).2.Ok?
    ensures var (c1, e1, _) := SaveState(c, events, name, prefix + [b1], item1);
      SaveState(c1, e1, name, prefix + [b2], item2).2.Ok? ==>
      KeysAt(SaveState(c1, e1, name, prefix + [b2], item2).0, name, prefix) == Some([b1, b2])
  {
    var p1, p2 := prefix + [b1], prefix + [b2];
    var (c1, e1, _) := SaveState(c, events, name, p1, item1);
    assert KeysAt(c1, name, prefix) == Some([b1]) by {
      assert p1[..|p1| - 1] == prefix && p1[|p1| - 1] == b1;
      SaveAppendsKey(c, events, name, p1, item1);
      assert [] + [b1] == [b1];
    }
    if SaveState(c1, e1, name, p2, item2).2.Ok? {
      SecondChild(c1, e1, name, prefix, b1, b2, item2);
    }
  }

  /** A new child saved under a folder holding one other child is listed after it. */
  lemma SecondChild(c: Store, events: seq<DatasourceEvent>, name: string, prefix: seq<string>, b1: string, b2: string, item: Item)
    requires b1 != b2 && KeysAt(c, name, prefix) == Some([b1])
    requires SaveState(c, events, name, prefix + [b2], item).2.Ok?
    ensures KeysAt(SaveState(c, events, name, prefix + [b2], item).0, name, prefix) == Some([b1, b2])
  {
    var p2 := prefix + [b2];
    assert p2[..|p2| - 1] == prefix && p2[|p2| - 1] == b2;
    SaveAppendsKey(c, events, name, p2, item);
    var n := NodeAt(c, name, prefix).value;
    assert n.Folder? && Keys(n.children) == [b1];
    ItemAtLast(c, name, prefix, b2);
    assert FolderAt(RootOf(c, name), prefix) == n.children;
    assert !Has(n.children, b2);
    assert ItemAt(c, name, p2).None?;
    assert [b1] + [b2] == [b1, b2];
  }

  /** The stores after the item at `path` is removed from its parent folder, which stays even
      when it is left empty (the pruning `deleteFolder` is asked for never runs, see
      `PruneTree`). */
  function Deleting(c: Store, name: string, path: seq<string>): Store
    requires path != [] && ItemAt(c, name, path).Some?
  {
    var prefix := path[..|path| - 1];
    c[name := ReplaceAt(c[name], prefix, Remove(FolderAt(c[name], prefix), path[|path| - 1]))]
  }

  /** The id of the DELETED event: the parent's path when the parent folder is left empty,
      else the whole path. */
  function DeletedId(c: Store, name: string, path: seq<string>): string
    requires path != [] && ItemAt(c, name, path).Some?
  {
    var prefix := path[..|path| - 1];
    if Remove(FolderAt(c[name], prefix), path[|path| - 1]) == [] then Join(prefix, "/") else Join(path, "/")
  }

  /** `deleteForPath(collection, path)` on the connection state: only an item can be deleted,
      and its deletion is reported with the item as `before`. */
  function DeleteState(c: Store, events: seq<DatasourceEvent>, name: string, path: seq<string>): (Store, seq<DatasourceEvent>, bool)
  {
    if path == [] || ItemAt(c, name, path).None? then (c, events, false)
    else (Deleting(c, name, path), events + [DatasourceEvent(Deleted, DeletedId(c, name, path), name, ItemAt(c, name, path), None)], true)
  }

  /** What a successful `delete` leaves: the item gone, its parent folder kept even when it
      is left empty, nothing else changed in the collection, and the other collections
      untouched. */
  lemma DeleteRemovesItem(c: Store, name: string, path: seq<string>, q: seq<string>)
    requires path != [] && ItemAt(c, name, path).Some?
    ensures var c' := Deleting(c, name, path);
      ItemAt(c', name, path) == None && KeysAt(c', name, path[..|path| - 1]).Some? &&
      (q != path ==> ItemAt(c', name, q) == ItemAt(c, name, q)) &&
      c'.Keys == c.Keys && forall other :: other in c && other != name ==> c'[other] == c[other]
  {
    var prefix := path[..|path| - 1];
    assert path == prefix + [path[|path| - 1]];
    DeleteLeaf(c[name], prefix, path[|path| - 1], q);
  }

  /** The DELETED event names the parent's path exactly when `getKeys` then finds the parent
      folder empty. */
  lemma DeleteEventId(c: Store, name: string, path: seq<string>)
    requires path != [] && ItemAt(c, name, path).Some?
    ensures DeletedId(c, name, path) ==
      if KeysAt(Deleting(c, name, path), name, path[..|path| - 1]) == Some([]) then Join(path[..|path| - 1], "/") else Join(path, "/")
  {
    var prefix := path[..|path| - 1];
    var rest := Remove(FolderAt(c[name], prefix), path[|path| - 1]);
    DeletingParent(c, name, path);
    assert KeysAt(Deleting(c, name, path), name, prefix) == Some(Keys(rest));
  }

  /** After the deletion the parent folder holds the remaining entries. */
  lemma DeletingParent(c: Store, name: string, path: seq<string>)
    requires path != [] && ItemAt(c, name, path).Some?
    ensures var prefix := path[..|path| - 1];
      var rest := Remove(FolderAt(c[name], prefix), path[|path| - 1]);
      NodeAt(Deleting(c, name, path), name, prefix) == Some(Folder(rest)) && (Keys(rest) == [] <==> rest == [])
  {
    var prefix := path[..|path| - 1];
    var b := path[|path| - 1];
    assert path == prefix + [b];
    DeleteLeaf(c[name], prefix, b, prefix);
  }

  /** The deletion walk of `deleteFolder`, one segment at a time from the end. */
  method PruneTree(root: Entries<Node>, segments: seq<string>) returns (pruned: Entries<Node>)
    ensures pruned == Pruned(root, segments)
  {
    pruned := root;
    var segs := segments;
    while |segs| >= 2
      invariant Pruned(pruned, segs) == Pruned(root, segments)
      decreases |segs|
    {
      var last := segs[|segs| - 1];
      var rest := segs[..|segs| - 1];
      var basename := segs[|segs| - 2];
      PrunedStep(pruned, segs);
      var parent := FromPath(Folder(pruned), [last]);
      if parent.None? || parent.value.Leaf? {
        assert PruneStep(pruned, last, basename) == None;
        return;
      }
      var folder := Get(parent.value.children, basename);
      if folder.Some? && folder.value.Folder? {
        if folder.value.children != [] {
          assert PruneStep(pruned, last, basename) == None;
          return;
        }
        var next := ReplaceAt(pruned, [last], Remove(parent.value.children, basename));
        assert PruneStep(pruned, last, basename) == Some(next);
        pruned := next;
      } else {
        assert PruneStep(pruned, last, basename) == Some(pruned);
      }
      segs := rest;
    }
  }

  /** The keys up to the first empty one, where `getAll` stops. */
  function UpToEmpty(keys: seq<string>): (r: seq<string>)
    ensures r <= keys
    ensures forall i :: 0 <= i < |r| ==> r[i] != ""
    ensures |r| < |keys| ==> keys[|r|] == ""
    decreases |keys|
  {
    if keys == [] || keys[0] == "" then [] else [keys[0]] + UpToEmpty(keys[1..])
  }

  /** The tree rebuilt from the descent `ctx` (outermost first) with `scope` as the folder
      reached last. */
  function Plug(ctx: seq<(Entries<Node>, string)>, scope: Entries<Node>): Entries<Node>
    decreases |ctx|
  {
    if ctx == [] then scope
    else Plug(ctx[..|ctx| - 1], Set(ctx[|ctx| - 1].0, ctx[|ctx| - 1].1, Folder(scope)))
  }

  /** The rest of a save from the folder `scope`, reached by the descent `ctx`. */
  function Resume(ctx: seq<(Entries<Node>, string)>, scope: Entries<Node>, rest: seq<string>, basename: string, item: Item): (Entries<Node>, SaveOutcome)
  {
    var inner := SaveIn(scope, rest, basename, item);
    (Plug(ctx, inner.0), inner.1)
  }

  /** One step down the walk of a save. */
  lemma ResumeStep(ctx: seq<(Entries<Node>, string)>, scope: Entries<Node>, rest: seq<string>, basename: string, item: Item)
    requires rest != []
    requires var child := Get(scope, rest[0]); !(child.Some? && child.value.Leaf?)
    ensures var child := Get(scope, rest[0]);
      var sub := if child.Some? then child.value.children else [];
      Resume(ctx, scope, rest, basename, item) == Resume(ctx + [(scope, rest[0])], sub, rest[1..], basename, item)
  {
    var child := Get(scope, rest[0]);
    var sub := if child.Some? then child.value.children else [];
    var inner := SaveIn(sub, rest[1..], basename, item);
    assert SaveIn(scope, rest, basename, item) == (Set(scope, rest[0], Folder(inner.0)), inner.1);
    assert (ctx + [(scope, rest[0])])[..|ctx|] == ctx;
    assert Plug(ctx + [(scope, rest[0])], inner.0) == Plug(ctx, Set(scope, rest[0], Folder(inner.0)));
  }

  /** The walk of a save meets an item. */
  lemma ResumeConflict(ctx: seq<(Entries<Node>, string)>, scope: Entries<Node>, rest: seq<string>, basename: string, item: Item)
    requires rest != []
    requires var child := Get(scope, rest[0]); child.Some? && child.value.Leaf?
    ensures Resume(ctx, scope, rest, basename, item) == (Plug(ctx, scope), Conflict)
  {
  }

  /** The walk of a save reaches the basename's folder. */
  lemma ResumeEnd(ctx: seq<(Entries<Node>, string)>, scope: Entries<Node>, basename: string, item: Item)
    ensures Resume(ctx, scope, [], basename, item) == (Plug(ctx, Set(scope, basename, Leaf(item))), Saved(Get(scope, basename)))
  {
  }

  /** The tree work of `saveForPath`: down the prefix, creating each missing folder, until
      the prefix is used up or a segment holds an item; then the basename is set. The walk
      keeps the folders it passed, so the tree can be rebuilt around the one it changed, as
      the in-place updates of the nested maps leave it. */
  method SaveInTree(root: Entries<Node>, prefix: seq<string>, basename: string, item: Item)
    returns (tree: Entries<Node>, outcome: SaveOutcome)
    ensures (tree, outcome) == SaveIn(root, prefix, basename, item)
  {
    var ctx: seq<(Entries<Node>, string)> := [];
    var scope := root;
    var rest := prefix;
    ghost var target := SaveIn(root, prefix, basename, item);
    while rest != []
      invariant Resume(ctx, scope, rest, basename, item) == target
      decreases |rest|
    {
      var child := Get(scope, rest[0]);
      if child.Some? && child.value.Leaf? {
        ResumeConflict(ctx, scope, rest, basename, item);
        return Plug(ctx, scope), Conflict;
      }
      var sub := if child.Some? then child.value.children else [];
      ResumeStep(ctx, scope, rest, basename, item);
      ctx := ctx + [(scope, rest[0])];
      scope := sub;
      rest := rest[1..];
    }
    ResumeEnd(ctx, scope, basename, item);
    var previous := Get(scope, basename);
    scope := Set(scope, basename, Leaf(item));
    return Plug(ctx, scope), Saved(previous);
  }

  class InMemoryConnection {
    /** `encodeURIComponent`. */
    const encode: string -> string
    var collections: Store
    var events: seq<DatasourceEvent>

    constructor(encode: string -> string)
      ensures this.encode == encode && collections == map[] && events == []
    {
      this.encode := encode;
      collections := map[];
      events := [];
    }

    /** `getFromPath(scope, path)`. */
    method GetFromPath(scope: Node, path: seq<string>) returns (r: Option<Node>)
      ensures r == FromPath(scope, path)
    {
      var current := scope;
      var i := 0;
      while i < |path|
        invariant 0 <= i <= |path|
        invariant FromPath(current, path[i..]) == FromPath(scope, path)
      {
        assert path[i..][0] == path[i] && path[i..][1..] == path[i + 1..];
        if current.Leaf? {
          return None;
        }
        var child := OrderedMap.Get(current.children, path[i]);
        if child.None? {
          return None;
        }
        current := child.value;
        i := i + 1;
      }
      return Some(current);
    }

    /** `getParentFromPath(collection, path)`: the folder at the path without its last segment. */
    method GetParentFromPath(root: Entries<Node>, path: seq<string>) returns (r: Option<Entries<Node>>)
      ensures var parent := FromPath(Folder(root), if path == [] then [] else path[..|path| - 1]);
        r == if parent.Some? && parent.value.Folder? then Some(parent.value.children) else None
    {
      var parentSegments := if path == [] then [] else path[..|path| - 1];
      var parent := GetFromPath(Folder(root), parentSegments);
      if parent.Some? && parent.value.Folder? {
        return Some(parent.value.children);
      }
      return None;
    }

    /** `saveForPath(collection, path, item)`. */
    method SaveForPath(name: string, path: seq<string>, item: Item) returns (r: Result<Item>)
      requires |path| > 0
      modifies this
      ensures (collections, events, r) == SaveState(old(collections), old(events), name, path, item)
    {
      if name !in collections {
        collections := collections[name := []];
      }
      var root := collections[name];
      var prefix := path[..|path| - 1];
      var basename := path[|path| - 1];
      assert root == if name in old(collections) then old(collections)[name] else [];
      var tree, outcome := SaveInTree(root, prefix, basename, item);
      collections := collections[name := tree];
      assert collections == old(collections)[name := tree];
      if outcome.Conflict? {
        return Err(ConflictError(prefix));
      }
      var previous := outcome.previous;
      if previous.Some? && previous.value.Folder? {
        return Err(ParseMapError);
      }
      var before := if previous.Some? then Some(previous.value.item) else None;
      events := events + [DatasourceEvent(if previous.Some? then Updated else Created, Join(prefix, "/"), name, before, Some(item))];
      return Ok(item);
    }

    /** `getForPath(collection, path)`. */
    method GetForPath(name: string, path: seq<string>) returns (r: Option<Item>)
      ensures r == ItemAt(collections, name, path)
    {
      if name !in collections {
        return None;
      }
      var n := GetFromPath(Folder(collections[name]), path);
      r := ItemOf(n);
    }

    /** `getKeys(collection, path)`: the keys of the folder, collected one by one. */
    method GetKeys(name: string, path: seq<string>) returns (r: Option<seq<string>>)
      ensures r == KeysAt(collections, name, path)
    {
      if name !in collections {
        return None;
      }
      var folder := GetFromPath(Folder(collections[name]), path);
      if folder.None? || folder.value.Leaf? {
        return None;
      }
      var children := folder.value.children;
      var keys: seq<string> := [];
      var i := 0;
      while i < |children|
        invariant 0 <= i <= |children|
        invariant |keys| == i && forall j :: 0 <= j < i ==> keys[j] == children[j].0
      {
        keys := keys + [children[i].0];
        i := i + 1;
      }
      assert keys == Keys(children);
      return Some(keys);
    }

    /** `deleteFolder(collection, segments)` on the tree of `name`. */
    method DeleteFolder(name: string, segments: seq<string>)
      requires name in collections
      modifies this
      ensures collections == old(collections)[name := Pruned(old(collections)[name], segments)]
      ensures events == old(events)
    {
      var pruned := PruneTree(collections[name], segments);
      collections := collections[name := pruned];
    }

    /** `deleteForPath(collection, path)`. */
    method DeleteForPath(name: string, path: seq<string>) returns (r: bool)
      modifies this
      ensures (collections, events, r) == DeleteState(old(collections), old(events), name, path)
    {
      if name !in collections || path == [] {
        return false;
      }
      var root := collections[name];
      var prefix := path[..|path| - 1];
      var basename := path[|path| - 1];
      assert path == prefix + [basename];
      ItemAtLast(collections, name, prefix, basename);
      var parent := GetParentFromPath(root, path);
      if parent.None? {
        FromPathAppend(Folder(root), prefix, [basename]);
        return false;
      }
      assert parent.value == FolderAt(root, prefix);
      var previous := OrderedMap.Get(parent.value, basename);
      if previous.None? || previous.value.Folder? {
        return false;
      }
      assert ItemAt(old(collections), name, path) == Some(previous.value.item);
      var rest := Remove(parent.value, basename);
      collections := collections[name := ReplaceAt(root, prefix, rest)];
      assert collections == Deleting(old(collections), name, path);
      var id := Join(path, "/");
      if rest == [] {
        DeleteFolder(name, [basename]);
        id := Join(prefix, "/");
      }
      assert id == DeletedId(old(collections), name, path);
      assert collections == Deleting(old(collections), name, path) && events == old(events);
      events := events + [DatasourceEvent(Deleted, id, name, Some(previous.value.item), None)];
      return true;
    }

    /** `save(collection, item)`: the item path first, so a missing field reaches no store. */
    method Save(key: CollectionKey, item: Item) returns (r: Result<Item>)
      requires |key.primaryFields| > 0
      modifies this
      ensures var path := GetItemPath(key, item, encode);
        if path.Err? then r == Err(path.error) && collections == old(collections) && events == old(events)
        else |path.value| > 0 && (collections, events, r) == SaveState(old(collections), old(events), key.name, path.value, item)
    {
      var path := GetItemPath(key, item, encode);
      if path.Err? {
        return Err(path.error);
      }
      r := SaveForPath(key.name, path.value, item);
    }

    /** `get(collection, search)`. */
    method Get(key: CollectionKey, search: Item) returns (r: Result<Option<Item>>)
      ensures var path := GetItemPath(key, search, encode);
        r == if path.Err? then Err(path.error) else Ok(ItemAt(collections, key.name, path.value))
    {
      var path := GetItemPath(key, search, encode);
      if path.Err? {
        return Err(path.error);
      }
      var item := GetForPath(key.name, path.value);
      return Ok(item);
    }

    /** `delete(collection, search)`. */
    method Delete(key: CollectionKey, search: Item) returns (r: Result<bool>)
      modifies this
      ensures var path := GetItemPath(key, search, encode);
        if path.Err? then r == Err(path.error) && collections == old(collections) && events == old(events)
        else r.Ok? && (collections, events, r.value) == DeleteState(old(collections), old(events), key.name, path.value)
    {
      var path := GetItemPath(key, search, encode);
      if path.Err? {
        return Err(path.error);
      }
      var deleted := DeleteForPath(key.name, path.value);
      return Ok(deleted);
    }

    /** `getAll(collection, search)`: what `get` finds under each key of the collection folder,
        in key order, up to the first empty key; nothing when the folder does not exist. */
    method GetAll(key: CollectionKey, search: Item) returns (r: Result<seq<Option<Item>>>)
      ensures var path := GetCollectionPath(key, search, encode);
        if path.Err? then r == Err(path.error)
        else
          var keys := KeysAt(collections, key.name, path.value);
          r.Ok? &&
          (keys.None? ==> r.value == []) &&
          (keys.Some? ==>
            |r.value| == |UpToEmpty(keys.value)| &&
            forall i :: 0 <= i < |r.value| ==> r.value[i] == ItemAt(collections, key.name, path.value + [UpToEmpty(keys.value)[i]]))
    {
      var path := GetCollectionPath(key, search, encode);
      if path.Err? {
        return Err(path.error);
      }
      var keys := GetKeys(key.name, path.value);
      if keys.None? {
        return Ok([]);
      }
      var items := ItemsUpToEmpty(key.name, path.value, keys.value);
      return Ok(items);
    }

    /** The loop of `getAll`: `get` of each key of the folder in turn, until an empty key. */
    method ItemsUpToEmpty(name: string, folder: seq<string>, keys: seq<string>) returns (items: seq<Option<Item>>)
      ensures |items| == |UpToEmpty(keys)|
      ensures forall i :: 0 <= i < |items| ==> items[i] == ItemAt(collections, name, folder + [UpToEmpty(keys)[i]])
    {
      ghost var upTo := UpToEmpty(keys);
      items := [];
      var index := 0;
      while index < |keys| && keys[index] != ""
        invariant 0 <= index <= |upTo|
        invariant |items| == index
        invariant forall i :: 0 <= i < index ==> items[i] == ItemAt(collections, name, folder + [upTo[i]])
      {
        assert index < |upTo| && upTo[index] == keys[index];
        var item := GetForPath(name, folder + [keys[index]]);
        items := items + [item];
        index := index + 1;
      }
    }

    /** `watch(collection)` piped through `watchByFilter(search)`: the events so far that a
        subscriber would see. */
    function Watch(name: string, search: Option<Item>): (r: seq<DatasourceEvent>)
      reads this
      ensures forall i :: 0 <= i < |r| ==> r[i] in events && r[i].collection == name && Passes(search, r[i])
      ensures forall i :: 0 <= i < |events| && events[i].collection == name && Passes(search, events[i]) ==> events[i] in r
      ensures forall e :: multiset(r)[e] == if e.collection == name && Passes(search, e) then multiset(events)[e] else 0
      ensures forall k :: 0 <= k <= |events| ==> WatchByFilter(events[..k], name, search) <= r
    {
      WatchByFilterContents(events, name, search);
      WatchByFilterCounts(events, name, search);
      WatchByFilterPrefixes(events, name, search);
      WatchByFilter(events, name, search)
    }
  }
}
