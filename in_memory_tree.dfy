/** The nested `Map` tree of `InMemoryConnection`
    (webscale-collection/src/datasource/in-memory.connection.ts) as a value: each collection's
    store is a folder whose entries are items (their JSON text; `JSON.stringify` and
    `JSON.parse` are the identity on items here) or nested folders. The connection's methods
    walk and rebuild it; the functions here say what each walk finds or produces. */
module InMemoryTree {
  import opened Wrappers
  import opened OrderedMap
  import opened Datasource

  datatype Node = Leaf(item: Item) | Folder(children: Entries<Node>)

  /** `getFromPath(scope, path)`: the node the path leads to, or `None` once a segment is
      missing or the walk meets an item with segments left. */
  function FromPath(scope: Node, path: seq<string>): Option<Node>
    decreases |path|
  {
    if path == [] then Some(scope)
    else if scope.Leaf? then None
    else match Get(scope.children, path[0])
      case None => None
      case Some(child) => FromPath(child, path[1..])
  }

  /** Walking `p + q` is walking `p`, then `q` from where `p` ended. */
  lemma {:induction false} FromPathAppend(scope: Node, p: seq<string>, q: seq<string>)
    ensures FromPath(scope, p + q) == match FromPath(scope, p) case None => None case Some(n) => FromPath(n, q)
    decreases |p|
  {
    if p == [] {
      assert p + q == q;
    } else {
      assert (p + q)[0] == p[0] && (p + q)[1..] == p[1..] + q;
      if scope.Folder? && Get(scope.children, p[0]).Some? {
        FromPathAppend(Get(scope.children, p[0]).value, p[1..], q);
      }
    }
  }

  /** How the loop of `saveForPath` ended: a segment held an item, or the item was stored and
      this was at the basename before. */
  datatype SaveOutcome = Conflict | Saved(previous: Option<Node>)

  /** `saveForPath` on the folder `scope`: each prefix segment is created as an empty folder
      when missing and descended into when it is a folder; an item there is a conflict. At the
      end the basename is set to the item. */
  function SaveIn(scope: Entries<Node>, prefix: seq<string>, basename: string, item: Item): (Entries<Node>, SaveOutcome)
    decreases |prefix|
  {
    if prefix == [] then (Set(scope, basename, Leaf(item)), Saved(Get(scope, basename)))
    else
      var child := Get(scope, prefix[0]);
      if child.Some? && child.value.Leaf? then (scope, Conflict)
      else
        var sub := if child.Some? then child.value.children else [];
        var inner := SaveIn(sub, prefix[1..], basename, item);
        (Set(scope, prefix[0], Folder(inner.0)), inner.1)
  }

  /** In folders that are created on the way nothing was stored before. */
  lemma {:induction false} SaveInEmpty(prefix: seq<string>, basename: string, item: Item)
    ensures SaveIn([], prefix, basename, item).1 == Saved(None)
    decreases |prefix|
  {
    if prefix != [] {
      SaveInEmpty(prefix[1..], basename, item);
    }
  }

  /** A conflict changes nothing: every folder on the way already existed. */
  lemma {:induction false} ConflictUnchanged(scope: Entries<Node>, prefix: seq<string>, basename: string, item: Item)
    requires SaveIn(scope, prefix, basename, item).1 == Conflict
    ensures SaveIn(scope, prefix, basename, item).0 == scope
    decreases |prefix|
  {
    var child := Get(scope, prefix[0]);
    if child.None? {
      SaveInEmpty(prefix[1..], basename, item);
    } else if child.value.Folder? {
      ConflictUnchanged(child.value.children, prefix[1..], basename, item);
      SetSame(scope, prefix[0], child.value);
    }
  }

  /** One step of a walk from a folder. */
  lemma FromPathStep(scope: Entries<Node>, path: seq<string>)
    requires path != []
    ensures FromPath(Folder(scope), path) ==
      var child := Get(scope, path[0]); if child.None? then None else FromPath(child.value, path[1..])
  {
  }

  /** The path leads to an item. */
  predicate LeafAt(scope: Entries<Node>, path: seq<string>)
  {
    var n := FromPath(Folder(scope), path);
    n.Some? && n.value.Leaf?
  }

  /** A non-empty prefix of `prefix` leads to an item. */
  predicate LeafOnPrefix(scope: Entries<Node>, prefix: seq<string>)
  {
    exists j :: 0 < j <= |prefix| && LeafAt(scope, prefix[..j])
  }

  /** A walk along a non-empty prefix of `prefix` goes through its first segment. */
  lemma PrefixStep(scope: Entries<Node>, prefix: seq<string>, j: int)
    requires 0 < j <= |prefix|
    ensures FromPath(Folder(scope), prefix[..j]) ==
      var child := Get(scope, prefix[0]); if child.None? then None else FromPath(child.value, prefix[1..][..j - 1])
  {
    assert prefix[..j][0] == prefix[0] && prefix[..j][1..] == prefix[1..][..j - 1];
    FromPathStep(scope, prefix[..j]);
  }

  /** A save conflicts exactly when an item lies on the way to the basename. */
  lemma {:induction false} ConflictIffLeafOnPrefix(scope: Entries<Node>, prefix: seq<string>, basename: string, item: Item)
    ensures SaveIn(scope, prefix, basename, item).1 == Conflict <==> LeafOnPrefix(scope, prefix)
    decreases |prefix|
  {
    if prefix != [] {
      var child := Get(scope, prefix[0]);
      if child.None? {
        SaveInEmpty(prefix[1..], basename, item);
        forall j | 0 < j <= |prefix|
          ensures !LeafAt(scope, prefix[..j])
        {
          PrefixStep(scope, prefix, j);
        }
      } else if child.value.Leaf? {
        PrefixStep(scope, prefix, 1);
        assert LeafAt(scope, prefix[..1]);
      } else {
        var sub := child.value.children;
        ConflictIffLeafOnPrefix(sub, prefix[1..], basename, item);
        assert SaveIn(scope, prefix, basename, item).1 == SaveIn(sub, prefix[1..], basename, item).1;
        LeafOnPrefixBelow(scope, prefix, sub);
      }
    }
  }

  /** Through a folder, an item lies on the way exactly when it lies on the way from the folder. */
  lemma LeafOnPrefixBelow(scope: Entries<Node>, prefix: seq<string>, sub: Entries<Node>)
    requires prefix != [] && Get(scope, prefix[0]) == Some(Folder(sub))
    ensures LeafOnPrefix(scope, prefix) <==> LeafOnPrefix(sub, prefix[1..])
  {
    if LeafOnPrefix(sub, prefix[1..]) {
      var j :| 0 < j <= |prefix[1..]| && LeafAt(sub, prefix[1..][..j]);
      PrefixStep(scope, prefix, j + 1);
      assert LeafAt(scope, prefix[..j + 1]);
    }
    if LeafOnPrefix(scope, prefix) {
      var j :| 0 < j <= |prefix| && LeafAt(scope, prefix[..j]);
      PrefixStep(scope, prefix, j);
      if j == 1 {
        assert prefix[1..][..0] == [];
      }
      assert LeafAt(sub, prefix[1..][..j - 1]);
    }
  }

  /** The children of the folder a path leads to, `[]` when it leads nowhere or to an item. */
  function FolderAt(scope: Entries<Node>, path: seq<string>): Entries<Node>
  {
    var n := FromPath(Folder(scope), path);
    if n.Some? && n.value.Folder? then n.value.children else []
  }

  /** A save that does not conflict puts the item at the path, and reports what was there. */
  lemma SaveAtLast(scope: Entries<Node>, prefix: seq<string>, b: string, item: Item)
    requires SaveIn(scope, prefix, b, item).1.Saved?
    ensures FromPath(Folder(SaveIn(scope, prefix, b, item).0), prefix + [b]) == Some(Leaf(item))
    ensures FromPath(Folder(scope), prefix + [b]) == SaveIn(scope, prefix, b, item).1.previous
  {
    var saved := SaveIn(scope, prefix, b, item);
    SaveInFolder(scope, prefix, b, item);
    LookupLast(scope, prefix, b);
    LookupLast(saved.0, prefix, b);
    assert FolderAt(saved.0, prefix) == Set(FolderAt(scope, prefix), b, Leaf(item));
  }

  /** A save that does not conflict leaves the folder at the prefix with the basename set to
      the item, and reports what the basename held in that folder before. */
  lemma {:induction false} SaveInFolder(scope: Entries<Node>, prefix: seq<string>, basename: string, item: Item)
    requires SaveIn(scope, prefix, basename, item).1.Saved?
    ensures FromPath(Folder(SaveIn(scope, prefix, basename, item).0), prefix) ==
      Some(Folder(Set(FolderAt(scope, prefix), basename, Leaf(item))))
    ensures SaveIn(scope, prefix, basename, item).1.previous == Get(FolderAt(scope, prefix), basename)
    decreases |prefix|
  {
    if prefix != [] {
      var child := Get(scope, prefix[0]);
      var sub := if child.Some? then child.value.children else [];
      var inner := SaveIn(sub, prefix[1..], basename, item);
      assert SaveIn(scope, prefix, basename, item) == (Set(scope, prefix[0], Folder(inner.0)), inner.1);
      SaveInFolder(sub, prefix[1..], basename, item);
      FromPathStep(scope, prefix);
      FromPathStep(Set(scope, prefix[0], Folder(inner.0)), prefix);
      if child.None? {
        assert FolderAt(scope, prefix) == [];
        if prefix[1..] != [] {
          FromPathStep([], prefix[1..]);
        }
        assert FolderAt(sub, prefix[1..]) == [];
      } else {
        assert FolderAt(sub, prefix[1..]) == FolderAt(scope, prefix);
      }
    }
  }

  /** The item a walk ends at, if it ends at one. */
  function ItemOf(n: Option<Node>): Option<Item>
  {
    if n.Some? && n.value.Leaf? then Some(n.value.item) else None
  }

  /** What a walk to `prefix + [b]` finds is what `b` holds in the folder at `prefix`. */
  lemma LookupLast(scope: Entries<Node>, prefix: seq<string>, b: string)
    ensures FromPath(Folder(scope), prefix + [b]) == Get(FolderAt(scope, prefix), b)
  {
    FromPathAppend(Folder(scope), prefix, [b]);
    var n := FromPath(Folder(scope), prefix);
    if n.Some? {
      if n.value.Folder? {
        FromPathStep(n.value.children, [b]);
        assert [b][1..] == [];
      }
    }
  }

  /** A walk that reaches something meets no item on the way. */
  lemma ReachableNotBlocked(scope: Entries<Node>, prefix: seq<string>, b: string)
    requires FromPath(Folder(scope), prefix + [b]).Some?
    ensures !LeafOnPrefix(scope, prefix)
  {
    if LeafOnPrefix(scope, prefix) {
      var j :| 0 < j <= |prefix| && LeafAt(scope, prefix[..j]);
      assert prefix + [b] == prefix[..j] + (prefix[j..] + [b]);
      FromPathAppend(Folder(scope), prefix[..j], prefix[j..] + [b]);
      assert false;
    }
  }

  /** `ReplaceAt(scope, prefix, f)`: the tree with the children of the folder at `prefix` (the
      `Map` that `deleteForPath` changes in place) replaced by `f`. */
  function ReplaceAt(scope: Entries<Node>, prefix: seq<string>, f: Entries<Node>): Entries<Node>
    decreases |prefix|
  {
    if prefix == [] then f
    else
      var child := Get(scope, prefix[0]);
      if child.Some? && child.value.Folder? then
        Set(scope, prefix[0], Folder(ReplaceAt(child.value.children, prefix[1..], f)))
      else scope
  }

  /** Prefixes of two sequences with the same head compare like their tails. */
  lemma PrefixTail<T>(p: seq<T>, q: seq<T>)
    requires p != [] && q != [] && p[0] == q[0]
    ensures p <= q <==> p[1..] <= q[1..]
    ensures q < p <==> q[1..] < p[1..]
    ensures p <= q ==> q[|p|..] == q[1..][|p[1..]|..]
  {
    assert p == [p[0]] + p[1..] && q == [q[0]] + q[1..];
  }

  /** After replacing the folder at `prefix`: walks through it see the new children, walks to
      a folder above it still find a folder, and every other walk is unchanged. */
  lemma {:induction false} ReplaceAtLookup(scope: Entries<Node>, prefix: seq<string>, f: Entries<Node>, q: seq<string>)
    requires FromPath(Folder(scope), prefix).Some? && FromPath(Folder(scope), prefix).value.Folder?
    ensures prefix <= q ==> FromPath(Folder(ReplaceAt(scope, prefix, f)), q) == FromPath(Folder(f), q[|prefix|..])
    ensures q < prefix ==>
      FromPath(Folder(ReplaceAt(scope, prefix, f)), q).Some? && FromPath(Folder(ReplaceAt(scope, prefix, f)), q).value.Folder?
    ensures !(prefix <= q) && !(q < prefix) ==>
      FromPath(Folder(ReplaceAt(scope, prefix, f)), q) == FromPath(Folder(scope), q)
    decreases |prefix|
  {
    if prefix != [] {
      var child := Get(scope, prefix[0]).value;
      FromPathStep(scope, prefix);
      assert child.Folder?;
      var inner := ReplaceAt(child.children, prefix[1..], f);
      var r := ReplaceAt(scope, prefix, f);
      assert r == Set(scope, prefix[0], Folder(inner));
      if q != [] {
        FromPathStep(r, q);
        if q[0] == prefix[0] {
          assert FromPath(Folder(r), q) == FromPath(Folder(inner), q[1..]);
          ReplaceAtLookup(child.children, prefix[1..], f, q[1..]);
          PrefixTail(prefix, q);
        } else {
          FromPathStep(scope, q);
          assert Get(r, q[0]) == Get(scope, q[0]);
          assert !(prefix <= q) && !(q < prefix);
        }
      }
    }
  }

  /** One step of `deleteFolder`'s walk: `last`, looked up alone from the root, names the
      parent, and `basename` is deleted from it when it is an empty folder. `None` when the
      walk stops there: the parent is not a folder or the folder is not empty. */
  function PruneStep(root: Entries<Node>, last: string, basename: string): Option<Entries<Node>>
  {
    var parent := FromPath(Folder(root), [last]);
    if parent.None? || parent.value.Leaf? then None
    else
      var folder := Get(parent.value.children, basename);
      if folder.Some? && folder.value.Folder? then
        if folder.value.children == [] then Some(ReplaceAt(root, [last], Remove(parent.value.children, basename)))
        else None
      else Some(root)
  }

  /** What `deleteFolder(collection, segments)` leaves: while two segments or more are left,
      the last one is cut off and a step is taken with it and the new last one. */
  function Pruned(root: Entries<Node>, segments: seq<string>): Entries<Node>
    decreases |segments|
  {
    if |segments| <= 1 then root
    else
      var rest := segments[..|segments| - 1];
      match PruneStep(root, segments[|segments| - 1], rest[|rest| - 1])
      case None => root
      case Some(next) => Pruned(next, rest)
  }

  /** The walk with two segments or more takes one step with the last two, and stops there
      or goes on with the last segment cut off. */
  lemma PrunedStep(root: Entries<Node>, segments: seq<string>)
    requires |segments| >= 2
    ensures var step := PruneStep(root, segments[|segments| - 1], segments[|segments| - 2]);
      Pruned(root, segments) == if step.None? then root else Pruned(step.value, segments[..|segments| - 1])
  {
    var rest := segments[..|segments| - 1];
    assert rest[|rest| - 1] == segments[|segments| - 2];
  }

  /** Deleting `b` from the folder at `prefix` leaves that folder in place, without `b`. */
  lemma RemoveFromFolder(scope: Entries<Node>, prefix: seq<string>, b: string)
    requires FromPath(Folder(scope), prefix).Some? && FromPath(Folder(scope), prefix).value.Folder?
    ensures var after := ReplaceAt(scope, prefix, Remove(FolderAt(scope, prefix), b));
      FromPath(Folder(after), prefix) == Some(Folder(Remove(FolderAt(scope, prefix), b))) &&
      FromPath(Folder(after), prefix + [b]) == None
  {
    var rest := Remove(FolderAt(scope, prefix), b);
    var after := ReplaceAt(scope, prefix, rest);
    ReplaceAtLookup(scope, prefix, rest, prefix);
    assert prefix[|prefix|..] == [];
    LookupLast(after, prefix, b);
  }

  /** Deleting the item `b` from the folder at `prefix` leaves every other walk finding the
      same item (or none). */
  lemma RemoveKeepsOtherItems(scope: Entries<Node>, prefix: seq<string>, b: string, q: seq<string>)
    requires FromPath(Folder(scope), prefix).Some? && FromPath(Folder(scope), prefix).value.Folder?
    requires Get(FolderAt(scope, prefix), b).Some? ==> Get(FolderAt(scope, prefix), b).value.Leaf?
    requires q != prefix + [b]
    ensures ItemOf(FromPath(Folder(ReplaceAt(scope, prefix, Remove(FolderAt(scope, prefix), b))), q)) ==
      ItemOf(FromPath(Folder(scope), q))
  {
    var children := FolderAt(scope, prefix);
    var rest := Remove(children, b);
    var after := ReplaceAt(scope, prefix, rest);
    if prefix <= q {
      var q' := q[|prefix|..];
      assert FromPath(Folder(after), q) == FromPath(Folder(rest), q') by {
        ReplaceAtLookup(scope, prefix, rest, q);
      }
      assert FromPath(Folder(scope), q) == FromPath(Folder(children), q') by {
        assert q == prefix + q';
        FromPathAppend(Folder(scope), prefix, q');
      }
      assert q' != [b];
      RemoveKeepsOtherWalks(children, b, q');
    } else if q < prefix {
      assert ItemOf(FromPath(Folder(after), q)) == None by {
        ReplaceAtLookup(scope, prefix, rest, q);
      }
      assert ItemOf(FromPath(Folder(scope), q)) == None by {
        var tail := prefix[|q|..];
        assert prefix == q + tail && tail != [];
        FromPathAppend(Folder(scope), q, tail);
      }
    } else {
      ReplaceAtLookup(scope, prefix, rest, q);
    }
  }

  /** Removing the item `b` from a folder changes no walk from it other than the one to `b`. */
  lemma RemoveKeepsOtherWalks(children: Entries<Node>, b: string, q: seq<string>)
    requires Get(children, b).Some? ==> Get(children, b).value.Leaf?
    requires q != [b]
    ensures ItemOf(FromPath(Folder(Remove(children, b)), q)) == ItemOf(FromPath(Folder(children), q))
  {
    if q != [] {
      FromPathStep(Remove(children, b), q);
      FromPathStep(children, q);
      if q[0] == b {
        assert q[1..] != [];
      }
    }
  }

  /** Deleting the item at `prefix + [b]`: its folder stays at `prefix` without `b` (so it is
      empty exactly when no key is left), the item is gone, and every other walk finds the
      same item as before. */
  lemma DeleteLeaf(root: Entries<Node>, prefix: seq<string>, b: string, q: seq<string>)
    requires ItemOf(FromPath(Folder(root), prefix + [b])).Some?
    ensures FromPath(Folder(root), prefix).Some? && FromPath(Folder(root), prefix).value.Folder?
    ensures Get(FolderAt(root, prefix), b).Some? && Get(FolderAt(root, prefix), b).value.Leaf?
    ensures var rest := Remove(FolderAt(root, prefix), b);
      var after := ReplaceAt(root, prefix, rest);
      FromPath(Folder(after), prefix) == Some(Folder(rest)) &&
      (Keys(rest) == [] <==> rest == []) &&
      FromPath(Folder(after), prefix + [b]) == None &&
      (q != prefix + [b] ==> ItemOf(FromPath(Folder(after), q)) == ItemOf(FromPath(Folder(root), q)))
  {
    FromPathAppend(Folder(root), prefix, [b]);
    LookupLast(root, prefix, b);
    RemoveFromFolder(root, prefix, b);
    if q != prefix + [b] {
      RemoveKeepsOtherItems(root, prefix, b, q);
    }
  }
}
