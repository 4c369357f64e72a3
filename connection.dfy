/** What every connection shares (webscale-collection/src/datasource/connection.ts and
    datasource.event.ts): items, the events a datasource emits, and `watchByFilter`. An item or
    a filter is a flat object of string fields; an absent field reads as `undefined`. */
module Datasource {
  import opened Wrappers
  import OrderedMap

  type Item = map<string, string>

  datatype EventType = Created | Updated | Deleted

  /** `DatasourceEvent`: `before`/`after` are `None` when `undefined`. */
  datatype DatasourceEvent = DatasourceEvent(kind: EventType, id: string, collection: string, before: Option<Item>, after: Option<Item>)

  /** The part of a `Collection` a connection reads: its name and its key fields. */
  datatype CollectionKey = CollectionKey(name: string, parentPrimaryFields: seq<string>, primaryFields: seq<string>)

  /** `item[field] === search[field]` for every field of the search. */
  predicate AgreesOn(candidate: Item, search: Item)
  {
    forall field :: field in search ==> field in candidate && candidate[field] == search[field]
  }

  /** The filter of `watchByFilter`: no search passes everything; otherwise the search is
      compared with `before` when there is one (and `after` is ignored), else with `after`,
      and an event with neither is rejected. */
  predicate Passes(search: Option<Item>, event: DatasourceEvent)
    ensures search.None? ==> Passes(search, event)
    ensures search.Some? && event.before.Some? ==> (Passes(search, event) <==> AgreesOn(event.before.value, search.value))
    ensures event.before.None? && event.after.None? ==> (Passes(search, event) <==> search.None?)
  {
    if search.None? then true
    else if event.before.Some? then AgreesOn(event.before.value, search.value)
    else if event.after.Some? then AgreesOn(event.after.value, search.value)
    else false
  }

  /** `watch(collection)` of the in-memory connection followed by the filter: the events of that
      collection that pass, in order. */
  function WatchByFilter(events: seq<DatasourceEvent>, collection: string, search: Option<Item>): (r: seq<DatasourceEvent>)
    ensures |r| <= |events|
    decreases |events|
  {
    if events == [] then []
    else
      var head := if events[0].collection == collection && Passes(search, events[0]) then [events[0]] else [];
      head + WatchByFilter(events[1..], collection, search)
  }

  /** What the filter passes: only events of the collection that pass, and every such event. */
  lemma {:induction false} WatchByFilterContents(events: seq<DatasourceEvent>, collection: string, search: Option<Item>)
    ensures var r := WatchByFilter(events, collection, search);
      (forall i :: 0 <= i < |r| ==> r[i] in events && r[i].collection == collection && Passes(search, r[i])) &&
      (forall i :: 0 <= i < |events| && events[i].collection == collection && Passes(search, events[i]) ==> events[i] in r)
    decreases |events|
  {
    if events != [] {
      WatchByFilterContents(events[1..], collection, search);
      var rest := WatchByFilter(events[1..], collection, search);
      var head := if events[0].collection == collection && Passes(search, events[0]) then [events[0]] else [];
      var r := WatchByFilter(events, collection, search);
      assert r == head + rest;
      forall i | 0 <= i < |r|
        ensures r[i] in events && r[i].collection == collection && Passes(search, r[i])
      {
        if i >= |head| {
          assert r[i] == rest[i - |head|] && rest[i - |head|] in events[1..];
        }
      }
      forall i | 0 <= i < |events| && events[i].collection == collection && Passes(search, events[i])
        ensures events[i] in r
      {
        if i > 0 {
          assert events[i] == events[1..][i - 1];
        }
      }
    }
  }

  /** Each passing event is seen as many times as the stream holds it; no other event is seen. */
  lemma {:induction false} WatchByFilterCounts(events: seq<DatasourceEvent>, collection: string, search: Option<Item>)
    ensures forall e ::
      multiset(WatchByFilter(events, collection, search))[e] == (if e.collection == collection && Passes(search, e) then multiset(events)[e] else 0)
    decreases |events|
  {
    if events != [] {
      WatchByFilterCounts(events[1..], collection, search);
      assert events == [events[0]] + events[1..];
      assert multiset(events) == multiset{events[0]} + multiset(events[1..]);
    }
  }

  /** The first event is judged first. */
  lemma WatchByFilterCons(x: DatasourceEvent, s: seq<DatasourceEvent>, collection: string, search: Option<Item>)
    ensures WatchByFilter([x] + s, collection, search) ==
      (if x.collection == collection && Passes(search, x) then [x] else []) + WatchByFilter(s, collection, search)
  {
    assert ([x] + s)[0] == x && ([x] + s)[1..] == s;
  }

  /** The filter keeps the order of the stream: what it passes of events emitted one after the
      other is what it passes of the first ones, followed by what it passes of the later ones. */
  lemma {:induction false} WatchByFilterAppend(a: seq<DatasourceEvent>, b: seq<DatasourceEvent>, collection: string, search: Option<Item>)
    ensures WatchByFilter(a + b, collection, search) == WatchByFilter(a, collection, search) + WatchByFilter(b, collection, search)
    decreases |a|
  {
    if a != [] {
      var x, tail := a[0], a[1..];
      assert a == [x] + tail;
      assert a + b == [x] + (tail + b);
      WatchByFilterCons(x, tail, collection, search);
      WatchByFilterCons(x, tail + b, collection, search);
      WatchByFilterAppend(tail, b, collection, search);
      var head := if x.collection == collection && Passes(search, x) then [x] else [];
      OrderedMap.AppendAssoc(head, WatchByFilter(tail, collection, search), WatchByFilter(b, collection, search));
    } else {
      assert a + b == b;
    }
  }

  /** One more event: it is seen after everything seen before, exactly when it passes. */
  lemma WatchByFilterSnoc(events: seq<DatasourceEvent>, e: DatasourceEvent, collection: string, search: Option<Item>)
    ensures WatchByFilter(events + [e], collection, search) ==
      WatchByFilter(events, collection, search) + (if e.collection == collection && Passes(search, e) then [e] else [])
  {
    WatchByFilterAppend(events, [e], collection, search);
    assert [e][1..] == [];
  }

  /** What a subscriber has been shown at any earlier point is a prefix of what it is shown now. */
  lemma WatchByFilterPrefixes(events: seq<DatasourceEvent>, collection: string, search: Option<Item>)
    ensures forall k :: 0 <= k <= |events| ==> WatchByFilter(events[..k], collection, search) <= WatchByFilter(events, collection, search)
  {
    forall k | 0 <= k <= |events|
      ensures WatchByFilter(events[..k], collection, search) <= WatchByFilter(events, collection, search)
    {
      assert events == events[..k] + events[k..];
      WatchByFilterAppend(events[..k], events[k..], collection, search);
    }
  }

  /** With a search, an event is judged by `before` alone whenever `before` is present. */
  lemma BeforeDecides(search: Item, before: Item, after1: Option<Item>, after2: Option<Item>, kind: EventType, id: string, c: string)
    ensures Passes(Some(search), DatasourceEvent(kind, id, c, Some(before), after1)) ==
            Passes(Some(search), DatasourceEvent(kind, id, c, Some(before), after2))
    ensures Passes(Some(search), DatasourceEvent(kind, id, c, Some(before), after1)) <==>
            forall field :: field in search ==> field in before && before[field] == search[field]
  {
  }

  /** The empty search `{}` passes exactly the events that have `before` or `after`. */
  lemma EmptySearch(event: DatasourceEvent)
    ensures Passes(Some(map[]), event) <==> event.before.Some? || event.after.Some?
  {
  }

  /** A search that disagrees with `before` rejects the event even when `after` agrees. */
  lemma StaleBeforeRejects()
    ensures !Passes(Some(map["ownerId" := "b"]),
      DatasourceEvent(Updated, "p", "projects", Some(map["ownerId" := "a"]), Some(map["ownerId" := "b"])))
  {
    var before := map["ownerId" := "a"];
    assert before["ownerId"] != "b";
  }
}
