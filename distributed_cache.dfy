/** `DistributedCache` (webscale-cache/src/distributed-cache.ts): a `LocalCache` whose puts and
    evicts are also sent to one `Peer` per other server, and which applies the PUT and EVICT
    messages other servers send it. The TCP server is the flag `serverOpen` and the incoming
    sockets are the counter `incoming`; socket events are methods. */
module DistributedCaching {
  import opened Wrappers
  import opened JsValues
  import opened OrderedMap
  import opened LocalCaching
  import opened CacheMessages
  import opened Peers

  /** No object occurs twice. */
  predicate Distinct<T(==)>(s: seq<T>)
  {
    forall i, j :: 0 <= i < j < |s| ==> s[i] != s[j]
  }

  /** `peers.findIndex(peer => peer.server.name === name)`: the first match, or -1. */
  function FindIndex(peers: seq<Peer>, name: string): (i: int)
    ensures -1 <= i < |peers|
    ensures i >= 0 ==> peers[i].server.name == name
    ensures i >= 0 ==> forall j :: 0 <= j < i ==> peers[j].server.name != name
    ensures i == -1 <==> forall j :: 0 <= j < |peers| ==> peers[j].server.name != name
    decreases |peers|
  {
    if peers == [] then -1
    else if peers[0].server.name == name then 0
    else
      var k := FindIndex(peers[1..], name);
      if k == -1 then -1 else k + 1
  }

  /** Where `splice(index, 1)` starts: a negative index counts from the end, and clamps at 0. */
  function SpliceStart(length: nat, index: int): nat
  {
    if index >= 0 then index else if length + index < 0 then 0 else length + index
  }

  /** `s.splice(index, 1)`: the remaining elements, and the removed one (`[0]` of the returned
      array), if any. */
  function Splice<T>(s: seq<T>, index: int): (r: (seq<T>, Option<T>))
  {
    var k := SpliceStart(|s|, index);
    if k < |s| then (s[..k] + s[k + 1..], Some(s[k])) else (s, None)
  }

  /** The removal loop of the change listener: for each removed server in order, the peer at
      `findIndex` is spliced out. Returns the remaining peers and the removed ones, in order. */
  function RemoveServers(peers: seq<Peer>, removed: seq<Server>): (r: (seq<Peer>, seq<Peer>))
    decreases |removed|
  {
    if removed == [] then (peers, [])
    else
      var (rest, gone) := RemoveServers(peers, removed[..|removed| - 1]);
      var (after, out) := Splice(rest, FindIndex(rest, removed[|removed| - 1].name));
      (after, gone + (if out.Some? then [out.value] else []))
  }

  /** One more removed server: the peer `findIndex` finds among the remaining ones is spliced
      out and, when there is one, added to the removed peers. */
  lemma RemoveServersStep(peers: seq<Peer>, removed: seq<Server>, i: nat)
    requires i < |removed|
    ensures var (rest, gone) := RemoveServers(peers, removed[..i]);
      var (after, out) := Splice(rest, FindIndex(rest, removed[i].name));
      RemoveServers(peers, removed[..i + 1]) == (after, if out.Some? then gone + [out.value] else gone)
  {
    assert removed[..i + 1][..i] == removed[..i];
    var (rest, gone) := RemoveServers(peers, removed[..i]);
    assert gone + [] == gone;
  }

  /** Splicing removes exactly one element, when there is one, and keeps the others in order. */
  lemma SplicePartitions<T>(s: seq<T>, index: int)
    ensures var (rest, out) := Splice(s, index);
      multiset(rest) + (if out.Some? then multiset{out.value} else multiset{}) == multiset(s) &&
      (out.None? <==> SpliceStart(|s|, index) >= |s|)
  {
    var k := SpliceStart(|s|, index);
    if k < |s| {
      assert s == s[..k] + [s[k]] + s[k + 1..];
    }
  }

  /** Splicing a list without repetitions gives one without repetitions that lacks the removed
      element. */
  lemma SpliceDistinct<T>(s: seq<T>, index: int)
    requires Distinct(s)
    ensures var (rest, out) := Splice(s, index);
      Distinct(rest) && (forall x :: x in rest ==> x in s) && (out.Some? ==> out.value in s && out.value !in rest)
  {
    var k := SpliceStart(|s|, index);
    if k < |s| {
      var rest := s[..k] + s[k + 1..];
      assert forall a :: 0 <= a < |rest| ==> rest[a] == s[if a < k then a else a + 1];
    }
  }

  /** `findIndex` finds the first match. */
  lemma FirstMatchFound(peers: seq<Peer>, name: string, i: nat)
    requires i < |peers| && peers[i].server.name == name
    requires forall j :: 0 <= j < i ==> peers[j].server.name != name
    ensures FindIndex(peers, name) == i
  {
    var k := FindIndex(peers, name);
    assert k != -1;
    assert !(k < i) && !(k > i);
  }

  /** Splicing at an index inside the sequence takes out the element there. */
  lemma SpliceAt<T>(s: seq<T>, i: nat)
    requires i < |s|
    ensures Splice(s, i) == (s[..i] + s[i + 1..], Some(s[i]))
  {
  }

  /** Removing one server splices out what `findIndex` finds for it. */
  lemma RemoveOneServer(peers: seq<Peer>, server: Server)
    ensures var (after, out) := Splice(peers, FindIndex(peers, server.name));
      RemoveServers(peers, [server]) == (after, if out.Some? then [out.value] else [])
  {
    assert [server][..0] == [];
    assert RemoveServers(peers, []) == (peers, []);
    var (after, out) := Splice(peers, FindIndex(peers, server.name));
    var last := if out.Some? then [out.value] else [];
    assert RemoveServers(peers, [server]) == (after, [] + last);
    assert [] + last == last;
  }

  /** An unknown server removes the LAST peer: `findIndex` gives -1 and `splice(-1, 1)` takes
      the final element. */
  lemma UnknownServerDropsLast(peers: seq<Peer>, server: Server)
    requires |peers| > 0
    requires forall j :: 0 <= j < |peers| ==> peers[j].server.name != server.name
    ensures RemoveServers(peers, [server]) == (peers[..|peers| - 1], [peers[|peers| - 1]])
  {
    RemoveOneServer(peers, server);
    assert FindIndex(peers, server.name) == -1;
    var n := |peers|;
    assert SpliceStart(n, -1) == n - 1;
    assert peers[..n - 1] + peers[n..] == peers[..n - 1];
    assert Splice(peers, -1) == (peers[..n - 1], Some(peers[n - 1]));
  }

  /** A known server removes the first peer with that name. */
  lemma KnownServerDropsFirstMatch(peers: seq<Peer>, server: Server, i: nat)
    requires i < |peers| && peers[i].server.name == server.name
    requires forall j :: 0 <= j < i ==> peers[j].server.name != server.name
    ensures RemoveServers(peers, [server]) == (peers[..i] + peers[i + 1..], [peers[i]])
  {
    FirstMatchFound(peers, server.name, i);
    SpliceAt(peers, i);
    RemoveOneServer(peers, server);
  }

  /** The removal loop loses no peer and invents none: the remaining and removed peers together
      are the peers it started with. */
  lemma {:induction false} RemoveServersPartitions(peers: seq<Peer>, removed: seq<Server>)
    ensures var (after, gone) := RemoveServers(peers, removed);
      multiset(after) + multiset(gone) == multiset(peers) && |gone| <= |removed|
    decreases |removed|
  {
    if removed != [] {
      var (rest, gone) := RemoveServers(peers, removed[..|removed| - 1]);
      RemoveServersPartitions(peers, removed[..|removed| - 1]);
      SplicePartitions(rest, FindIndex(rest, removed[|removed| - 1].name));
    }
  }

  /** With peers present, every removed server takes one peer with it, whichever its name. */
  lemma {:induction false} EveryRemovalTakesAPeer(peers: seq<Peer>, removed: seq<Server>)
    requires |removed| <= |peers|
    ensures |RemoveServers(peers, removed).1| == |removed|
    ensures |RemoveServers(peers, removed).0| == |peers| - |removed|
    decreases |removed|
  {
    if removed != [] {
      var (rest, gone) := RemoveServers(peers, removed[..|removed| - 1]);
      EveryRemovalTakesAPeer(peers, removed[..|removed| - 1]);
      var k := FindIndex(rest, removed[|removed| - 1].name);
      assert SpliceStart(|rest|, k) < |rest|;
    }
  }

  /** Removing servers from peers without repetitions leaves remaining and removed peers
      without repetitions, taken from the original peers, and no peer in both. */
  lemma {:induction false} RemoveServersDistinct(peers: seq<Peer>, removed: seq<Server>)
    requires Distinct(peers)
    ensures var (after, gone) := RemoveServers(peers, removed);
      Distinct(after) && Distinct(gone) && (forall p :: p in after ==> p in peers) &&
      (forall p :: p in gone ==> p in peers && p !in after)
    decreases |removed|
  {
    if removed != [] {
      var i := |removed| - 1;
      assert removed[..i + 1] == removed;
      RemoveServersDistinct(peers, removed[..i]);
      RemoveServersStep(peers, removed, i);
      var (rest, gone) := RemoveServers(peers, removed[..i]);
      SpliceDistinct(rest, FindIndex(rest, removed[i].name));
    }
  }

  /** The removal loop of the change listener on the list of peers: for each removed server
      in order, the peer `findIndex` finds is spliced out. */
  method SpliceServers(peers: seq<Peer>, removed: seq<Server>) returns (rest: seq<Peer>, gone: seq<Peer>)
    ensures (rest, gone) == RemoveServers(peers, removed)
  {
    rest, gone := peers, [];
    var i := 0;
    while i < |removed|
      invariant 0 <= i <= |removed|
      invariant (rest, gone) == RemoveServers(peers, removed[..i])
    {
      RemoveServersStep(peers, removed, i);
      var index := FindIndex(rest, removed[i].name);
      var out;
      rest, out := Splice(rest, index).0, Splice(rest, index).1;
      if out.Some? {
        gone := gone + [out.value];
      }
      i := i + 1;
    }
    assert removed[..i] == removed;
  }

  /** `removedPeer.close()` for each removed peer, in order. */
  method CloseAll(gone: seq<Peer>)
    requires Distinct(gone) && forall p :: p in gone ==> p.Valid()
    modifies gone
    ensures forall p :: p in gone ==> p.closed && p.Valid()
    ensures forall p :: p in gone ==> p.connected == old(p.connected) && p.Queued() == old(p.Queued()) && p.written == old(p.written)
  {
    var j := 0;
    while j < |gone|
      invariant 0 <= j <= |gone|
      invariant forall k :: 0 <= k < j ==> gone[k].closed && gone[k].Valid()
      invariant forall k :: 0 <= k < |gone| ==>
        gone[k].connected == old(gone[k].connected) && gone[k].Queued() == old(gone[k].Queued()) && gone[k].written == old(gone[k].written)
      invariant forall k :: j <= k < |gone| ==> unchanged(gone[k])
    {
      gone[j].Close();
      j := j + 1;
    }
  }

  /** The indices of the connected peers. */
  ghost function ConnectedIndices(ps: seq<Peer>): set<int>
    reads ps
  {
    set j | 0 <= j < |ps| && ps[j].connected
  }

  /** Number of connected peers: the length of `peers.filter(peer => peer.connected)`. */
  function ConnectedCount(ps: seq<Peer>): (n: nat)
    reads ps
    ensures n == |ConnectedIndices(ps)|
    ensures n <= |ps|
    ensures n == 0 <==> forall j :: 0 <= j < |ps| ==> !ps[j].connected
    ensures n == |ps| <==> forall j :: 0 <= j < |ps| ==> ps[j].connected
    decreases |ps|
  {
    if ps == [] then 0
    else
      var init := ps[..|ps| - 1];
      ConnectedIndicesSnoc(ps);
      ConnectedCount(init) + (if ps[|ps| - 1].connected then 1 else 0)
  }

  /** The connected indices of a list are those of the list without its last peer, plus the
      last index when that peer is connected. */
  lemma ConnectedIndicesSnoc(ps: seq<Peer>)
    requires ps != []
    ensures ConnectedIndices(ps) ==
      ConnectedIndices(ps[..|ps| - 1]) + (if ps[|ps| - 1].connected then {|ps| - 1} else {})
    ensures |ps| - 1 !in ConnectedIndices(ps[..|ps| - 1])
  {
  }

  /** A peer whose queue is as its constructor leaves it: nothing queued, nothing written,
      and not closed. */
  predicate Idle(p: Peer)
    reads p
  {
    !p.closed && p.active == None && p.buffered == [] && p.waiting == None && p.written == []
  }

  /** `receivePut`'s test: no entry yet, or one stamped earlier than the message. */
  predicate AcceptsPut(existing: Option<Entry<Value>>, time: int)
  {
    existing.None? || existing.value.time < time
  }

  /** `receiveEvict`'s test: an entry stamped earlier than the message. */
  predicate AcceptsEvict(existing: Option<Entry<Value>>, time: int)
  {
    existing.Some? && existing.value.time < time
  }

  /** The local cache's storage and `lastGC` after handling an accepted message at local time
      `now`; a failed put is only logged. */
  function Received(s: Entries<Entry<Value>>, lastGC: Option<int>, settings: Settings, msg: Message, now: int)
    : (r: (Entries<Entry<Value>>, Option<int>))
    ensures var existing := OrderedMap.Get(s, msg.key);
      var accepted := if msg.PutMsg? then AcceptsPut(existing, msg.time) else AcceptsEvict(existing, msg.time);
      (!accepted ==> r == (s, lastGC)) &&
      (msg.EvictMsg? ==> r.1 == lastGC) &&
      (msg.EvictMsg? && accepted ==>
        OrderedMap.Get(r.0, msg.key) == None && forall k :: k != msg.key ==> OrderedMap.Get(r.0, k) == OrderedMap.Get(s, k))
  {
    var existing := OrderedMap.Get(s, msg.key);
    match msg
    case PutMsg(time, key, value, timeout) =>
      if AcceptsPut(existing, time) then
        var (after, gc, _) := PutOutcome(s, lastGC, settings, key, value, timeout, now);
        (after, gc)
      else (s, lastGC)
    case EvictMsg(time, key) =>
      if AcceptsEvict(existing, time) then (Remove(s, key), lastGC) else (s, lastGC)
  }

  /** A message not newer than the stored entry changes nothing; an EVICT for a key the cache
      does not hold changes nothing either, so an EVICT that overtakes its PUT is lost. */
  lemma StaleMessagesIgnored(s: Entries<Entry<Value>>, lastGC: Option<int>, settings: Settings, msg: Message, now: int)
    requires msg.EvictMsg? || (Has(s, msg.key) && OrderedMap.Get(s, msg.key).value.time >= msg.time)
    requires msg.EvictMsg? ==> !Has(s, msg.key) || OrderedMap.Get(s, msg.key).value.time >= msg.time
    ensures Received(s, lastGC, settings, msg, now) == (s, lastGC)
  {
  }

  /** An accepted EVICT removes that key and keeps the others. */
  lemma AcceptedEvictRemoves(s: Entries<Entry<Value>>, lastGC: Option<int>, settings: Settings, time: int, key: string, other: string)
    requires Unique(s) && other != key
    requires AcceptsEvict(OrderedMap.Get(s, key), time)
    ensures var (after, gc) := Received(s, lastGC, settings, EvictMsg(time, key), 0);
      !Has(after, key) && OrderedMap.Get(after, other) == OrderedMap.Get(s, other) && gc == lastGC && Unique(after)
  {
    RemoveUnique(s, key);
  }

  /** An accepted PUT is stored under the RECEIVER's clock `now`, not the sender's time, when
      the cache has room; the same message delivered again is then accepted exactly when the
      receiver's clock was behind the sender's. */
  lemma AcceptedPutRestamped(s: Entries<Entry<Value>>, lastGC: Option<int>, settings: Settings, msg: Message, now: int, later: int)
    requires Unique(s) && msg.PutMsg? && AcceptsPut(OrderedMap.Get(s, msg.key), msg.time)
    requires !(|s| as real > Threshold(settings)) && |s| < settings.limit
    ensures var (after, gc) := Received(s, lastGC, settings, msg, now);
      var stored := OrderedMap.Get(after, msg.key);
      gc == lastGC && stored.Some? && stored.value.value == msg.value && stored.value.time == now &&
      (AcceptsPut(stored, msg.time) <==> now < msg.time)
  {
    var other := if msg.key == "" then "x" else "";
    PutOutcomeMeaning(s, lastGC, settings, msg.key, msg.value, msg.timeout, now, other);
  }

  /** Appending an element that does not occur keeps a sequence without repetitions. */
  lemma DistinctSnoc<T>(s: seq<T>, x: T)
    requires Distinct(s) && x !in s
    ensures Distinct(s + [x])
  {
  }

  /** `servers.map(server => new Peer(server))`. */
  method NewPeers(servers: seq<Server>) returns (ps: seq<Peer>)
    ensures |ps| == |servers| && Distinct(ps)
    ensures forall i :: 0 <= i < |ps| ==> fresh(ps[i]) && ps[i].server == servers[i] && Idle(ps[i]) && !ps[i].connected
  {
    ps := [];
    var i := 0;
    while i < |servers|
      invariant 0 <= i <= |servers| && |ps| == i
      invariant forall j :: 0 <= j < i ==> fresh(ps[j]) && ps[j].server == servers[j] && Idle(ps[j]) && !ps[j].connected
      invariant Distinct(ps)
    {
      var p := new Peer(servers[i]);
      DistinctSnoc(ps, p);
      ps := ps + [p];
      i := i + 1;
    }
  }

  class DistributedCache {
    const localCache: LocalCache<Value>
    var peers: seq<Peer>
    /** Whether `this.server` is set; `close()` never clears it. */
    var serverOpen: bool
    /** `incommingConnections`. */
    var incoming: int

    predicate Valid()
      reads this, localCache, peers
    {
      localCache.Valid() && PeersValid()
    }

    /** The peers are distinct objects, each with a consistent queue. */
    predicate PeersValid()
      reads this, peers
    {
      Distinct(peers) && forall p :: p in peers ==> p.Valid()
    }

    /** The constructor: a `LocalCache` with default options and one new peer per server. */
    constructor(servers: seq<Server>)
      ensures Valid() && fresh(localCache)
      ensures localCache.settings == WithDefaults(CacheOptions(None, None, None, None)) && localCache.storage == []
      ensures |peers| == |servers|
      ensures forall i :: 0 <= i < |peers| ==> fresh(peers[i]) && peers[i].server == servers[i] && Idle(peers[i])
      ensures !serverOpen && incoming == 0
    {
      localCache := new LocalCache(CacheOptions(None, None, None, None));
      var ps := NewPeers(servers);
      peers := ps;
      serverOpen := false;
      incoming := 0;
    }

    /** The server list's change listener: a peer for each created server, in order; then, for
        each removed server in order, the peer `findIndex` finds is spliced out and closed. */
    method OnChange(created: seq<Server>, removed: seq<Server>) returns (added: seq<Peer>, gone: seq<Peer>)
      requires Valid()
      modifies this, peers
      ensures Valid()
      ensures |added| == |created|
      ensures forall i :: 0 <= i < |added| ==> fresh(added[i]) && added[i].server == created[i]
      ensures (peers, gone) == RemoveServers(old(peers) + added, removed)
      ensures forall p :: p in gone ==> p.closed
      ensures forall p :: p in gone && p in old(peers) ==>
        p.connected == old(p.connected) && p.Queued() == old(p.Queued()) && p.written == old(p.written)
      ensures forall p :: p in gone && p in added ==> !p.connected && p.Queued() == [] && p.written == []
      ensures forall p :: p in peers && p in old(peers) ==> unchanged(p)
      ensures forall p :: p in peers && p in added ==> Idle(p)
      ensures serverOpen == old(serverOpen) && incoming == old(incoming)
    {
      added := NewPeers(created);
      peers := peers + added;
      forall i, j | 0 <= i < j < |peers| ensures peers[i] != peers[j] {
        if i < |old(peers)| && j >= |old(peers)| {
          assert peers[i] in old(peers) && fresh(peers[j]);
        }
      }
      gone := RemovePeers(removed);
    }

    /** The removal half of the change listener. */
    method RemovePeers(removed: seq<Server>) returns (gone: seq<Peer>)
      requires Valid()
      modifies this, peers
      ensures Valid()
      ensures (peers, gone) == RemoveServers(old(peers), removed)
      ensures forall p :: p in gone ==> p.closed
      ensures forall p :: p in gone ==> p in old(peers)
      ensures forall p :: p in gone ==>
        p.connected == old(p.connected) && p.Queued() == old(p.Queued()) && p.written == old(p.written)
      ensures forall p :: p in peers ==> p in old(peers) && unchanged(p)
      ensures serverOpen == old(serverOpen) && incoming == old(incoming)
    {
      var rest;
      rest, gone := SpliceServers(peers, removed);
      RemoveServersDistinct(peers, removed);
      assert forall i :: 0 <= i < |gone| ==> gone[i] in peers;
      CloseAll(gone);
      peers := rest;
    }

    /** `open()`: rejected when the server is already set; a bind error rejects with that error;
        otherwise the server is set. */
    method Open(bindError: Option<string>) returns (r: Result<()>)
      modifies this
      ensures old(serverOpen) ==> r == Err(Fault(Rejection, "Server already opened")) && serverOpen
      ensures !old(serverOpen) && bindError.Some? ==> r == Err(Fault(PlainError, bindError.value)) && !serverOpen
      ensures !old(serverOpen) && bindError.None? ==> r == Ok(()) && serverOpen
      ensures peers == old(peers) && incoming == old(incoming)
    {
      if serverOpen {
        return Err(Fault(Rejection, "Server already opened"));
      }
      if bindError.Some? {
        return Err(Fault(PlainError, bindError.value));
      }
      serverOpen := true;
      return Ok(());
    }

    /** `close()`: without a server, reading `this.server.close` throws and no peer is
        closed; otherwise every peer is closed and the result is the server's close error, if
        any. The server stays set. */
    method Close(closeError: Option<string>) returns (r: Result<()>)
      requires Valid()
      modifies peers
      ensures Valid()
      ensures !serverOpen ==>
        r == Err(Fault(TypeError, "Cannot read property 'close' of undefined")) &&
        forall p :: p in peers ==> unchanged(p)
      ensures serverOpen ==>
        (forall p :: p in peers ==> p.closed && p.Queued() == old(p.Queued())) &&
        (forall p :: p in peers ==>
          p.connected == old(p.connected) && p.written == old(p.written) && p.reconnectDelays == old(p.reconnectDelays)) &&
        r == if closeError.Some? then Err(Fault(PlainError, closeError.value)) else Ok(())
    {
      if !serverOpen {
        return Err(Fault(TypeError, "Cannot read property 'close' of undefined"));
      }
      var i := 0;
      while i < |peers|
        invariant 0 <= i <= |peers|
        invariant forall j :: 0 <= j < i ==> peers[j].closed && peers[j].Queued() == old(peers[j].Queued())
        invariant forall j :: 0 <= j < i ==>
          peers[j].connected == old(peers[j].connected) && peers[j].written == old(peers[j].written) &&
          peers[j].reconnectDelays == old(peers[j].reconnectDelays)
        invariant forall j :: i <= j < |peers| ==> unchanged(peers[j])
        invariant Valid()
      {
        peers[i].Close();
        i := i + 1;
      }
      r := if closeError.Some? then Err(Fault(PlainError, closeError.value)) else Ok(());
    }

    /** `handleConnection`: one more incoming socket. */
    method AcceptConnection()
      modifies this
      ensures incoming == old(incoming) + 1
      ensures peers == old(peers) && serverOpen == old(serverOpen)
    {
      incoming := incoming + 1;
    }

    /** An incoming socket's `end` event. */
    method ConnectionEnded()
      modifies this
      ensures incoming == old(incoming) - 1
      ensures peers == old(peers) && serverOpen == old(serverOpen)
    {
      incoming := incoming - 1;
    }

    /** `getOutgoingPeers()`: how many peers are connected. */
    function OutgoingPeers(): (n: nat)
      reads this, peers
      ensures n == |ConnectedIndices(peers)|
      ensures n <= |peers|
      ensures n == 0 <==> forall j :: 0 <= j < |peers| ==> !peers[j].connected
    {
      ConnectedCount(peers)
    }

    /** A socket's `data` handler on a decoded message: a message failing the checks is dropped,
        a valid one goes to `receivePut` or `receiveEvict`. */
    method HandleMessage(json: Value, now: int)
      requires Valid()
      modifies localCache
      ensures Valid()
      ensures Validate(json).None? ==> unchanged(localCache)
      ensures Validate(json).Some? ==>
        (localCache.storage, localCache.lastGC) ==
        Received(old(localCache.storage), old(localCache.lastGC), localCache.settings, Validate(json).value, now)
    {
      var msg := Validate(json);
      if msg.None? {
        return;
      }
      if msg.value.PutMsg? {
        ReceivePut(msg.value, now);
      } else {
        ReceiveEvict(msg.value);
      }
    }

    /** `receivePut(message)` at local time `now`. */
    method ReceivePut(msg: Message, now: int)
      requires Valid() && msg.PutMsg?
      modifies localCache
      ensures Valid()
      ensures (localCache.storage, localCache.lastGC) ==
        Received(old(localCache.storage), old(localCache.lastGC), localCache.settings, msg, now)
    {
      var existing := localCache.GetRaw(msg.key);
      if existing.None? || existing.value.time < msg.time {
        var _ := localCache.Put(msg.key, msg.value, msg.timeout, now);
      }
    }

    /** `receiveEvict(message)`. */
    method ReceiveEvict(msg: Message)
      requires Valid() && msg.EvictMsg?
      modifies localCache
      ensures Valid()
      ensures forall now ::
        ((localCache.storage, localCache.lastGC) ==
         Received(old(localCache.storage), old(localCache.lastGC), localCache.settings, msg, now))
    {
      var existing := localCache.GetRaw(msg.key);
      if existing.Some? && existing.value.time < msg.time {
        localCache.Evict(msg.key);
      }
    }

    /** `put(key, value, evictTimeout)` at time `now`: the local put first; only when it
        resolves does every peer get the PUT message. */
    method Put(key: string, value: Value, evictTimeout: Option<int>, now: int) returns (r: Result<Value>)
      requires Valid()
      modifies localCache, peers
      ensures Valid()
      ensures (localCache.storage, localCache.lastGC, r) ==
        PutOutcome(old(localCache.storage), old(localCache.lastGC), localCache.settings, key, value, evictTimeout, now)
      ensures r.Ok? ==> forall j :: 0 <= j < |peers| ==> Sent(peers[j], PutMessage(now, key, value, evictTimeout))
      ensures r.Err? ==> forall p :: p in peers ==> unchanged(p)
    {
      r := localCache.Put(key, value, evictTimeout, now);
      if r.Err? {
        return;
      }
      SendPut(key, value, evictTimeout, now);
    }

    /** The loop of `put` over the peers. */
    method SendPut(key: string, value: Value, evictTimeout: Option<int>, now: int)
      requires PeersValid()
      modifies peers
      ensures PeersValid()
      ensures forall j :: 0 <= j < |peers| ==> Sent(peers[j], PutMessage(now, key, value, evictTimeout))
    {
      var i := 0;
      while i < |peers|
        invariant 0 <= i <= |peers|
        invariant forall j :: 0 <= j < i ==> Sent(peers[j], PutMessage(now, key, value, evictTimeout))
        invariant forall j :: i <= j < |peers| ==> unchanged(peers[j])
        invariant PeersValid()
      {
        peers[i].Put(key, value, evictTimeout, now);
        i := i + 1;
      }
    }

    /** `evict(key)` at time `now`: the key leaves the local cache and every peer gets the
        EVICT message; it always resolves. */
    method Evict(key: string, now: int)
      requires Valid()
      modifies localCache, peers
      ensures Valid()
      ensures localCache.storage == Remove(old(localCache.storage), key) && localCache.lastGC == old(localCache.lastGC)
      ensures forall j :: 0 <= j < |peers| ==> Sent(peers[j], EvictMessage(now, key))
    {
      localCache.Evict(key);
      SendEvict(key, now);
    }

    /** The loop of `evict` over the peers. */
    method SendEvict(key: string, now: int)
      requires PeersValid()
      modifies peers
      ensures PeersValid()
      ensures forall j :: 0 <= j < |peers| ==> Sent(peers[j], EvictMessage(now, key))
    {
      var i := 0;
      while i < |peers|
        invariant 0 <= i <= |peers|
        invariant forall j :: 0 <= j < i ==> Sent(peers[j], EvictMessage(now, key))
        invariant forall j :: i <= j < |peers| ==> unchanged(peers[j])
        invariant PeersValid()
      {
        peers[i].Evict(key, now);
        i := i + 1;
      }
    }

    /** `get(key)`: the local value. */
    function Get(key: string): (r: Option<Value>)
      reads this, localCache
      ensures r.Some? <==> Has(localCache.storage, key)
      ensures r.Some? ==> (key, Entry(r.value, localCache.GetRaw(key).value.time, localCache.GetRaw(key).value.timeout)) in localCache.storage
    {
      localCache.Get(key)
    }

    /** `getRaw(key)`: the local entry. */
    function GetRaw(key: string): (r: Option<Entry<Value>>)
      reads this, localCache
      ensures r.Some? <==> Has(localCache.storage, key)
      ensures r.Some? ==> (key, r.value) in localCache.storage
    {
      localCache.GetRaw(key)
    }

    /** `getIncommingPeers()`. */
    function IncomingPeers(): int
      reads this
    {
      incoming
    }
  }
}
