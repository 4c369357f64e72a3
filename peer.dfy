/** `Peer` (webscale-cache/src/peer.ts): the outgoing connection to one other cache server.
    Socket and timer events are methods: `ConnectCallback` for the connect callback,
    `SocketClosed` for the socket's `close` event and `ReconnectTimer` for the `setTimeout`
    that calls `connect()` again. The rxjs queue (`mergeMap` with concurrency 1) is its two
    parts: the message whose `send` observable is subscribed, and the messages buffered
    behind it. */
module Peers {
  import opened Wrappers
  import opened JsValues
  import CacheMessages

  /** A server of the server list. */
  datatype Server = Server(name: string, host: string, port: int)

  class Peer {
    const server: Server
    /** `_connected` and `_closed`. */
    var connected: bool
    var closed: bool
    /** `reconnectBackPressure`. */
    var backPressure: int
    /** Whether `resumeCallback` has been set; it is never cleared. */
    var hasResumeCallback: bool
    /** The message whose `ensureConnected()` promise is still pending. */
    var waiting: Option<Value>
    /** The message `mergeMap` has subscribed to `send`, and the ones buffered behind it. */
    var active: Option<Value>
    var buffered: seq<Value>
    /** What `socket.write` was called with, in order. */
    var written: seq<Value>
    /** Calls of `connect()`, sockets ended by the connect callback, and the delays of the
        reconnect timers scheduled, in order. */
    var connectCalls: nat
    var socketsEnded: nat
    var reconnectDelays: seq<int>

    /** The queue at work: `send` never completes, so the first message stays subscribed
        forever and at most it is ever written; it is written only once connected. */
    predicate Valid()
      reads this
    {
      (active.None? ==> buffered == [] && waiting == None && written == []) &&
      (waiting.Some? ==> waiting == active && written == [] && hasResumeCallback) &&
      (written != [] ==> active.Some? && written == [active.value] && waiting == None) &&
      (active.Some? ==> waiting.Some? || written == [active.value])
    }

    /** Everything pushed into the queue, in order. */
    function Queued(): seq<Value>
      reads this
    {
      (if active.Some? then [active.value] else []) + buffered
    }

    /** The constructor: calls `connect()` and subscribes to the empty queue. */
    constructor(server: Server)
      ensures Valid()
      ensures this.server == server && !connected && !closed && backPressure == 0
      ensures !hasResumeCallback && Queued() == [] && written == []
      ensures connectCalls == 1 && socketsEnded == 0 && reconnectDelays == []
    {
      this.server := server;
      connected := false;
      closed := false;
      backPressure := 0;
      hasResumeCallback := false;
      waiting := None;
      active := None;
      buffered := [];
      written := [];
      connectCalls := 1;
      socketsEnded := 0;
      reconnectDelays := [];
    }

    /** `close()`: marks the peer closed for good; the socket is destroyed, which the socket's
        `close` event then reports. */
    method Close()
      requires Valid()
      modifies this
      ensures Valid()
      ensures closed && connected == old(connected) && backPressure == old(backPressure)
      ensures Queued() == old(Queued()) && written == old(written) && waiting == old(waiting)
      ensures hasResumeCallback == old(hasResumeCallback) && reconnectDelays == old(reconnectDelays)
      ensures connectCalls == old(connectCalls) && socketsEnded == old(socketsEnded)
    {
      closed := true;
    }

    /** `ensureConnected().then(() => socket.write(message))`: written at once when connected,
        otherwise left waiting for the resume callback, which replaces any earlier one. */
    method EnsureConnectedThenWrite(message: Value)
      requires active == Some(message) && waiting == None && written == []
      modifies this
      ensures connected ==> written == [message] && waiting == None && hasResumeCallback == old(hasResumeCallback)
      ensures !connected ==> written == [] && waiting == Some(message) && hasResumeCallback
      ensures connected == old(connected) && closed == old(closed) && backPressure == old(backPressure)
      ensures active == old(active) && buffered == old(buffered)
      ensures connectCalls == old(connectCalls) && socketsEnded == old(socketsEnded)
      ensures reconnectDelays == old(reconnectDelays)
    {
      if connected {
        written := written + [message];
      } else {
        hasResumeCallback := true;
        waiting := Some(message);
      }
    }

    /** `queue.next(message)`: with nothing subscribed the message is sent at once; otherwise
        `mergeMap` buffers it behind the subscribed one, which never completes. */
    method Enqueue(message: Value)
      requires Valid()
      modifies this
      ensures Valid() && |written| <= 1
      ensures Sent(this, message)
    {
      if active.None? {
        active := Some(message);
        EnsureConnectedThenWrite(message);
      } else {
        buffered := buffered + [message];
      }
    }

    /** `put(key, value, evictTimeout)` at time `now`. */
    method Put(key: string, value: Value, evictTimeout: Option<int>, now: int)
      requires Valid()
      modifies this
      ensures Valid() && |written| <= 1
      ensures Sent(this, CacheMessages.PutMessage(now, key, value, evictTimeout))
    {
      Enqueue(CacheMessages.PutMessage(now, key, value, evictTimeout));
    }

    /** `evict(key)` at time `now`. */
    method Evict(key: string, now: int)
      requires Valid()
      modifies this
      ensures Valid() && |written| <= 1
      ensures Sent(this, CacheMessages.EvictMessage(now, key))
    {
      Enqueue(CacheMessages.EvictMessage(now, key));
    }

    /** The socket's connect callback. A closed peer ends the socket and stays disconnected;
        otherwise the peer is connected, the counter drops by one and the resume callback, if
        one was ever set, is called: it writes the waiting message, if any. */
    method ConnectCallback()
      requires Valid()
      modifies this
      ensures Valid()
      ensures old(closed) ==>
        socketsEnded == old(socketsEnded) + 1 && connected == old(connected) &&
        backPressure == old(backPressure) && written == old(written) && waiting == old(waiting)
      ensures !old(closed) ==>
        connected && backPressure == old(backPressure) - 1 && socketsEnded == old(socketsEnded) &&
        (old(waiting).Some? ==> written == [old(waiting).value] && waiting == None) &&
        (old(waiting).None? ==> written == old(written) && waiting == None)
      ensures closed == old(closed) && Queued() == old(Queued()) && hasResumeCallback == old(hasResumeCallback)
      ensures connectCalls == old(connectCalls) && reconnectDelays == old(reconnectDelays)
    {
      if closed {
        socketsEnded := socketsEnded + 1;
      } else {
        connected := true;
        backPressure := backPressure - 1;
        if hasResumeCallback {
          // resolving a promise that is already settled does nothing
          if waiting.Some? {
            written := written + [waiting.value];
            waiting := None;
          }
        }
      }
    }

    /** The socket's `close` event: disconnected; unless the peer is closed, the counter grows
        by one and a reconnect is scheduled after `100 * counter` ms. */
    method SocketClosed()
      requires Valid()
      modifies this
      ensures Valid()
      ensures !connected
      ensures old(closed) ==> backPressure == old(backPressure) && reconnectDelays == old(reconnectDelays)
      ensures !old(closed) ==>
        backPressure == old(backPressure) + 1 && reconnectDelays == old(reconnectDelays) + [100 * backPressure]
      ensures closed == old(closed) && Queued() == old(Queued()) && written == old(written) && waiting == old(waiting)
      ensures hasResumeCallback == old(hasResumeCallback)
      ensures connectCalls == old(connectCalls) && socketsEnded == old(socketsEnded)
    {
      connected := false;
      if !closed {
        backPressure := backPressure + 1;
        reconnectDelays := reconnectDelays + [100 * backPressure];
      }
    }

    /** The reconnect timer fires: `connect()` opens a new socket. */
    method ReconnectTimer()
      requires Valid()
      modifies this
      ensures Valid()
      ensures connectCalls == old(connectCalls) + 1
      ensures connected == old(connected) && closed == old(closed) && backPressure == old(backPressure)
      ensures Queued() == old(Queued()) && written == old(written) && waiting == old(waiting)
      ensures socketsEnded == old(socketsEnded) && reconnectDelays == old(reconnectDelays)
      ensures hasResumeCallback == old(hasResumeCallback)
    {
      connectCalls := connectCalls + 1;
    }
  }

  /** What pushing `message` into a peer's queue does: it is appended to the queue. Behind an
      active send nothing else changes; otherwise it becomes the active send and is written
      at once exactly when the peer is connected, or else waits for the resume callback. The
      connection, the closed flag and the counters never change. */
  twostate predicate Sent(p: Peer, message: Value)
    reads p
  {
    p.Queued() == old(p.Queued()) + [message] &&
    (old(p.active).Some? ==>
       p.written == old(p.written) && p.waiting == old(p.waiting) && p.active == old(p.active) &&
       p.hasResumeCallback == old(p.hasResumeCallback)) &&
    (old(p.active).None? ==> p.active == Some(message) && (p.connected <==> p.written == [message])) &&
    (old(p.active).None? && p.connected ==> p.waiting == None && p.hasResumeCallback == old(p.hasResumeCallback)) &&
    (old(p.active).None? && !p.connected ==> p.waiting == Some(message) && p.hasResumeCallback) &&
    p.connected == old(p.connected) && p.closed == old(p.closed) && p.backPressure == old(p.backPressure) &&
    p.connectCalls == old(p.connectCalls) && p.socketsEnded == old(p.socketsEnded) &&
    p.reconnectDelays == old(p.reconnectDelays)
  }

  /** The first successful connect of a fresh peer leaves the counter at -1. */
  method FirstConnect(server: Server) returns (p: Peer)
    ensures p.connected && p.backPressure == -1
  {
    p := new Peer(server);
    p.ConnectCallback();
  }

  /** With the socket never connected, however many messages are queued none is written: the
      first one waits for the connection and the others wait behind it. */
  method QueueStalls(server: Server, messages: seq<Value>) returns (p: Peer)
    ensures p.Queued() == messages && p.written == []
    ensures |messages| > 0 ==> p.waiting == Some(messages[0]) && p.buffered == messages[1..]
  {
    p := new Peer(server);
    var i := 0;
    while i < |messages|
      invariant 0 <= i <= |messages|
      invariant p.Valid() && !p.connected
      invariant p.Queued() == messages[..i] && p.written == []
      invariant i > 0 ==> p.waiting == Some(messages[0]) && p.buffered == messages[1..i]
    {
      p.Enqueue(messages[i]);
      assert messages[..i + 1] == messages[..i] + [messages[i]];
      i := i + 1;
    }
    assert messages[..i] == messages;
  }

  /** Once connected, the first message is written and every later one stays buffered. */
  method OnlyFirstIsWritten(server: Server, messages: seq<Value>) returns (p: Peer)
    requires |messages| > 0
    ensures p.connected && p.Queued() == messages
    ensures p.written == [messages[0]] && p.buffered == messages[1..]
  {
    p := new Peer(server);
    p.ConnectCallback();
    var i := 0;
    while i < |messages|
      invariant 0 <= i <= |messages|
      invariant p.Valid() && p.connected
      invariant p.Queued() == messages[..i]
      invariant i > 0 ==> p.written == [messages[0]] && p.buffered == messages[1..i]
      invariant i == 0 ==> p.written == [] && p.active == None
    {
      p.Enqueue(messages[i]);
      assert messages[..i + 1] == messages[..i] + [messages[i]];
      i := i + 1;
    }
    assert messages[..i] == messages;
  }
}
