/** The messages peers exchange (webscale-cache/src/cache-message.ts): `Peer.put` and
    `Peer.evict` build them (webscale-cache/src/peer.ts), and the socket handler of
    `DistributedCache` checks a decoded one before acting on it
    (webscale-cache/src/distributed-cache.ts). A message travels as a JSON object; decoding
    and encoding are the identity on it. */
module CacheMessages {
  import opened Wrappers
  import opened JsValues

  /** A message that passed the checks. */
  datatype Message =
    | PutMsg(time: int, key: string, value: Value, timeout: Option<int>)
    | EvictMsg(time: int, key: string)

  /** `Peer.put(key, value, evictTimeout)` at time `now`: `timeout` is added only when
      `evictTimeout` is truthy. */
  function PutMessage(now: int, key: string, value: Value, evictTimeout: Option<int>): (m: Value)
    ensures m.Obj?
    ensures Prop(m, "type") == Str("PUT") && Prop(m, "time") == Num(now)
    ensures Prop(m, "key") == Str(key) && Prop(m, "value") == value
    ensures ("timeout" in m.props) <==> evictTimeout.Some? && evictTimeout.value != 0
    ensures "timeout" in m.props ==> m.props["timeout"] == Num(evictTimeout.value)
    ensures m.props.Keys <= {"type", "time", "key", "value", "timeout"}
  {
    var base := map["type" := Str("PUT"), "time" := Num(now), "key" := Str(key), "value" := value];
    if evictTimeout.Some? && evictTimeout.value != 0 then Obj(base["timeout" := Num(evictTimeout.value)])
    else Obj(base)
  }

  /** `Peer.evict(key)` at time `now`: no value, no timeout. */
  function EvictMessage(now: int, key: string): (m: Value)
    ensures m.Obj? && m.props.Keys == {"type", "time", "key"}
    ensures Prop(m, "type") == Str("EVICT") && Prop(m, "time") == Num(now) && Prop(m, "key") == Str(key)
  {
    Obj(map["type" := Str("EVICT"), "time" := Num(now), "key" := Str(key)])
  }

  /** The checks of the socket `data` handler: type PUT or EVICT, a non-empty string key, a
      positive numeric time, and for PUT a defined value and a timeout that is absent or a
      number. Anything else is dropped (`None`). */
  function Validate(json: Value): (r: Option<Message>)
    ensures r.Some? ==> Prop(json, "key") == Str(r.value.key) && |r.value.key| > 0
    ensures r.Some? ==> Prop(json, "time") == Num(r.value.time) && r.value.time > 0
    ensures r.Some? && r.value.PutMsg? ==>
      Prop(json, "type") == Str("PUT") && Prop(json, "value") == r.value.value && r.value.value != Undefined
    ensures r.Some? && r.value.EvictMsg? ==> Prop(json, "type") == Str("EVICT")
    ensures r.None? <==>
      !(Prop(json, "type") in {Str("PUT"), Str("EVICT")}) ||
      !(Prop(json, "key").Str? && |Prop(json, "key").s| > 0) ||
      !(Prop(json, "time").Num? && Prop(json, "time").n > 0) ||
      (Prop(json, "type") == Str("PUT") &&
        (Prop(json, "value") == Undefined || !(Prop(json, "timeout") == Undefined || Prop(json, "timeout").Num?)))
  {
    var kind, key, time := Prop(json, "type"), Prop(json, "key"), Prop(json, "time");
    if (kind == Str("EVICT") || kind == Str("PUT")) && key.Str? && |key.s| > 0 && time.Num? && time.n > 0 then
      if kind == Str("PUT") then
        var value, timeout := Prop(json, "value"), Prop(json, "timeout");
        if value != Undefined && (timeout == Undefined || timeout.Num?) then
          Some(PutMsg(time.n, key.s, value, if timeout.Num? then Some(timeout.n) else None))
        else None
      else Some(EvictMsg(time.n, key.s))
    else None
  }

  /** A PUT a peer builds is accepted by the receiving peer exactly when its key is non-empty,
      the sender's clock is positive and the value is defined; it decodes to what was sent. */
  lemma PutRoundTrip(now: int, key: string, value: Value, evictTimeout: Option<int>)
    ensures Validate(PutMessage(now, key, value, evictTimeout)) ==
      if |key| > 0 && now > 0 && value != Undefined
      then Some(PutMsg(now, key, value, if evictTimeout.Some? && evictTimeout.value != 0 then evictTimeout else None))
      else None
  {
    var m := PutMessage(now, key, value, evictTimeout);
    if |key| > 0 && now > 0 && value != Undefined {
      var t := Prop(m, "timeout");
      assert t == Undefined || t.Num?;
    }
  }

  /** An EVICT a peer builds is accepted exactly when its key is non-empty and the sender's
      clock is positive. */
  lemma EvictRoundTrip(now: int, key: string)
    ensures Validate(EvictMessage(now, key)) == if |key| > 0 && now > 0 then Some(EvictMsg(now, key)) else None
  {
  }
}
