/** The logger of webscale-core (webscale-core/src/logger/logger.ts). The static members of
    `Logger` (global level, logger registry, handler lists) live in `LoggerRegistry`; each
    `Logger` keeps a reference to it. Handlers are foreign objects: the model records the calls
    `log` makes on them instead of running them. */
module Logging {
  import opened Wrappers
  import JsValues

  /** The levels of `LogLevelValues`. log-level.ts is not part of this model; its enum is
      taken to hold exactly these seven members. */
  datatype LogLevel = Silly | Debug | Verbose | Info | Warn | Error | Off

  function Rank(l: LogLevel): (n: int)
    ensures 1 <= n <= 7
  {
    match l
    case Silly => 1
    case Debug => 2
    case Verbose => 3
    case Info => 4
    case Warn => 5
    case Error => 6
    case Off => 7
  }

  /** The enum's string value, as it appears in the "Unknown loglevel" message. */
  function LevelName(l: LogLevel): string
  {
    match l
    case Silly => "silly"
    case Debug => "debug"
    case Verbose => "verbose"
    case Info => "info"
    case Warn => "warn"
    case Error => "error"
    case Off => "off"
  }

  /** The comparison of `shouldLog`. */
  predicate Passes(level: LogLevel, threshold: LogLevel)
  {
    Rank(level) >= Rank(threshold)
  }

  /** The ranking orders the levels strictly: two levels pass each other only if equal. */
  lemma RankOrdersLevels(a: LogLevel, b: LogLevel)
    ensures Passes(a, b) && Passes(b, a) <==> a == b
    ensures Passes(a, b) || Passes(b, a)
  {
  }

  /** Every level passes a "silly" threshold; only "off" passes an "off" threshold. */
  lemma ThresholdExtremes(l: LogLevel)
    ensures Passes(l, Silly)
    ensures Passes(l, Off) <==> l == Off
    ensures Passes(Off, l)
  {
  }

  /** A handler object; `id` tells apart two handlers with the same name. */
  datatype Handler = Handler(id: nat, name: string)

  /** The argument of `useHandler`: a registered handler's name, or a handler object. */
  datatype HandlerRef = ByName(name: string) | Direct(handler: Handler)

  /** One call `log` makes: `h.<level>(logger, message, ...optionalParams)`. An omitted
      message is `Undefined`. */
  datatype HandlerCall = HandlerCall(handler: Handler, level: LogLevel, namespace: string, message: JsValues.Value,
                                     params: seq<JsValues.Value>)

  /** `LoggerOptions`. */
  datatype Options = Options(level: Option<LogLevel>, handlers: Option<seq<HandlerRef>>)

  /** `LoggerProperties`: options plus per-namespace options, in `for..in` order. */
  datatype Properties = Properties(options: Options, namespaces: Option<seq<(string, Options)>>)

  const DefaultNamespace: string := "default"
  const ConsoleName: string := "console"

  /** `registeredHandlers.find(h => h.name === name)`. */
  function FindByName(hs: seq<Handler>, name: string): (r: Option<Handler>)
    ensures r.Some? ==> r.value in hs && r.value.name == name
    ensures r.Some? ==> exists i :: 0 <= i < |hs| && hs[i] == r.value && forall j :: 0 <= j < i ==> hs[j].name != name
    ensures r.None? <==> forall i :: 0 <= i < |hs| ==> hs[i].name != name
  {
    if hs == [] then None
    else if hs[0].name == name then Some(hs[0])
    else
      var r := FindByName(hs[1..], name);
      assert forall i :: 1 <= i < |hs| ==> hs[i] == hs[1..][i - 1];
      if r.Some? then
        var k :| 0 <= k < |hs[1..]| && hs[1..][k] == r.value && forall j :: 0 <= j < k ==> hs[1..][j].name != name;
        assert hs[k + 1] == r.value;
        r
      else r
  }

  /** The handler a `useHandler` argument denotes, if any. */
  function Resolve(registered: seq<Handler>, ref: HandlerRef): (r: Option<Handler>)
    ensures ref.Direct? ==> r == Some(ref.handler)
    ensures ref.ByName? ==> (r.None? <==> forall i :: 0 <= i < |registered| ==> registered[i].name != ref.name)
    ensures ref.ByName? && r.Some? ==> r.value in registered && r.value.name == ref.name
  {
    match ref
    case ByName(name) => FindByName(registered, name)
    case Direct(h) => Some(h)
  }

  /** The index of the first reference that denotes no handler, if any: where a `configure`
      that uses the references in order throws. */
  function FirstUnknown(registered: seq<Handler>, refs: seq<HandlerRef>): (r: Option<nat>)
    ensures r.Some? ==> r.value < |refs|
    decreases |refs|
  {
    if refs == [] then None
    else if Resolve(registered, refs[0]).None? then Some(0)
    else
      var t := FirstUnknown(registered, refs[1..]);
      if t.Some? then Some(t.value + 1) else None
  }

  /** `FirstUnknown` finds an unknown reference with only known ones before it, and finds
      none exactly when every reference is known. */
  lemma {:induction false} FirstUnknownMeaning(registered: seq<Handler>, refs: seq<HandlerRef>)
    ensures var r := FirstUnknown(registered, refs);
      r.Some? ==>
        Resolve(registered, refs[r.value]).None? &&
        forall k :: 0 <= k < r.value ==> Resolve(registered, refs[k]).Some?
    ensures FirstUnknown(registered, refs).None? <==> forall k :: 0 <= k < |refs| ==> Resolve(registered, refs[k]).Some?
    decreases |refs|
  {
    if refs != [] && Resolve(registered, refs[0]).Some? {
      FirstUnknownMeaning(registered, refs[1..]);
      assert forall k :: 1 <= k < |refs| ==> refs[k] == refs[1..][k - 1];
    }
  }

  /** How many references a `configure` gets through before the first unknown one. */
  function Reached(registered: seq<Handler>, refs: seq<HandlerRef>): (n: nat)
    ensures n <= |refs|
  {
    var f := FirstUnknown(registered, refs);
    if f.Some? then f.value else |refs|
  }

  /** The handler references of some options; none when the options name no handlers. */
  function Refs(opts: Options): seq<HandlerRef>
  {
    opts.handlers.GetOr([])
  }

  /** A logger's own handlers after `configure(opts)`: the ones it had, then those of the
      references used before the first unknown one. */
  function ConfiguredHandlers(registered: seq<Handler>, before: seq<Handler>, opts: Options): seq<Handler>
  {
    var refs := Refs(opts);
    before + ResolveAll(registered, refs[..Reached(registered, refs)])
  }

  /** The message of a failed lookup: the handler variable is `undefined` by then. */
  const UnknownHandler: Fault := Fault(PlainError, "Unknown log handler 'undefined'")

  class LoggerRegistry {
    /** `Logger.level`. */
    var level: LogLevel
    /** `Logger.loggers`. */
    var loggers: map<string, Logger>
    var registeredHandlers: seq<Handler>
    var logHandlers: seq<Handler>
    var defaultProperties: Option<Properties>

    /** Every registered logger belongs to this registry under its own namespace. */
    predicate Valid()
      reads this`loggers
    {
      forall ns :: ns in loggers ==> loggers[ns].namespace == ns && loggers[ns].registry == this
    }

    /** The static initial state: level INFO, no loggers, one console handler registered and
        another one in use. */
    constructor()
      ensures Valid()
      ensures level == Info && loggers == map[] && defaultProperties == None
      ensures registeredHandlers == [Handler(0, ConsoleName)] && logHandlers == [Handler(1, ConsoleName)]
    {
      level := Info;
      loggers := map[];
      registeredHandlers := [Handler(0, ConsoleName)];
      logHandlers := [Handler(1, ConsoleName)];
      defaultProperties := None;
    }

    /** The own level of the logger registered for `ns`; none when there is no such logger. */
    function OwnLevelOf(ns: string): Option<LogLevel>
      reads this`loggers, loggers.Values
    {
      if ns in loggers then loggers[ns].ownLevel else None
    }

    /** The own handlers of the logger registered for `ns`; none when there is no such logger. */
    function OwnHandlersOf(ns: string): seq<Handler>
      reads this`loggers, loggers.Values
    {
      if ns in loggers then loggers[ns].ownHandlers else []
    }

    /** `Logger.create(namespace)`: the registered logger, or a new one that is registered. */
    method Create(namespace: string) returns (logger: Logger)
      requires Valid()
      modifies this
      ensures Valid()
      ensures namespace in old(loggers) ==> logger == old(loggers)[namespace] && loggers == old(loggers)
      ensures namespace !in old(loggers) ==>
        fresh(logger) && loggers == old(loggers)[namespace := logger] &&
        logger.ownLevel == None && logger.ownHandlers == []
      ensures logger.namespace == namespace && logger.registry == this
      ensures level == old(level) && registeredHandlers == old(registeredHandlers)
      ensures logHandlers == old(logHandlers) && defaultProperties == old(defaultProperties)
    {
      if namespace in loggers {
        logger := loggers[namespace];
      } else {
        logger := new Logger(this, namespace);
        loggers := loggers[namespace := logger];
      }
    }

    /** `Logger.create()` with no argument. */
    method CreateDefault() returns (logger: Logger)
      requires Valid()
      modifies this
      ensures Valid()
      ensures logger.namespace == DefaultNamespace && DefaultNamespace in loggers && loggers[DefaultNamespace] == logger
      ensures DefaultNamespace in old(loggers) ==> logger == old(loggers)[DefaultNamespace] && loggers == old(loggers)
      ensures DefaultNamespace !in old(loggers) ==> fresh(logger) && loggers == old(loggers)[DefaultNamespace := logger]
      ensures logHandlers == old(logHandlers) && level == old(level)
    {
      logger := Create(DefaultNamespace);
    }

    /** `Logger.registerHandler(h)`. */
    method RegisterHandler(h: Handler)
      modifies this
      ensures registeredHandlers == old(registeredHandlers) + [h]
      ensures level == old(level) && loggers == old(loggers) && logHandlers == old(logHandlers)
      ensures defaultProperties == old(defaultProperties)
    {
      registeredHandlers := registeredHandlers + [h];
    }

    /** Static `Logger.useHandler(ref)`: appends the handler to the global list, or throws and
        appends nothing. */
    method UseHandler(ref: HandlerRef) returns (r: Result<()>)
      modifies this
      ensures var found := Resolve(old(registeredHandlers), ref);
        (found.None? ==> r == Err(UnknownHandler) && logHandlers == old(logHandlers)) &&
        (found.Some? ==> r == Ok(()) && logHandlers == old(logHandlers) + [found.value])
      ensures level == old(level) && loggers == old(loggers) && registeredHandlers == old(registeredHandlers)
      ensures defaultProperties == old(defaultProperties)
    {
      var found := Resolve(registeredHandlers, ref);
      if found.None? {
        return Err(UnknownHandler);
      }
      logHandlers := logHandlers + [found.value];
      return Ok(());
    }

    /** Static `Logger.configure(properties)`. The handler list of the properties is replaced
        by `[]` before it is walked, so none of the requested global handlers is installed and
        the global handlers already in use stay; the stored properties see the emptied list
        too, since they are the same object. Each namespace's logger is then created and
        configured in order, and the first failure ends the call. `reached` counts the
        namespaces visited, the failing one included. */
    method Configure(props: Properties) returns (r: Result<()>, ghost reached: nat)
      requires Valid()
      requires props.namespaces.Some? ==> UniqueNames(props.namespaces.value)
      modifies this, loggers.Values
      ensures Valid()
      ensures logHandlers == old(logHandlers) && registeredHandlers == old(registeredHandlers)
      ensures level == if props.options.level.Some? then props.options.level.value else old(level)
      ensures defaultProperties == Some(Emptied(props))
      ensures forall ns :: ns in old(loggers) ==> ns in loggers && loggers[ns] == old(loggers)[ns]
      ensures reached <= |Namespaces(props)|
      ensures r.Ok? ==> reached == |Namespaces(props)|
      ensures r.Err? ==> 0 < reached && r.error == UnknownHandler
      ensures FailedAt(registeredHandlers, Namespaces(props)[..reached]) == if r.Err? then Some(reached - 1) else None
      ensures OwnStates() == StatesAfter(registeredHandlers, old(OwnStates()), Namespaces(props)[..reached])
    {
      defaultProperties := Some(Emptied(props));
      if props.options.level.Some? {
        level := props.options.level.value;
      }
      var namespaces := props.namespaces.GetOr([]);
      assert Namespaces(props) == namespaces;
      r, reached := ConfigureAll(namespaces);
    }

    /** The `for..in` loop of static `configure`: `Logger.create(ns).configure(opts)` for each
        namespace in order, until one throws. */
    method ConfigureAll(namespaces: seq<(string, Options)>) returns (r: Result<()>, ghost reached: nat)
      requires Valid()
      modifies this, loggers.Values
      ensures Valid()
      ensures logHandlers == old(logHandlers) && registeredHandlers == old(registeredHandlers)
      ensures level == old(level) && defaultProperties == old(defaultProperties)
      ensures forall ns :: ns in old(loggers) ==> ns in loggers && loggers[ns] == old(loggers)[ns]
      ensures reached <= |namespaces|
      ensures r.Ok? ==> reached == |namespaces|
      ensures r.Err? ==> 0 < reached && r.error == UnknownHandler
      ensures FailedAt(registeredHandlers, namespaces[..reached]) == if r.Err? then Some(reached - 1) else None
      ensures OwnStates() == StatesAfter(registeredHandlers, old(OwnStates()), namespaces[..reached])
    {
      ghost var states0, registered := OwnStates(), registeredHandlers;
      reached := 0;
      var i := 0;
      while i < |namespaces|
        invariant 0 <= i <= |namespaces|
        invariant Valid()
        invariant logHandlers == old(logHandlers) && registeredHandlers == registered
        invariant level == old(level) && defaultProperties == old(defaultProperties)
        invariant forall ns :: ns in old(loggers) ==> ns in loggers && loggers[ns] == old(loggers)[ns]
        invariant forall ns :: ns in loggers ==> ns in old(loggers) || fresh(loggers[ns])
        invariant FailedAt(registered, namespaces[..i]) == None
        invariant OwnStates() == StatesAfter(registered, states0, namespaces[..i])
      {
        r := ConfigureNext(namespaces, i, states0);
        reached := i + 1;
        if r.Err? {
          return;
        }
        i := i + 1;
      }
      r := Ok(());
      reached := i;
      assert namespaces[..i] == namespaces;
    }

    /** One turn of the `for..in` loop: namespace `i` after the `i` before it succeeded. */
    method ConfigureNext(namespaces: seq<(string, Options)>, i: nat, ghost states0: map<string, OwnState>) returns (r: Result<()>)
      requires Valid() && i < |namespaces|
      requires FailedAt(registeredHandlers, namespaces[..i]) == None
      requires OwnStates() == StatesAfter(registeredHandlers, states0, namespaces[..i])
      modifies this, loggers.Values
      ensures Valid()
      ensures logHandlers == old(logHandlers) && registeredHandlers == old(registeredHandlers)
      ensures level == old(level) && defaultProperties == old(defaultProperties)
      ensures forall ns :: ns in old(loggers) ==> ns in loggers && loggers[ns] == old(loggers)[ns]
      ensures forall ns :: ns in loggers ==> ns in old(loggers) || fresh(loggers[ns])
      ensures FailedAt(registeredHandlers, namespaces[..i + 1]) == if r.Err? then Some(i) else None
      ensures r.Err? ==> r.error == UnknownHandler
      ensures OwnStates() == StatesAfter(registeredHandlers, states0, namespaces[..i + 1])
    {
      var ns, opts := namespaces[i].0, namespaces[i].1;
      StatesAfterSnoc(registeredHandlers, states0, namespaces, i);
      FailedAtSnoc(registeredHandlers, namespaces, i);
      r := ConfigureNamespace(ns, opts);
    }

    /** The own level and handlers of every registered logger, by namespace. */
    ghost function OwnStates(): map<string, OwnState>
      reads this`loggers, loggers.Values
    {
      map n | n in loggers :: OwnState(loggers[n].ownLevel, loggers[n].ownHandlers)
    }

    /** One namespace of `configure`: its logger is created if need be and configured. Every
        other logger keeps its level. */
    method ConfigureNamespace(ns: string, opts: Options) returns (r: Result<()>)
      requires Valid()
      modifies this, loggers.Values
      ensures Valid()
      ensures logHandlers == old(logHandlers) && registeredHandlers == old(registeredHandlers)
      ensures level == old(level) && defaultProperties == old(defaultProperties)
      ensures ns in loggers && (opts.level.Some? ==> loggers[ns].ownLevel == opts.level)
      ensures forall n :: n in old(loggers) ==> n in loggers && loggers[n] == old(loggers)[n]
      ensures forall n :: n in loggers ==> n in old(loggers) || (n == ns && fresh(loggers[n]))
      ensures forall n :: n in old(loggers) && n != ns ==> loggers[n].ownLevel == old(loggers[n].ownLevel)
      ensures forall n :: n in old(loggers) && n != ns ==> loggers[n].ownHandlers == old(loggers[n].ownHandlers)
      ensures loggers[ns].ownLevel == if opts.level.Some? then opts.level else old(OwnLevelOf(ns))
      ensures loggers[ns].ownHandlers == ConfiguredHandlers(registeredHandlers, old(OwnHandlersOf(ns)), opts)
      ensures (r.Ok? <==> FirstUnknown(registeredHandlers, Refs(opts)).None?) && (r.Err? ==> r.error == UnknownHandler)
      ensures OwnStates() == old(OwnStates())[ns := ConfiguredState(registeredHandlers, old(Get(OwnStates(), ns, NewLogger)), opts)]
    {
      var logger := Create(ns);
      assert logger in old(loggers).Values || fresh(logger) by {
        if ns in old(loggers) {
          assert old(loggers)[ns] in old(loggers).Values;
        }
      }
      r := logger.Configure(opts);
      StatesUpdated(ns);
    }

    /** When only the logger of `ns` may have changed, and `ns` may have been added, the
        registry's states are the old ones with that of `ns` replaced. */
    twostate lemma StatesUpdated(ns: string)
      requires forall n :: n in old(loggers) ==> n in loggers && loggers[n] == old(loggers)[n]
      requires forall n :: n in loggers ==> n in old(loggers) || n == ns
      requires ns in loggers
      requires forall n :: n in old(loggers) && n != ns ==>
        loggers[n].ownLevel == old(loggers[n].ownLevel) && loggers[n].ownHandlers == old(loggers[n].ownHandlers)
      ensures OwnStates() == old(OwnStates())[ns := OwnState(loggers[ns].ownLevel, loggers[ns].ownHandlers)]
    {
    }
  }

  /** What `configure` changes on a logger: its own level and its own handlers. */
  datatype OwnState = OwnState(level: Option<LogLevel>, handlers: seq<Handler>)

  /** A logger `create` has just made. */
  const NewLogger: OwnState := OwnState(None, [])

  /** A logger after `configure(opts)`: the level given, if any, and the handlers of the
      references before the first unknown one appended to its own. */
  function ConfiguredState(registered: seq<Handler>, before: OwnState, opts: Options): OwnState
  {
    OwnState(if opts.level.Some? then opts.level else before.level, ConfiguredHandlers(registered, before.handlers, opts))
  }

  /** The loggers by namespace after `Logger.create(ns).configure(opts)` for each `(ns, opts)`
      of `nss` in order, starting from `states`. */
  function StatesAfter(registered: seq<Handler>, states: map<string, OwnState>, nss: seq<(string, Options)>): map<string, OwnState>
    decreases |nss|
  {
    if nss == [] then states
    else
      var m := StatesAfter(registered, states, nss[..|nss| - 1]);
      var (ns, opts) := nss[|nss| - 1];
      m[ns := ConfiguredState(registered, Get(m, ns, NewLogger), opts)]
  }

  /** The index of the first namespace of `nss` whose `configure` throws, if any. */
  function FailedAt(registered: seq<Handler>, nss: seq<(string, Options)>): (f: Option<nat>)
    ensures f.Some? ==> f.value < |nss|
    decreases |nss|
  {
    if nss == [] then None
    else
      var f := FailedAt(registered, nss[..|nss| - 1]);
      if f.Some? then f
      else if FirstUnknown(registered, Refs(nss[|nss| - 1].1)).Some? then Some(|nss| - 1)
      else None
  }

  /** One more namespace: it is where the first failure is when the earlier ones all succeed
      and its own handlers include an unknown one. */
  lemma FailedAtSnoc(registered: seq<Handler>, nss: seq<(string, Options)>, i: nat)
    requires i < |nss|
    ensures FailedAt(registered, nss[..i + 1]) ==
      if FailedAt(registered, nss[..i]).Some? then FailedAt(registered, nss[..i])
      else if FirstUnknown(registered, Refs(nss[i].1)).Some? then Some(i)
      else None
  {
    assert nss[..i + 1][..i] == nss[..i];
  }

  /** `FailedAt` names a namespace whose handlers include an unknown one and whose predecessors'
      handlers are all known; it names none exactly when every namespace's handlers are known. */
  lemma {:induction false} FailedAtMeaning(registered: seq<Handler>, nss: seq<(string, Options)>)
    ensures var f := FailedAt(registered, nss);
      f.Some? ==>
        FirstUnknown(registered, Refs(nss[f.value].1)).Some? &&
        forall k :: 0 <= k < f.value ==> FirstUnknown(registered, Refs(nss[k].1)).None?
    ensures FailedAt(registered, nss).None? <==> forall k :: 0 <= k < |nss| ==> FirstUnknown(registered, Refs(nss[k].1)).None?
    decreases |nss|
  {
    if nss != [] {
      var init := nss[..|nss| - 1];
      FailedAtMeaning(registered, init);
      assert forall k :: 0 <= k < |init| ==> init[k] == nss[k];
    }
  }

  /** One more namespace configured. */
  lemma StatesAfterSnoc(registered: seq<Handler>, states: map<string, OwnState>, nss: seq<(string, Options)>, i: nat)
    requires i < |nss|
    ensures var m := StatesAfter(registered, states, nss[..i]);
      StatesAfter(registered, states, nss[..i + 1]) == m[nss[i].0 := ConfiguredState(registered, Get(m, nss[i].0, NewLogger), nss[i].1)]
  {
    assert nss[..i + 1][..i] == nss[..i];
  }

  /** After configuring `nss`, the registered namespaces are those there were and those of
      `nss`. */
  lemma {:induction false} StatesAfterKeys(registered: seq<Handler>, states: map<string, OwnState>, nss: seq<(string, Options)>, n: string)
    ensures n in StatesAfter(registered, states, nss) <==> n in states || exists k :: 0 <= k < |nss| && nss[k].0 == n
    decreases |nss|
  {
    if nss != [] {
      var init := nss[..|nss| - 1];
      StatesAfterKeys(registered, states, init, n);
      if exists k :: 0 <= k < |nss| && nss[k].0 == n {
        var k :| 0 <= k < |nss| && nss[k].0 == n;
        if k < |init| {
          assert init[k].0 == n;
        }
      }
      if exists k :: 0 <= k < |init| && init[k].0 == n {
        var k :| 0 <= k < |init| && init[k].0 == n;
        assert nss[k].0 == n;
      }
    }
  }

  /** A namespace `nss` does not name keeps its logger, or its lack of one. */
  lemma {:induction false} StatesAfterOthers(registered: seq<Handler>, states: map<string, OwnState>, nss: seq<(string, Options)>, n: string)
    requires forall k :: 0 <= k < |nss| ==> nss[k].0 != n
    ensures Get(StatesAfter(registered, states, nss), n, NewLogger) == Get(states, n, NewLogger)
    decreases |nss|
  {
    if nss != [] {
      var init := nss[..|nss| - 1];
      assert forall k :: 0 <= k < |init| ==> init[k] == nss[k];
      StatesAfterOthers(registered, states, init, n);
    }
  }

  /** With distinct names, each namespace of `nss` ends up configured once, from the logger it
      had at the start (or a new one). */
  lemma {:induction false} StatesAfterVisited(registered: seq<Handler>, states: map<string, OwnState>, nss: seq<(string, Options)>, k: nat)
    requires UniqueNames(nss) && k < |nss|
    ensures var m := StatesAfter(registered, states, nss);
      nss[k].0 in m && m[nss[k].0] == ConfiguredState(registered, Get(states, nss[k].0, NewLogger), nss[k].1)
    decreases |nss|
  {
    var init := nss[..|nss| - 1];
    assert forall j :: 0 <= j < |init| ==> init[j] == nss[j];
    if k == |nss| - 1 {
      forall j | 0 <= j < |init|
        ensures init[j].0 != nss[k].0
      {
        assert nss[j].0 != nss[k].0;
      }
      StatesAfterOthers(registered, states, init, nss[k].0);
    } else {
      assert nss[|nss| - 1].0 != nss[k].0;
      StatesAfterVisited(registered, states, init, k);
    }
  }

  /** The value of `k` in `m`, or `d` when `m` has no such key. */
  function Get<K, V>(m: map<K, V>, k: K, d: V): V
  {
    if k in m then m[k] else d
  }

  /** The per-namespace options of some properties, in `for..in` order. */
  function Namespaces(props: Properties): seq<(string, Options)>
  {
    props.namespaces.GetOr([])
  }

  predicate UniqueNames(s: seq<(string, Options)>)
  {
    forall i, j :: 0 <= i < j < |s| ==> s[i].0 != s[j].0
  }

  /** `props` after `options.handlers = []`. */
  function Emptied(props: Properties): Properties
  {
    if props.options.handlers.Some? then props.(options := props.options.(handlers := Some([]))) else props
  }

  class Logger {
    const registry: LoggerRegistry
    const namespace: string
    /** `_level`: `None` until set. */
    var ownLevel: Option<LogLevel>
    /** `_handlers`. */
    var ownHandlers: seq<Handler>

    constructor(registry: LoggerRegistry, namespace: string)
      ensures this.registry == registry && this.namespace == namespace
      ensures ownLevel == None && ownHandlers == []
    {
      this.registry := registry;
      this.namespace := namespace;
      ownLevel := None;
      ownHandlers := [];
    }

    /** The `level` getter: the logger's own level, otherwise the global one. */
    function Level(): (l: LogLevel)
      reads this, registry
      ensures ownLevel.Some? ==> l == ownLevel.value
      ensures ownLevel.None? ==> l == registry.level
    {
      ownLevel.GetOr(registry.level)
    }

    /** The `handlers` getter: the global handlers, then the logger's own. */
    function Handlers(): (hs: seq<Handler>)
      reads this, registry
      ensures |hs| == |registry.logHandlers| + |ownHandlers|
      ensures hs[..|registry.logHandlers|] == registry.logHandlers
      ensures hs[|registry.logHandlers|..] == ownHandlers
    {
      registry.logHandlers + ownHandlers
    }

    /** `shouldLog(level)`. */
    function ShouldLog(level: LogLevel): (b: bool)
      reads this, registry
      ensures b <==> Rank(level) >= Rank(Level())
    {
      Passes(level, Level())
    }

    /** The `level` setter. */
    method SetLevel(l: LogLevel)
      modifies this
      ensures ownLevel == Some(l) && ownHandlers == old(ownHandlers)
    {
      ownLevel := Some(l);
    }

    /** `logger.useHandler(ref)`: appends to this logger's own handlers, or throws and appends
        nothing. Calling the handler's own `configure` is not modelled. */
    method UseHandler(ref: HandlerRef) returns (r: Result<()>)
      modifies this
      ensures var found := Resolve(registry.registeredHandlers, ref);
        (found.None? ==> r == Err(UnknownHandler) && ownHandlers == old(ownHandlers)) &&
        (found.Some? ==> r == Ok(()) && ownHandlers == old(ownHandlers) + [found.value])
      ensures ownLevel == old(ownLevel)
    {
      var found := Resolve(registry.registeredHandlers, ref);
      if found.None? {
        return Err(UnknownHandler);
      }
      ownHandlers := ownHandlers + [found.value];
      return Ok(());
    }

    /** `logger.configure(options)`: sets the level if one is given, then uses each handler in
        order; the first unknown handler ends the call with the earlier ones installed. */
    method Configure(opts: Options) returns (r: Result<()>)
      modifies this
      ensures ownLevel == if opts.level.Some? then opts.level else old(ownLevel)
      ensures opts.handlers.None? ==> r.Ok? && ownHandlers == old(ownHandlers)
      ensures opts.handlers.Some? && r.Ok? ==>
        var refs := opts.handlers.value;
        (forall k :: 0 <= k < |refs| ==> Resolve(registry.registeredHandlers, refs[k]).Some?) &&
        ownHandlers == old(ownHandlers) + ResolveAll(registry.registeredHandlers, refs)
      ensures r.Err? ==> r.error == UnknownHandler
      ensures r.Ok? <==> FirstUnknown(registry.registeredHandlers, Refs(opts)).None?
      ensures ownHandlers == ConfiguredHandlers(registry.registeredHandlers, old(ownHandlers), opts)
    {
      if opts.level.Some? {
        ownLevel := opts.level;
      }
      if opts.handlers.None? {
        return Ok(());
      }
      var refs := opts.handlers.value;
      assert Refs(opts) == refs;
      var i := 0;
      while i < |refs|
        invariant 0 <= i <= |refs|
        invariant ownLevel == if opts.level.Some? then opts.level else old(ownLevel)
        invariant forall k :: 0 <= k < i ==> Resolve(registry.registeredHandlers, refs[k]).Some?
        invariant ownHandlers == old(ownHandlers) + ResolveAll(registry.registeredHandlers, refs[..i])
      {
        r := UseHandler(refs[i]);
        if r.Err? {
          FirstUnknownMeaning(registry.registeredHandlers, refs);
          assert FirstUnknown(registry.registeredHandlers, refs) == Some(i);
          return;
        }
        ResolveAllSnoc(registry.registeredHandlers, refs[..i], refs[i]);
        assert refs[..i + 1] == refs[..i] + [refs[i]];
        i := i + 1;
      }
      assert refs[..i] == refs;
      FirstUnknownMeaning(registry.registeredHandlers, refs);
      return Ok(());
    }

    /** `logger.log(level, message, ...optionalParams)`: when the level passes, one call per handler in order on
        the method named by the level; "off" passes every threshold and then throws. */
    method Log(level: LogLevel, message: JsValues.Value, params: seq<JsValues.Value>) returns (r: Result<seq<HandlerCall>>)
      ensures !ShouldLog(level) ==> r == Ok([])
      ensures ShouldLog(level) && level == Off ==> r == Err(Fault(PlainError, "Unknown loglevel 'off'"))
      ensures ShouldLog(level) && level != Off ==>
        r.Ok? && |r.value| == |Handlers()| &&
        forall i :: 0 <= i < |Handlers()| ==> r.value[i] == HandlerCall(Handlers()[i], level, namespace, message, params)
    {
      if !ShouldLog(level) {
        return Ok([]);
      }
      if level == Off {
        return Err(Fault(PlainError, "Unknown loglevel '" + LevelName(level) + "'"));
      }
      var hs := Handlers();
      var calls := [];
      var i := 0;
      while i < |hs|
        invariant 0 <= i <= |hs|
        invariant |calls| == i
        invariant forall k :: 0 <= k < i ==> calls[k] == HandlerCall(hs[k], level, namespace, message, params)
      {
        calls := calls + [HandlerCall(hs[i], level, namespace, message, params)];
        i := i + 1;
      }
      return Ok(calls);
    }
  }

  /** The handlers a list of references denotes, skipping the unknown ones. */
  function ResolveAll(registered: seq<Handler>, refs: seq<HandlerRef>): (hs: seq<Handler>)
    decreases |refs|
  {
    if refs == [] then []
    else
      var h := Resolve(registered, refs[0]);
      (if h.Some? then [h.value] else []) + ResolveAll(registered, refs[1..])
  }

  /** Each resolved handler is registered or was given directly, at most one per reference;
      when every reference resolves, there is exactly one per reference, in order. */
  lemma {:induction false} ResolveAllMeaning(registered: seq<Handler>, refs: seq<HandlerRef>)
    ensures var hs := ResolveAll(registered, refs);
      |hs| <= |refs| &&
      (forall h :: h in hs ==> h in registered || Direct(h) in refs) &&
      (FirstUnknown(registered, refs).None? ==>
        |hs| == |refs| && forall i :: 0 <= i < |refs| ==> Some(hs[i]) == Resolve(registered, refs[i]))
    decreases |refs|
  {
    if refs != [] {
      ResolveAllMeaning(registered, refs[1..]);
      var rest := ResolveAll(registered, refs[1..]);
      var h := Resolve(registered, refs[0]);
      var hs := ResolveAll(registered, refs);
      assert hs == (if h.Some? then [h.value] else []) + rest;
      forall x | x in hs
        ensures x in registered || Direct(x) in refs
      {
        if x in rest {
          assert forall r :: r in refs[1..] ==> r in refs;
        }
      }
      if FirstUnknown(registered, refs).None? {
        forall i | 0 <= i < |refs|
          ensures Some(hs[i]) == Resolve(registered, refs[i])
        {
          if i > 0 {
            assert refs[i] == refs[1..][i - 1];
          }
        }
      }
    }
  }

  lemma {:induction false} ResolveAllSnoc(registered: seq<Handler>, refs: seq<HandlerRef>, last: HandlerRef)
    requires Resolve(registered, last).Some?
    ensures ResolveAll(registered, refs + [last]) == ResolveAll(registered, refs) + [Resolve(registered, last).value]
  {
    if refs == [] {
      assert ResolveAll(registered, [last]) == [Resolve(registered, last).value] + ResolveAll(registered, []);
    } else {
      var first := Resolve(registered, refs[0]);
      var x := if first.Some? then [first.value] else [];
      var h := Resolve(registered, last).value;
      assert (refs + [last])[1..] == refs[1..] + [last];
      assert (refs + [last])[0] == refs[0];
      ResolveAllSnoc(registered, refs[1..], last);
      assert ResolveAll(registered, refs + [last]) == x + (ResolveAll(registered, refs[1..]) + [h]);
      assert ResolveAll(registered, refs) == x + ResolveAll(registered, refs[1..]);
      assert x + (ResolveAll(registered, refs[1..]) + [h]) == (x + ResolveAll(registered, refs[1..])) + [h];
    }
  }

  /** Logging at "off" never reaches a handler: it always passes the threshold and throws. */
  lemma OffAlwaysThrows(logger: Logger)
    ensures logger.ShouldLog(Off)
  {
    ThresholdExtremes(logger.Level());
  }
}
