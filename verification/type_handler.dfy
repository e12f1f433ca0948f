/** The per-type path registry: an ordered list of dynamic handlers, tried first
    and in registration order, and a name-to-handler map of static paths, tried
    by exact name when every dynamic handler declines. */
module TypeHandler {
  import opened Wrappers
  import opened Paths

  // ---------------------------------------------------------------------------
  // Stored handler shapes. The adapters in the source build closures; here each
  // closure is a datatype value that records what it wraps.
  // ---------------------------------------------------------------------------

  /** The resolver an entry stores: a caller's location-level delegate, or the
      wrapper the typed overload of `AddHandler` builds around a value-level one. */
  datatype HandleFn = HandleDelegate(id: DelegateId) | TypedHandleWrapper(typed: DelegateId)

  /** The name listing an entry stores, in the same two shapes. */
  datatype ListFn = ListDelegate(id: DelegateId) | TypedListWrapper(typed: DelegateId)

  /** One dynamic handler entry. The original delegates are kept only by the
      typed overload, so that it can later be removed by what the caller passed. */
  datatype HandlerData = HandlerData(
    handle: HandleFn,
    list: ListFn,
    originalHandle: Option<DelegateId>,
    originalList: Option<DelegateId>)

  /** A handler over the nullable value at a location: the caller's own, or the
      wrapper that hides null from a handler over non-null values. */
  datatype NullableFn = NullableDelegate(id: DelegateId) | NonNullWrapper(id: DelegateId)

  /** A static path handler as stored in the name map. */
  datatype PathFn =
    | PathDelegate(id: DelegateId)
    | NullableWrapper(inner: NullableFn)
    | ComponentWrapper(id: DelegateId)
    | PropertyWrapper(path: string, typeName: string, getter: DelegateId, setter: Option<DelegateId>)

  /** The registry for one introspectable type, named `typeName`. */
  datatype Registry = Registry(
    typeName: string,
    handlers: seq<HandlerData>,
    paths: map<string, PathFn>)

  /** The two registration errors, both `ArgumentException`s in the source. */
  datatype RegistrationError = HandlerNotFound | DuplicateKey(key: string)

  /** How a removal request identifies an entry: by the original typed delegates
      (generic overload) or by the stored location-level delegates. */
  datatype RemovalKey = Original(handle: DelegateId, list: DelegateId) | Stored(handle: DelegateId, list: DelegateId)

  /** The log record the property setter writes when it swallows an exception. */
  datatype LogEvent = LogEvent(sawmill: string, exception: Exception, message: string)

  /** What writing through a bound location's setter does for its caller. */
  datatype WriteOutcome = Written | Suppressed(log: LogEvent) | Raised(exception: Exception)

  /** A freshly created registry has no handlers and no paths. */
  function New(typeName: string): Registry
  {
    Registry(typeName, [], map[])
  }

  // ---------------------------------------------------------------------------
  // Meaning of the stored shapes
  // ---------------------------------------------------------------------------

  /** What one dynamic entry answers for `rel` at `loc`; `None` declines. */
  function HandleOf(env: Delegates, d: HandlerData, loc: Location, rel: string): Option<Location>
  {
    match d.handle
    case HandleDelegate(id) => env.handle(id, loc, rel)
    case TypedHandleWrapper(t) => env.handleTyped(t, Get(env, loc), rel)
  }

  /** The names one dynamic entry lists at `loc`. */
  function ListOf(env: Delegates, d: HandlerData, loc: Location): seq<string>
  {
    match d.list
    case ListDelegate(id) => env.list(id, loc)
    case TypedListWrapper(t) => env.listTyped(t, Get(env, loc))
  }

  /** A nullable-value handler applied to the value at a location. */
  function ApplyNullable(env: Delegates, f: NullableFn, v: Value): Option<Location>
  {
    match f
    case NullableDelegate(id) => env.pathNullable(id, v)
    case NonNullWrapper(id) => if v == Null then None else env.pathValue(id, v)
  }

  /** A static path handler applied to a location; `None` means "not applicable". */
  function ApplyPath(env: Delegates, f: PathFn, loc: Location): Option<Location>
  {
    match f
    case PathDelegate(id) => env.path(id, loc)
    case NullableWrapper(inner) => ApplyNullable(env, inner, Get(env, loc))
    case ComponentWrapper(id) =>
      if loc.Component? && loc.value != Null then env.pathComponent(id, loc.owner, loc.value) else None
    case PropertyWrapper(path, typeName, getter, setter) =>
      if loc.Component? && loc.value != Null
      then Some(Bound(loc.owner, loc.value, getter, setter, path, typeName))
      else None
  }

  /** The message the property setter logs when it swallows a null reference. */
  function NullReferenceMessage(path: string, typeName: string): string
  {
    "NRE caught in setter for path \"" + path + "\" for type \"" + typeName + "\"..."
  }

  /** Writes `value` through a bound location. `None` when no setter is attached.
      A null reference thrown by the setter is caught and logged; every other
      exception reaches the caller. */
  function Write(env: Delegates, loc: Location, value: Value): (w: Option<WriteOutcome>)
    requires loc.Bound?
    ensures w.None? <==> loc.setter.None?
    ensures loc.setter.Some? && env.setter(loc.setter.value, loc.owner, value, loc.comp) == Returned ==> w == Some(Written)
    ensures w.Some? ==> !(w.value.Raised? && w.value.exception == NullReference)
    ensures w.Some? && w.value.Suppressed? <==>
              loc.setter.Some? && env.setter(loc.setter.value, loc.owner, value, loc.comp) == Threw(NullReference)
    ensures forall e ::
              (e != NullReference && loc.setter.Some? &&
               env.setter(loc.setter.value, loc.owner, value, loc.comp) == Threw(e)) ==> w == Some(Raised(e))
    ensures w.Some? && w.value.Suppressed? ==>
              w.value.log.sawmill == "ViewVariablesManager" &&
              w.value.log.exception == NullReference &&
              w.value.log.message == NullReferenceMessage(loc.path, loc.typeName)
  {
    match loc.setter
    case None => None
    case Some(s) =>
      match env.setter(s, loc.owner, value, loc.comp)
      case Returned => Some(Written)
      case Threw(NullReference) =>
        Some(Suppressed(LogEvent("ViewVariablesManager", NullReference, NullReferenceMessage(loc.path, loc.typeName))))
      case Threw(e) => Some(Raised(e))
  }

  // ---------------------------------------------------------------------------
  // Dynamic handlers
  // ---------------------------------------------------------------------------

  /** Registers a handler pair over the value at a location (generic overload).
      The entry stores wrappers and remembers the originals for removal. */
  function AddHandler(reg: Registry, handle: DelegateId, list: DelegateId): (r: Registry)
    ensures r.typeName == reg.typeName && r.paths == reg.paths
    ensures |r.handlers| == |reg.handlers| + 1 && r.handlers[..|reg.handlers|] == reg.handlers
    ensures Matches(r.handlers[|reg.handlers|], Original(handle, list))
    ensures !Matches(r.handlers[|reg.handlers|], Stored(handle, list))
    ensures forall env, loc, rel :: HandleOf(env, r.handlers[|reg.handlers|], loc, rel) == env.handleTyped(handle, Get(env, loc), rel)
    ensures forall env, loc :: ListOf(env, r.handlers[|reg.handlers|], loc) == env.listTyped(list, Get(env, loc))
  {
    reg.(handlers := reg.handlers + [HandlerData(TypedHandleWrapper(handle), TypedListWrapper(list), Some(handle), Some(list))])
  }

  /** Registers a handler pair over the location itself (non-generic overload).
      The entry keeps no originals, so only the non-generic removal finds it. */
  function AddRawHandler(reg: Registry, handle: DelegateId, list: DelegateId): (r: Registry)
    ensures r.typeName == reg.typeName && r.paths == reg.paths
    ensures |r.handlers| == |reg.handlers| + 1 && r.handlers[..|reg.handlers|] == reg.handlers
    ensures Matches(r.handlers[|reg.handlers|], Stored(handle, list))
    ensures forall h, l :: !Matches(r.handlers[|reg.handlers|], Original(h, l))
    ensures forall env, loc, rel :: HandleOf(env, r.handlers[|reg.handlers|], loc, rel) == env.handle(handle, loc, rel)
    ensures forall env, loc :: ListOf(env, r.handlers[|reg.handlers|], loc) == env.list(list, loc)
  {
    reg.(handlers := reg.handlers + [HandlerData(HandleDelegate(handle), ListDelegate(list), None, None)])
  }

  /** Whether an entry is the one a removal request names: the generic overload
      compares `OriginalHandle`/`OriginalList`, the other `Handle`/`List`. */
  predicate Matches(d: HandlerData, key: RemovalKey)
  {
    match key
    case Original(h, l) => d.originalHandle == Some(h) && d.originalList == Some(l)
    case Stored(h, l) => d.handle == HandleDelegate(h) && d.list == ListDelegate(l)
  }

  /** The index of the first entry matching `key`, or `|hs|` when none does. */
  function FirstMatch(hs: seq<HandlerData>, key: RemovalKey): (i: nat)
    ensures i <= |hs|
    ensures i < |hs| ==> Matches(hs[i], key)
    ensures forall j :: 0 <= j < i ==> !Matches(hs[j], key)
  {
    if hs == [] then 0
    else if Matches(hs[0], key) then 0
    else 1 + FirstMatch(hs[1..], key)
  }

  /** Removes the first entry matching `key`, keeping the others in order;
      throws `HandlerNotFound` and changes nothing when no entry matches. */
  function RemoveMatching(reg: Registry, key: RemovalKey): (r: Result<Registry, RegistrationError>)
    ensures r.Failure? <==> forall i :: 0 <= i < |reg.handlers| ==> !Matches(reg.handlers[i], key)
    ensures r.Failure? ==> r.error == HandlerNotFound
    ensures r.Success? ==> r.value.typeName == reg.typeName && r.value.paths == reg.paths
    ensures r.Success? ==> |r.value.handlers| == |reg.handlers| - 1
    ensures r.Success? ==>
              exists i :: 0 <= i < |reg.handlers| && Matches(reg.handlers[i], key) &&
                (forall j :: 0 <= j < i ==> !Matches(reg.handlers[j], key)) &&
                r.value == reg.(handlers := reg.handlers[..i] + reg.handlers[i + 1..])
  {
    var i := FirstMatch(reg.handlers, key);
    if i == |reg.handlers| then Failure(HandlerNotFound)
    else Success(reg.(handlers := reg.handlers[..i] + reg.handlers[i + 1..]))
  }

  /** Removes a pair registered through the generic `AddHandler`. */
  function RemoveHandler(reg: Registry, handle: DelegateId, list: DelegateId): (r: Result<Registry, RegistrationError>)
    ensures r.Failure? <==> forall i :: 0 <= i < |reg.handlers| ==>
              !(reg.handlers[i].originalHandle == Some(handle) && reg.handlers[i].originalList == Some(list))
    ensures r.Failure? ==> r.error == HandlerNotFound
    ensures r.Success? ==> r.value.typeName == reg.typeName && r.value.paths == reg.paths
    ensures r.Success? ==>
              exists i :: 0 <= i < |reg.handlers| &&
                reg.handlers[i].originalHandle == Some(handle) && reg.handlers[i].originalList == Some(list) &&
                (forall j :: 0 <= j < i ==> !Matches(reg.handlers[j], Original(handle, list))) &&
                r.value.handlers == reg.handlers[..i] + reg.handlers[i + 1..]
  {
    RemoveMatching(reg, Original(handle, list))
  }

  /** Removes a pair registered through the non-generic `AddRawHandler`. */
  function RemoveRawHandler(reg: Registry, handle: DelegateId, list: DelegateId): (r: Result<Registry, RegistrationError>)
    ensures r.Failure? <==> forall i :: 0 <= i < |reg.handlers| ==>
              !(reg.handlers[i].handle == HandleDelegate(handle) && reg.handlers[i].list == ListDelegate(list))
    ensures r.Failure? ==> r.error == HandlerNotFound
    ensures r.Success? ==> r.value.typeName == reg.typeName && r.value.paths == reg.paths
    ensures r.Success? ==>
              exists i :: 0 <= i < |reg.handlers| &&
                reg.handlers[i].handle == HandleDelegate(handle) && reg.handlers[i].list == ListDelegate(list) &&
                (forall j :: 0 <= j < i ==> !Matches(reg.handlers[j], Stored(handle, list))) &&
                r.value.handlers == reg.handlers[..i] + reg.handlers[i + 1..]
  {
    RemoveMatching(reg, Stored(handle, list))
  }

  // ---------------------------------------------------------------------------
  // Static paths
  // ---------------------------------------------------------------------------

  /** The outcome of registering a static path under `name`: a name already
      present is a `DuplicateKey` error, never an overwrite; otherwise exactly that
      key is added and every other key, the dynamic handlers and the type stay. */
  predicate AddsOnly(reg: Registry, name: string, r: Result<Registry, RegistrationError>)
  {
    && (r.Failure? <==> name in reg.paths)
    && (r.Failure? ==> r.error == DuplicateKey(name))
    && (r.Success? ==>
          && r.value.typeName == reg.typeName
          && r.value.handlers == reg.handlers
          && r.value.paths.Keys == reg.paths.Keys + {name}
          && forall k :: k in reg.paths ==> r.value.paths[k] == reg.paths[k])
  }

  /** Registers a static path handler under `name`. */
  function AddPath(reg: Registry, name: string, handler: PathFn): (r: Result<Registry, RegistrationError>)
    ensures AddsOnly(reg, name, r)
    ensures r.Success? ==> name in r.value.paths && r.value.paths[name] == handler
  {
    if name in reg.paths then Failure(DuplicateKey(name))
    else Success(reg.(paths := reg.paths[name := handler]))
  }

  /** Registers a handler over the nullable value at the location. */
  function AddPathNullable(reg: Registry, name: string, handler: DelegateId): (r: Result<Registry, RegistrationError>)
    ensures r.Success? <==> name !in reg.paths
    ensures AddsOnly(reg, name, r)
    ensures r.Success? ==> name in r.value.paths
    ensures r.Success? ==>
              forall env, loc :: ApplyPath(env, r.value.paths[name], loc) == env.pathNullable(handler, Get(env, loc))
  {
    AddPath(reg, name, NullableWrapper(NullableDelegate(handler)))
  }

  /** Registers a handler over the value at the location; the handler is never
      invoked with null, the path is simply not applicable then. */
  function AddPathValue(reg: Registry, name: string, handler: DelegateId): (r: Result<Registry, RegistrationError>)
    ensures r.Success? <==> name !in reg.paths
    ensures AddsOnly(reg, name, r)
    ensures r.Success? ==> name in r.value.paths
    ensures r.Success? ==>
              forall env, loc :: ApplyPath(env, r.value.paths[name], loc) ==
                (if Get(env, loc) == Null then None else env.pathValue(handler, Get(env, loc)))
  {
    AddPath(reg, name, NullableWrapper(NonNullWrapper(handler)))
  }

  /** Registers a handler over an owner and component; not applicable unless the
      location is a component path holding a non-null component. */
  function AddPathComponent(reg: Registry, name: string, handler: DelegateId): (r: Result<Registry, RegistrationError>)
    ensures r.Success? <==> name !in reg.paths
    ensures AddsOnly(reg, name, r)
    ensures r.Success? ==> name in r.value.paths
    ensures r.Success? ==>
              forall env, loc :: ApplyPath(env, r.value.paths[name], loc) ==
                (if loc.Component? && loc.value != Null then env.pathComponent(handler, loc.owner, loc.value) else None)
  {
    AddPath(reg, name, ComponentWrapper(handler))
  }

  /** Registers a getter/setter property over an owner and component. On a
      component path holding a component it always yields a location that reads
      through the getter and is writable exactly when a setter was supplied. */
  function AddPathProperty(reg: Registry, name: string, getter: DelegateId, setter: Option<DelegateId>)
    : (r: Result<Registry, RegistrationError>)
    ensures r.Success? <==> name !in reg.paths
    ensures AddsOnly(reg, name, r)
    ensures r.Success? ==> name in r.value.paths
    ensures r.Success? ==>
              forall env, loc :: ApplyPath(env, r.value.paths[name], loc).Some? <==> loc.Component? && loc.value != Null
    ensures r.Success? ==>
              forall env, owner, comp :: comp != Null ==>
                var p := ApplyPath(env, r.value.paths[name], Component(owner, comp));
                p.Some? && Get(env, p.value) == env.getter(getter, owner, comp) &&
                p.value == Bound(owner, comp, getter, setter, name, reg.typeName)
  {
    AddPath(reg, name, PropertyWrapper(name, reg.typeName, getter, setter))
  }

  /** Removes the static path `name` if present; an absent name is not an error. */
  function RemovePath(reg: Registry, name: string): (r: Registry)
    ensures r.typeName == reg.typeName && r.handlers == reg.handlers
    ensures r.paths.Keys == reg.paths.Keys - {name}
    ensures forall k :: k in r.paths ==> r.paths[k] == reg.paths[k]
  {
    reg.(paths := reg.paths - {name})
  }

  // ---------------------------------------------------------------------------
  // Resolution and listing
  // ---------------------------------------------------------------------------

  /** Whether the first `n` entries of `hs` all decline `rel` at `loc`. */
  ghost predicate DeclinedBefore(env: Delegates, hs: seq<HandlerData>, n: nat, loc: Location, rel: string)
    requires n <= |hs|
  {
    forall j :: 0 <= j < n ==> HandleOf(env, hs[j], loc, rel).None?
  }

  /** The exact-name lookup in the static map (`TryGetValue`). */
  function StaticLookup(env: Delegates, paths: map<string, PathFn>, loc: Location, rel: string): Option<Location>
  {
    if rel in paths then ApplyPath(env, paths[rel], loc) else None
  }

  /** The index of the first entry that answers `rel` at `loc`, or `|hs|` when
      every entry declines. */
  function FirstAnswer(env: Delegates, hs: seq<HandlerData>, loc: Location, rel: string): (i: nat)
    ensures i <= |hs|
    ensures DeclinedBefore(env, hs, i, loc, rel)
    ensures i < |hs| ==> HandleOf(env, hs[i], loc, rel).Some?
  {
    if hs == [] then 0
    else if HandleOf(env, hs[0], loc, rel).Some? then 0
    else
      var i := 1 + FirstAnswer(env, hs[1..], loc, rel);
      assert forall j :: 1 <= j < i ==> hs[j] == hs[1..][j - 1];
      i
  }

  /** Tries the entries of `hs` in order, then the static map: the first entry
      that answers wins; only when all decline is the static handler consulted. */
  function ResolveFrom(env: Delegates, hs: seq<HandlerData>, paths: map<string, PathFn>, loc: Location, rel: string)
    : (r: Option<Location>)
    ensures var k := FirstAnswer(env, hs, loc, rel);
            r == if k < |hs| then HandleOf(env, hs[k], loc, rel) else StaticLookup(env, paths, loc, rel)
    decreases |hs|
  {
    if hs == [] then StaticLookup(env, paths, loc, rel)
    else
      match HandleOf(env, hs[0], loc, rel)
      case Some(p) => Some(p)
      case None => ResolveFrom(env, hs[1..], paths, loc, rel)
  }

  /** Resolves `rel` relative to `loc`. */
  function HandlePath(env: Delegates, reg: Registry, loc: Location, rel: string): (r: Option<Location>)
    ensures var k := FirstAnswer(env, reg.handlers, loc, rel);
            k < |reg.handlers| ==> r == HandleOf(env, reg.handlers[k], loc, rel)
    ensures DeclinedBefore(env, reg.handlers, |reg.handlers|, loc, rel) ==>
              r == (if rel in reg.paths then ApplyPath(env, reg.paths[rel], loc) else None)
  {
    ResolveFrom(env, reg.handlers, reg.paths, loc, rel)
  }

  /** Every name the dynamic entries list, entry by entry, duplicates kept. */
  function DynamicNames(env: Delegates, hs: seq<HandlerData>, loc: Location): seq<string>
  {
    if hs == [] then [] else ListOf(env, hs[0], loc) + DynamicNames(env, hs[1..], loc)
  }

  predicate NoDuplicates(s: seq<string>)
  {
    forall i, j :: 0 <= i < j < |s| ==> s[i] != s[j]
  }

  /** Whether `order` is an enumeration of the static map: each key exactly once.
      It stands for the dictionary's enumeration order, which is left unspecified. */
  predicate EnumeratesKeys(order: seq<string>, paths: map<string, PathFn>)
  {
    && NoDuplicates(order)
    && (forall i :: 0 <= i < |order| ==> order[i] in paths)
    && (forall k :: k in paths ==> k in order)
  }

  /** The static names, in `order`, whose handler is applicable at `loc`. */
  function ApplicableNames(env: Delegates, paths: map<string, PathFn>, loc: Location, order: seq<string>)
    : (r: seq<string>)
    ensures forall x :: x in r <==> x in order && x in paths && ApplyPath(env, paths[x], loc).Some?
    ensures NoDuplicates(order) ==> NoDuplicates(r)
  {
    if order == [] then []
    else
      var rest := ApplicableNames(env, paths, loc, order[1..]);
      if order[0] in paths && ApplyPath(env, paths[order[0]], loc).Some? then [order[0]] + rest else rest
  }

  /** Lists the names valid at `loc`: the dynamic entries' names first, then,
      in the dictionary's enumeration order `order`, each static name whose
      handler is applicable right now. */
  function ListPath(env: Delegates, reg: Registry, loc: Location, order: seq<string>): (r: seq<string>)
    requires EnumeratesKeys(order, reg.paths)
    ensures |DynamicNames(env, reg.handlers, loc)| <= |r|
    ensures r[..|DynamicNames(env, reg.handlers, loc)|] == DynamicNames(env, reg.handlers, loc)
    ensures forall x :: x in r[|DynamicNames(env, reg.handlers, loc)|..] <==>
              x in reg.paths && ApplyPath(env, reg.paths[x], loc).Some?
    ensures NoDuplicates(r[|DynamicNames(env, reg.handlers, loc)|..])
  {
    var dyn := DynamicNames(env, reg.handlers, loc);
    var r := dyn + ApplicableNames(env, reg.paths, loc, order);
    assert r[|dyn|..] == ApplicableNames(env, reg.paths, loc, order);
    r
  }
}
