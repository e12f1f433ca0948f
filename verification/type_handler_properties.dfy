/** Properties relating the registry's operations to each other: registration
    order is priority order, removal undoes registration, static paths never
    override dynamic handlers, and listing agrees with resolution. */
module TypeHandlerProperties {
  import opened Wrappers
  import opened Paths
  import opened TypeHandler

  /** Resolution only looks at the first `n` entries when one of them answers:
      entries appended after them cannot change the result. */
  lemma PrefixDecides(env: Delegates, hs: seq<HandlerData>, tail: seq<HandlerData>,
                      paths: map<string, PathFn>, loc: Location, rel: string)
    requires !DeclinedBefore(env, hs, |hs|, loc, rel)
    ensures ResolveFrom(env, hs + tail, paths, loc, rel) == ResolveFrom(env, hs, paths, loc, rel)
  {
    var ext := hs + tail;
    assert forall j :: 0 <= j < |hs| ==> ext[j] == hs[j];
  }

  /** A handler registered later never wins over an earlier one that answers. */
  lemma LaterHandlerNeverWins(env: Delegates, reg: Registry, handle: DelegateId, list: DelegateId,
                              loc: Location, rel: string)
    requires !DeclinedBefore(env, reg.handlers, |reg.handlers|, loc, rel)
    ensures HandlePath(env, AddHandler(reg, handle, list), loc, rel) == HandlePath(env, reg, loc, rel)
    ensures HandlePath(env, AddRawHandler(reg, handle, list), loc, rel) == HandlePath(env, reg, loc, rel)
  {
  }

  /** Registering a handler through the generic overload changes resolution
      only when every earlier handler declines; then the new handler, called with
      the location's value, answers if it can, else the static map is consulted. */
  lemma AddHandlerResolution(env: Delegates, reg: Registry, handle: DelegateId, list: DelegateId,
                             loc: Location, rel: string)
    ensures HandlePath(env, AddHandler(reg, handle, list), loc, rel) ==
              if DeclinedBefore(env, reg.handlers, |reg.handlers|, loc, rel) &&
                 env.handleTyped(handle, Get(env, loc), rel).Some?
              then env.handleTyped(handle, Get(env, loc), rel)
              else HandlePath(env, reg, loc, rel)
  {
  }

  /** The same for the non-generic overload, whose handler sees the location. */
  lemma AddRawHandlerResolution(env: Delegates, reg: Registry, handle: DelegateId, list: DelegateId,
                                loc: Location, rel: string)
    ensures HandlePath(env, AddRawHandler(reg, handle, list), loc, rel) ==
              if DeclinedBefore(env, reg.handlers, |reg.handlers|, loc, rel) && env.handle(handle, loc, rel).Some?
              then env.handle(handle, loc, rel)
              else HandlePath(env, reg, loc, rel)
  {
  }

  /** Adding a static path changes resolution for that one name, and only when
      every dynamic handler declines it; then the new handler's answer is used. */
  lemma AddPathResolution(env: Delegates, reg: Registry, name: string, handler: PathFn, loc: Location, rel: string)
    requires name !in reg.paths
    ensures AddPath(reg, name, handler).Success?
    ensures HandlePath(env, AddPath(reg, name, handler).value, loc, rel) ==
              if rel == name && DeclinedBefore(env, reg.handlers, |reg.handlers|, loc, rel)
              then ApplyPath(env, handler, loc)
              else HandlePath(env, reg, loc, rel)
  {
  }

  /** Removing a static path makes that name unresolvable unless a dynamic
      handler answers it; every other name resolves as before. */
  lemma RemovePathResolution(env: Delegates, reg: Registry, name: string, loc: Location, rel: string)
    ensures HandlePath(env, RemovePath(reg, name), loc, rel) ==
              if rel == name && DeclinedBefore(env, reg.handlers, |reg.handlers|, loc, rel)
              then None
              else HandlePath(env, reg, loc, rel)
  {
  }

  /** Removing a static path twice is removing it once; removing an absent name
      changes nothing. */
  lemma RemovePathIdempotent(reg: Registry, name: string)
    ensures RemovePath(RemovePath(reg, name), name) == RemovePath(reg, name)
    ensures name !in reg.paths ==> RemovePath(reg, name) == reg
  {
  }

  /** Adding a fresh static path and removing it again restores the registry. */
  lemma AddThenRemovePath(reg: Registry, name: string, handler: PathFn)
    requires name !in reg.paths
    ensures AddPath(reg, name, handler).Success?
    ensures RemovePath(AddPath(reg, name, handler).value, name) == reg
  {
  }

  /** Removing right after the generic `AddHandler` restores the registry, as
      long as no earlier entry was registered with the same original pair. */
  lemma AddThenRemoveHandler(reg: Registry, handle: DelegateId, list: DelegateId)
    requires forall i :: 0 <= i < |reg.handlers| ==> !Matches(reg.handlers[i], Original(handle, list))
    ensures RemoveHandler(AddHandler(reg, handle, list), handle, list) == Success(reg)
  {
    var hs := AddHandler(reg, handle, list).handlers;
    assert FirstMatch(hs, Original(handle, list)) == |reg.handlers|;
    assert hs[..|reg.handlers|] + hs[|reg.handlers| + 1..] == reg.handlers;
  }

  /** Removing right after the non-generic `AddRawHandler` restores the registry,
      as long as no earlier entry stores the same pair. */
  lemma AddThenRemoveRawHandler(reg: Registry, handle: DelegateId, list: DelegateId)
    requires forall i :: 0 <= i < |reg.handlers| ==> !Matches(reg.handlers[i], Stored(handle, list))
    ensures RemoveRawHandler(AddRawHandler(reg, handle, list), handle, list) == Success(reg)
  {
    var hs := AddRawHandler(reg, handle, list).handlers;
    assert FirstMatch(hs, Stored(handle, list)) == |reg.handlers|;
    assert hs[..|reg.handlers|] + hs[|reg.handlers| + 1..] == reg.handlers;
  }

  /** The two removal overloads do not see each other's entries: a pair added
      through one overload cannot be removed through the other. */
  lemma OverloadsDoNotCross(reg: Registry, handle: DelegateId, list: DelegateId)
    ensures (forall i :: 0 <= i < |reg.handlers| ==> !Matches(reg.handlers[i], Stored(handle, list))) ==>
              RemoveRawHandler(AddHandler(reg, handle, list), handle, list) == Failure(HandlerNotFound)
    ensures (forall i :: 0 <= i < |reg.handlers| ==> !Matches(reg.handlers[i], Original(handle, list))) ==>
              RemoveHandler(AddRawHandler(reg, handle, list), handle, list) == Failure(HandlerNotFound)
  {
  }

  /** Listing distributes over concatenation of entry sequences. */
  lemma {:induction false} DynamicNamesAppend(env: Delegates, a: seq<HandlerData>, b: seq<HandlerData>, loc: Location)
    ensures DynamicNames(env, a + b, loc) == DynamicNames(env, a, loc) + DynamicNames(env, b, loc)
    decreases |a|
  {
    if a == [] {
      assert a + b == b;
    } else {
      assert (a + b)[1..] == a[1..] + b;
      DynamicNamesAppend(env, a[1..], b, loc);
    }
  }

  /** `AddHandler` appends exactly the new handler's listing to the dynamic names. */
  lemma ListAfterAddHandler(env: Delegates, reg: Registry, handle: DelegateId, list: DelegateId, loc: Location)
    ensures DynamicNames(env, AddHandler(reg, handle, list).handlers, loc) ==
              DynamicNames(env, reg.handlers, loc) + env.listTyped(list, Get(env, loc))
    ensures DynamicNames(env, AddRawHandler(reg, handle, list).handlers, loc) ==
              DynamicNames(env, reg.handlers, loc) + env.list(list, loc)
  {
    var typed := AddHandler(reg, handle, list).handlers;
    var raw := AddRawHandler(reg, handle, list).handlers;
    assert typed == reg.handlers + typed[|reg.handlers|..];
    assert raw == reg.handlers + raw[|reg.handlers|..];
    DynamicNamesAppend(env, reg.handlers, typed[|reg.handlers|..], loc);
    DynamicNamesAppend(env, reg.handlers, raw[|reg.handlers|..], loc);
  }

  /** The listing of a sequence of entries, split around entry `i`. */
  lemma DynamicNamesSplit(env: Delegates, hs: seq<HandlerData>, i: nat, loc: Location)
    requires i < |hs|
    ensures DynamicNames(env, hs, loc) ==
              DynamicNames(env, hs[..i], loc) + ListOf(env, hs[i], loc) + DynamicNames(env, hs[i + 1..], loc)
  {
    assert hs == hs[..i] + hs[i..];
    DynamicNamesAppend(env, hs[..i], hs[i..], loc);
    assert hs[i..][1..] == hs[i + 1..];
  }

  /** A successful removal takes exactly the removed entry's names out of the
      listing; the names of the entries before and after it keep their order. */
  lemma ListAfterRemove(env: Delegates, reg: Registry, key: RemovalKey, loc: Location)
    requires RemoveMatching(reg, key).Success?
    ensures var i := FirstMatch(reg.handlers, key);
            i < |reg.handlers| &&
            DynamicNames(env, RemoveMatching(reg, key).value.handlers, loc) ==
              DynamicNames(env, reg.handlers[..i], loc) + DynamicNames(env, reg.handlers[i + 1..], loc) &&
            DynamicNames(env, reg.handlers, loc) ==
              DynamicNames(env, reg.handlers[..i], loc) + ListOf(env, reg.handlers[i], loc) +
              DynamicNames(env, reg.handlers[i + 1..], loc)
  {
    var hs := reg.handlers;
    var i := FirstMatch(hs, key);
    assert RemoveMatching(reg, key).value.handlers == hs[..i] + hs[i + 1..];
    DynamicNamesAppend(env, hs[..i], hs[i + 1..], loc);
    DynamicNamesSplit(env, hs, i, loc);
  }

  /** Listing agrees with resolution: when no dynamic handler answers `x`, the
      static part of the listing names `x` exactly when resolving `x` succeeds. */
  lemma ListedIffResolvable(env: Delegates, reg: Registry, loc: Location, order: seq<string>, x: string)
    requires EnumeratesKeys(order, reg.paths)
    requires DeclinedBefore(env, reg.handlers, |reg.handlers|, loc, x)
    ensures x in ListPath(env, reg, loc, order)[|DynamicNames(env, reg.handlers, loc)|..] <==>
              HandlePath(env, reg, loc, x).Some?
  {
  }

  /** A fresh registry resolves every name to null and lists nothing. */
  lemma NewRegistryIsEmpty(env: Delegates, typeName: string, loc: Location, rel: string)
    ensures HandlePath(env, New(typeName), loc, rel).None?
    ensures ListPath(env, New(typeName), loc, []) == []
  {
  }

  /** Writing through a property path registered under a fresh name, resolved on a
      component path holding a component that no dynamic handler claims, has
      exactly the caller's setter's effect: no write without a setter, a completed
      write when it returns, a logged and suppressed null reference, and any other
      exception raised to the caller. */
  lemma PropertyPathWrites(env: Delegates, reg: Registry, name: string, getter: DelegateId,
                           setter: Option<DelegateId>, owner: Uid, comp: Value, value: Value)
    requires name !in reg.paths
    requires comp != Null
    requires DeclinedBefore(env, reg.handlers, |reg.handlers|, Component(owner, comp), name)
    ensures AddPathProperty(reg, name, getter, setter).Success?
    ensures var p := HandlePath(env, AddPathProperty(reg, name, getter, setter).value, Component(owner, comp), name);
            && p.Some? && p.value.Bound?
            && Get(env, p.value) == env.getter(getter, owner, comp)
            && Write(env, p.value, value) ==
                 match setter
                 case None => None
                 case Some(s) =>
                   match env.setter(s, owner, value, comp)
                   case Returned => Some(Written)
                   case Threw(NullReference) =>
                     Some(Suppressed(LogEvent("ViewVariablesManager", NullReference,
                                              NullReferenceMessage(name, reg.typeName))))
                   case Threw(e) => Some(Raised(e))
  {
  }
}
