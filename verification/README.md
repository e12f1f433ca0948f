# ViewVariables type-handler registry and path completion, in Dafny

This project models two sequential pieces of the ViewVariables introspection layer of
RobustToolbox.

1. **`ViewVariablesTypeHandler<T>`**: the per-type path registry. It holds an ordered
   list of dynamic handler entries and a name-to-handler map of static paths.
   - Resolution (`HandlePath`) asks the dynamic handlers in registration order, and the
     first one that answers wins. When every handler declines, it falls back to an
     exact-name lookup in the static map.
   - Listing (`ListPath`) gives every name the dynamic handlers list, then every static
     name whose handler is applicable at the location.
   - The adapter overloads of `AddPath` lift narrower handler shapes into the stored
     one: nullable value, non-null value, component, and getter/setter property.
2. **`ViewVariablesBaseCommand.GetCompletionAsync`**: the completion decision. It covers
   the arity check, the client/server split and the `/c` client-side prefix.

## Files

- `wrappers.dfy`, module `Wrappers`: `Option` (a nullable reference) and `Result`
  (an operation that may throw).
- `paths.dfy`, module `Paths`: the addressable location
  `Plain(value) | Component(owner, value) | Bound(...)` and `Get`. `Bound` is the
  getter/setter location the property adapter builds.
  - A caller-supplied delegate is a `DelegateId`, which stands for the delegate up to
    C# delegate equality (same method and same target), so two distinct instances over
    the same method and target share an id. Its meaning comes from a `Delegates` record
    of functions, which is passed to every operation that invokes a delegate.
  - This split exists because removal compares delegates by that equality, and Dafny
    function values have no equality.
- `type_handler.dfy`, module `TypeHandler`: the registry and its operations.
  - The source's closures are datatypes that record what they wrap: `HandleFn`, `ListFn`,
    `NullableFn` and `PathFn`.
  - `HandlerData` is the source's `TypeHandlerData`. It includes the
    `OriginalHandle`/`OriginalList` fields, which only the generic overload sets.
- `type_handler_properties.dfy`, module `TypeHandlerProperties`: lemmas that relate
  operations to each other. They cover priority, round trips of registration and
  removal, listing versus resolution, and "nothing else changes".
- `base_command.dfy`, module `BaseCommand`: the completion function and its lemmas.

The C# method overloads get distinct names in Dafny:
- generic `AddHandler`/`RemoveHandler` are `AddHandler`/`RemoveHandler`;
- the non-generic ones are `AddRawHandler`/`RemoveRawHandler`;
- `AddPath(string, PathHandler<T>)` is `AddPathValue`;
- the component overload is `AddPathComponent`;
- the getter/setter overload is `AddPathProperty`;
- `AddPath(string, PathHandler)` is `AddPath`.

Both removal overloads share `RemoveMatching`. The `RemovalKey` argument says which
fields are compared:
- `Original` compares `OriginalHandle`/`OriginalList` (the generic overload);
- `Stored` compares `Handle`/`List` (the non-generic overload).

An entry added by the generic `AddHandler` stores wrapper closures. So the non-generic
removal never finds it, and the reverse also holds. `OverloadsDoNotCross` states this.

## Model

| member | source | states |
|---|---|---|
| TypeHandler.AddHandler | Robust.Shared/ViewVariables/ViewVariablesTypeHandler.cs:42-52 | appends exactly one entry at the end, the existing entries and their order and the static map are unchanged; the new entry resolves by calling the caller's handler with the location's value and lists with the caller's list over that value; it is found by the generic removal and not by the non-generic one |
| TypeHandler.AddRawHandler | Robust.Shared/ViewVariables/ViewVariablesTypeHandler.cs:55-59 | appends exactly one entry at the end, nothing else changes; the new entry resolves and lists with the caller's own delegates over the location; it is found by the non-generic removal and never by the generic one |
| TypeHandler.FirstMatch | Robust.Shared/ViewVariables/ViewVariablesTypeHandler.cs:68-77 | the index found is the first entry matching the removal request, every earlier entry does not match, and it is past the end only when nothing matches |
| TypeHandler.RemoveMatching | Robust.Shared/ViewVariables/ViewVariablesTypeHandler.cs:66-97 | fails with "not found" iff no entry matches; otherwise removes exactly the first matching entry and keeps the rest in order, with the static map unchanged |
| TypeHandler.RemoveHandler | Robust.Shared/ViewVariables/ViewVariablesTypeHandler.cs:66-80 | fails with "not found" iff no entry's original handle and list are the given pair; otherwise removes exactly the first such entry, keeps the rest in order and leaves the static map unchanged |
| TypeHandler.RemoveRawHandler | Robust.Shared/ViewVariables/ViewVariablesTypeHandler.cs:83-97 | fails with "not found" iff no entry stores exactly the given handle and list; otherwise removes exactly the first such entry, keeps the rest in order and leaves the static map unchanged |
| TypeHandler.AddPath | Robust.Shared/ViewVariables/ViewVariablesTypeHandler.cs:175-179 | fails with a duplicate-key error iff the name is already a key; otherwise adds exactly that key with that handler and leaves every other key, the handlers and the type unchanged |
| TypeHandler.AddPathNullable | Robust.Shared/ViewVariables/ViewVariablesTypeHandler.cs:114-120 | registers under a fresh name a path that hands the location's current value, null included, to the caller's handler; like `AddPath`, a duplicate name is a duplicate-key error and otherwise exactly that key is added, with every other key, the dynamic handlers and the type unchanged |
| TypeHandler.AddPathValue | Robust.Shared/ViewVariables/ViewVariablesTypeHandler.cs:103-109 | registers under a fresh name a path that is not applicable when the value is null and otherwise hands the value to the caller's handler; like `AddPath`, a duplicate name is a duplicate-key error and otherwise exactly that key is added, with every other key, the dynamic handlers and the type unchanged |
| TypeHandler.AddPathComponent | Robust.Shared/ViewVariables/ViewVariablesTypeHandler.cs:124-135 | registers under a fresh name a path that declines unless the location is a component path holding a non-null component, and otherwise calls the handler with owner and component; like `AddPath`, a duplicate name is a duplicate-key error and otherwise exactly that key is added, with every other key, the dynamic handlers and the type unchanged |
| TypeHandler.AddPathProperty | Robust.Shared/ViewVariables/ViewVariablesTypeHandler.cs:138-172 | registers under a fresh name a path that is applicable exactly on component paths holding a component; the location it yields reads as getter(owner, component), writes through exactly the caller's setter (none if none was supplied), and carries this path name and the registry's type name for the setter's log; like `AddPath`, a duplicate name is a duplicate-key error and otherwise exactly that key is added, with every other key, the dynamic handlers and the type unchanged |
| TypeHandler.Write | Robust.Shared/ViewVariables/ViewVariablesTypeHandler.cs:151-166 | writing through a property location is impossible without a setter; a setter that returns is a completed write; a null-reference failure of the setter is swallowed and logged to the "ViewVariablesManager" sawmill with the path and type name; every other failure reaches the caller; a null reference never does |
| TypeHandler.RemovePath | Robust.Shared/ViewVariables/ViewVariablesTypeHandler.cs:185-189 | removes exactly the given key if present, every other key keeps its handler, the dynamic handlers are untouched |
| TypeHandler.FirstAnswer | Robust.Shared/ViewVariables/ViewVariablesTypeHandler.cs:194-198 | the index found is the earliest dynamic entry that answers the name at the location, every earlier entry declines, and it is past the end only when all decline |
| TypeHandler.ResolveFrom | Robust.Shared/ViewVariables/ViewVariablesTypeHandler.cs:191-204 | the result is the answer of the earliest dynamic handler that answers; when all decline it is the static handler's answer for an exact key match and null for an unknown name |
| TypeHandler.HandlePath | Robust.Shared/ViewVariables/ViewVariablesTypeHandler.cs:191-204 | resolving a name gives the answer of the earliest registered dynamic handler that answers; when all decline, the static handler's answer for an exact key match, and null for an unknown name |
| TypeHandler.ApplicableNames | Robust.Shared/ViewVariables/ViewVariablesTypeHandler.cs:216-220 | a static name is listed iff it is a key whose handler is applicable at the location; no name is listed twice |
| TypeHandler.ListPath | Robust.Shared/ViewVariables/ViewVariablesTypeHandler.cs:206-221 | the listing starts with the dynamic entries' names in registration order and is followed by exactly the applicable static names, each once |
| TypeHandlerProperties.PrefixDecides | Robust.Shared/ViewVariables/ViewVariablesTypeHandler.cs:193-197 | once some entry of a prefix answers, entries after that prefix cannot change the result |
| TypeHandlerProperties.LaterHandlerNeverWins | Robust.Shared/ViewVariables/ViewVariablesTypeHandler.cs:193-197 | registering another dynamic handler, through either overload, never changes a resolution an earlier handler already answers |
| TypeHandlerProperties.AddHandlerResolution | Robust.Shared/ViewVariables/ViewVariablesTypeHandler.cs:42-52 | a handler added through the generic overload changes a resolution only when every earlier handler declines, and then gives its own answer over the location's value if it has one |
| TypeHandlerProperties.AddRawHandlerResolution | Robust.Shared/ViewVariables/ViewVariablesTypeHandler.cs:55-59 | a handler added through the non-generic overload changes a resolution only when every earlier handler declines, and then gives its own answer over the location if it has one |
| TypeHandlerProperties.PropertyPathWrites | Robust.Shared/ViewVariables/ViewVariablesTypeHandler.cs:138-172 | a property path registered under a fresh name and resolved on a component path that no dynamic handler claims reads through the getter, and writing through it has exactly the caller's setter's effect: none without a setter, a completed write, a logged and suppressed null reference naming the path and type, or any other exception raised |
| TypeHandlerProperties.AddPathResolution | Robust.Shared/ViewVariables/ViewVariablesTypeHandler.cs:200-203 | a new static path changes resolution only for its own name and only when every dynamic handler declines it, and then gives the new handler's answer |
| TypeHandlerProperties.RemovePathResolution | Robust.Shared/ViewVariables/ViewVariablesTypeHandler.cs:185-189 | after removing a static path its name resolves to null unless a dynamic handler answers it; every other name resolves as before |
| TypeHandlerProperties.RemovePathIdempotent | Robust.Shared/ViewVariables/ViewVariablesTypeHandler.cs:185-189 | removing a static path twice equals removing it once, and removing an absent name is a no-op |
| TypeHandlerProperties.AddThenRemovePath | Robust.Shared/ViewVariables/ViewVariablesTypeHandler.cs:175-189 | adding a fresh static path and then removing it restores the registry |
| TypeHandlerProperties.AddThenRemoveHandler | Robust.Shared/ViewVariables/ViewVariablesTypeHandler.cs:42-80 | the generic removal right after the generic registration of a pair not already present restores the registry |
| TypeHandlerProperties.AddThenRemoveRawHandler | Robust.Shared/ViewVariables/ViewVariablesTypeHandler.cs:55-97 | the non-generic removal right after the non-generic registration of a pair not already present restores the registry |
| TypeHandlerProperties.OverloadsDoNotCross | Robust.Shared/ViewVariables/ViewVariablesTypeHandler.cs:66-97 | a pair registered through one overload is not found by the other overload's removal |
| TypeHandlerProperties.DynamicNamesAppend | Robust.Shared/ViewVariables/ViewVariablesTypeHandler.cs:208-214 | the dynamic listing of two entry sequences in a row is the concatenation of their listings, duplicates kept |
| TypeHandlerProperties.ListAfterAddHandler | Robust.Shared/ViewVariables/ViewVariablesTypeHandler.cs:42-59 | registering a dynamic handler appends exactly that handler's names to the dynamic part of the listing |
| TypeHandlerProperties.DynamicNamesSplit | Robust.Shared/ViewVariables/ViewVariablesTypeHandler.cs:208-214 | the dynamic listing is the names of the entries before an entry, then that entry's names, then the names of the entries after it |
| TypeHandlerProperties.ListAfterRemove | Robust.Shared/ViewVariables/ViewVariablesTypeHandler.cs:66-97 | a successful removal takes exactly the removed entry's names out of the listing, with the other entries' names in their order |
| TypeHandlerProperties.ListedIffResolvable | Robust.Shared/ViewVariables/ViewVariablesTypeHandler.cs:200-220 | when no dynamic handler answers a name, the static part of the listing contains it exactly when resolving it succeeds |
| TypeHandlerProperties.NewRegistryIsEmpty | Robust.Shared/ViewVariables/ViewVariablesTypeHandler.cs:27-32 | a freshly created registry resolves every name to null and lists nothing |
| BaseCommand.Suggest | Robust.Shared/ViewVariables/Commands/ViewVariablesBaseCommand.cs:30-32 | one partial-completion option per listed path, without hint, whose text is the prefix followed by that path |
| BaseCommand.GetCompletion | Robust.Shared/ViewVariables/Commands/ViewVariablesBaseCommand.cs:20-42 | no options for any arity other than one; on a client a `/c` argument gives `/c` plus each local entry for the rest of the argument, with no remote query; any other client argument gives the remote entries in order plus one trailing `/c` option labelled "Client-side paths"; a non-client gives the local listing of the argument unchanged; every option is a partial completion |
| BaseCommand.ClientOptionsStripToLocal | Robust.Shared/ViewVariables/Commands/ViewVariablesBaseCommand.cs:29-32 | stripping `/c` from each client-side option gives back the local listing in order |
| BaseCommand.ClientOptionLeadsToLocalRoot | Robust.Shared/ViewVariables/Commands/ViewVariablesBaseCommand.cs:27-36 | completing again with the trailing `/c` option lists the client's root locally, with no remote query |
| BaseCommand.PrefixTestIsPlain | Robust.Shared/ViewVariables/Commands/ViewVariablesBaseCommand.cs:29-31 | the prefix test is a character prefix: `/cat` on a client is completed locally as `at` |

## Left out

- The source's casts `(T?)path.Get()` and `(T)obj` throw on a value of the wrong type
  rather than declining. The model assumes every value is of the registry's type.
- The remote listing is awaited with no failure handling, so the model has no
  degrade-to-empty rule for it.
- Exceptions from caller-supplied delegates are not modelled: every `handle`, `list`,
  path and component handler is a total function here, while in the source their
  exceptions pass straight through `HandlePath` and `ListPath`. Likewise, for a
  value-type `T` a null value makes `(T?)path.Get()` throw, where the model hands `Null`
  to the handler.
- Null delegate arguments are not modelled, because delegate ids are never null. In the
  source, a generic `RemoveHandler(null, null)` would match the first non-generic entry.
- A getter that throws is not modelled: the getter is a total function.
- The cast `(TValue) value!` in the property setter is not modelled.
- Setters of `Plain` and `Component` locations are not modelled. They belong to the
  location implementation, which is outside this model. `Write` covers only the
  property location built here.
- `Logger.ErrorS` is modelled only as the `LogEvent` record a swallowed null reference
  produces. Log output is not modelled.
- TypeHandler.ListPath: the order of the static names is not specified. Their order
  follows dictionary enumeration, which is given as an `order` parameter that lists each
  key once. The contract states which static names appear and that each appears once,
  not in what order.
- `ListPath` in the source iterates lazily with `yield`. The model computes the whole
  sequence at once.
- `StartsWith` in the source is culture-sensitive. The model uses an ordinal prefix test.
- Networking, `async`, cancellation and `[Dependency]` injection are left out:
  - `IsClient` is a boolean parameter;
  - `ListRemotePath` and the manager's `ListPath` are function parameters;
  - the `CancellationToken` is not passed on by the source and is not modelled.
- `CompletionResult.Empty` and `CompletionResult.FromOptions` are modelled only through
  their list of options. How the result is rendered is not modelled.
- The location implementation (`Get`, `FromGetter`, `WithSetter`) is abstracted as the
  `Location` datatype.
- The process-wide map from type to registry is not modelled. It lives outside the
  registry.
- `SerializerStatsCommand` is not modelled: it only prints global serializer counters.
- Thread-safety is not modelled. The source registers single-threaded and has no
  locking.
