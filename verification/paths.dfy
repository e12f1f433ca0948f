/** Addressable locations: the view-variables paths a type handler resolves against
    and produces, and the caller-supplied delegates a handler is built from.

    A delegate is known to the model only by a `DelegateId`, which stands for the
    delegate up to C# delegate equality (same method and same target); what it
    computes is given by a `Delegates` record, passed to every operation that
    invokes one. Handler removal compares delegates by that equality, and Dafny
    function values have no equality, hence the split. */
module Paths {
  import opened Wrappers

  /** An entity identifier (`EntityUid`). */
  type Uid = nat

  /** A caller-supplied delegate, up to C# delegate equality: two delegates over
      the same method and target have the same id, even as distinct instances. */
  type DelegateId = nat

  /** A runtime object reference, possibly null. The registry is per type `T`;
      values read from a location are taken to be of that type (a mismatched
      cast throws in the source and is outside this model). */
  datatype Value = Null | Ref(id: nat)

  /** An addressable location.
      - `Plain`: any location that is not specifically a component path;
      - `Component`: a location that addresses a component owned by an entity;
      - `Bound`: the read/write location the property adapter synthesises from a
        getter and an optional setter over one owner and one component. */
  datatype Location =
    | Plain(value: Value)
    | Component(owner: Uid, value: Value)
    | Bound(owner: Uid, comp: Value, getter: DelegateId, setter: Option<DelegateId>,
            path: string, typeName: string)

  /** The kinds of exception a caller-supplied setter can throw. */
  datatype Exception = NullReference | OtherException(kind: nat)

  /** What one invocation of a caller-supplied setter did. */
  datatype SetterOutcome = Returned | Threw(exception: Exception)

  /** The meaning of every delegate shape the registry accepts, by id.
      - `handle`/`handleTyped`: dynamic resolvers over a location / over its value;
      - `list`/`listTyped`: the companion name listings;
      - `path`/`pathValue`/`pathNullable`/`pathComponent`: static path handlers
        over a location, a non-null value, a nullable value, an owner and component;
      - `getter`/`setter`: component property accessors. */
  datatype Delegates = Delegates(
    handle: (DelegateId, Location, string) -> Option<Location>,
    handleTyped: (DelegateId, Value, string) -> Option<Location>,
    list: (DelegateId, Location) -> seq<string>,
    listTyped: (DelegateId, Value) -> seq<string>,
    path: (DelegateId, Location) -> Option<Location>,
    pathValue: (DelegateId, Value) -> Option<Location>,
    pathNullable: (DelegateId, Value) -> Option<Location>,
    pathComponent: (DelegateId, Uid, Value) -> Option<Location>,
    getter: (DelegateId, Uid, Value) -> Value,
    setter: (DelegateId, Uid, Value, Value) -> SetterOutcome)

  /** The value currently at a location. A bound location reads through its
      getter every time, so it reflects the component's current state. */
  function Get(env: Delegates, loc: Location): Value
  {
    match loc
    case Plain(v) => v
    case Component(_, v) => v
    case Bound(owner, comp, getter, _, _, _) => env.getter(getter, owner, comp)
  }
}
