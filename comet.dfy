/**
 * The component host and its typed front end.
 *
 * A host keeps an interface table that maps the identity of an interface type
 * to an opaque pointer to the component registered under it. Components are
 * attached and detached under an identity. A host-aware component holds a
 * back-reference to its host and forwards its queries there, so it can find
 * its siblings. `ComPtr` is the immutable handle that stores the answer to
 * one such query.
 *
 * The C++ declares an abstract `IComHost` and implements it in the final
 * class `CComHost`, its only implementation. The model merges the two into
 * the one class `ComHost`. It holds the table, the private virtuals
 * (`QueryInterface`, `AttachEntry`, `DetachEntry`) and the typed front end
 * (`Attach`, `RawAttach`, `Detach`).
 */
module Comet {

  /** Unsigned 32-bit integer, the type of the capacity hint. */
  newtype uint32 = x: int | 0 <= x < 0x1_0000_0000

  /**
   * The identity of an interface type (`&typeid(I)`). Two identities are
   * equal exactly when they name the same interface. `HostTypeId` is the
   * identity of the host's own interface `IComHost`.
   */
  datatype TypeId = HostTypeId | InterfaceTypeId(name: string)

  /**
   * An untyped pointer (`void*`): null, the address of a host, or the address
   * of a component. Casts between interface pointers of one object keep the
   * object, so a pointer is identified with the object it points into.
   */
  datatype Ptr = Null | HostAt(host: ComHost) | ComponentAt(component: Component)

  /** The interface table (`m_impl_table`): at most one entry per identity. */
  type Table = map<TypeId, Ptr>

  /** A table operation's new table together with the pointer it returns. */
  datatype Outcome = Outcome(table: Table, result: Ptr)

  /** The table invariant: the host's own identity is never registered. */
  predicate WellFormed(table: Table) {
    HostTypeId !in table
  }

  /**
   * The answer of host `self`, whose table is `table`, to a query for `t`.
   * The host's own identity is answered with the host. Any other identity is
   * looked up in the table, and a missing entry answers null.
   */
  function QuerySpec(table: Table, self: ComHost, t: TypeId): Ptr {
    if t == HostTypeId then HostAt(self)
    else if t in table then table[t]
    else Null
  }

  /**
   * Registering `impl` under `t`. The host's own identity is refused. An
   * occupied identity is refused too, because `emplace` never overwrites.
   * Otherwise the entry is added and `impl` is returned. A refusal returns
   * null and leaves the table as it was.
   */
  function AttachSpec(table: Table, t: TypeId, impl: Ptr): Outcome {
    if t == HostTypeId then Outcome(table, Null)
    else if t in table then Outcome(table, Null)
    else Outcome(table[t := impl], impl)
  }

  /**
   * Unregistering `t`: a present entry is removed and its pointer returned.
   * An absent one returns null and leaves the table as it was.
   */
  function DetachSpec(table: Table, t: TypeId): Outcome {
    if t in table then Outcome(table - {t}, table[t])
    else Outcome(table, Null)
  }

  /** The objects that a query through `p` reads: the object and, for a component, its host. */
  function QueryFootprint(p: Ptr): set<object?>
    reads if p.ComponentAt? then {p.component} else {}
  {
    match p
    case Null => {}
    case HostAt(h) => {h}
    case ComponentAt(c) => {c, c.host}
  }

  /**
   * The answer of `p->__QueryInterface(t)`, chosen by the dynamic type of the
   * object `p` points to. A host answers from its own table. A component
   * forwards the query to its host, or answers null when it has none. Nothing
   * can be queried through a null pointer, so that case answers null.
   */
  function Resolution(p: Ptr, t: TypeId): Ptr
    reads QueryFootprint(p)
  {
    match p
    case Null => Null
    case HostAt(h) => QuerySpec(h.table, h, t)
    case ComponentAt(c) => if c.host == null then Null else QuerySpec(c.host.table, c.host, t)
  }

  /** The component host (`CComHost`, reached through the `IComHost` interface). */
  class ComHost {
    var table: Table

    /** The object invariant: the host's own identity is never in the table. */
    predicate Valid()
      reads this
    {
      WellFormed(table)
    }

    /** Creates a host with an empty table. The hint only sizes storage, which is not modelled. */
    constructor (hint: uint32)
      ensures Valid() && table == map[]
    {
      table := map[];
    }

    /** `__QueryInterface`: answers a query from the table. It changes nothing. */
    method QueryInterface(t: TypeId) returns (r: Ptr)
      ensures r == QuerySpec(table, this, t)
      ensures r == Resolution(HostAt(this), t)
    {
      if t == HostTypeId {
        return HostAt(this);
      }
      if t in table {
        return table[t];
      }
      return Null;
    }

    /** `__Detach`: removes the entry for `t` and returns it. */
    method DetachEntry(t: TypeId) returns (r: Ptr)
      requires Valid()
      modifies this
      ensures Valid()
      ensures Outcome(table, r) == DetachSpec(old(table), t)
    {
      if t in table {
        r := table[t];
        table := table - {t};
        return;
      }
      r := Null;
    }

    /**
     * `__Attach`: adds `impl` under `t` unless `t` is the host's identity or
     * is already present. Debug builds stop on the host identity. This models
     * release builds, where the call returns null.
     */
    method AttachEntry(t: TypeId, impl: Ptr) returns (r: Ptr)
      requires Valid()
      modifies this
      ensures Valid()
      ensures Outcome(table, r) == AttachSpec(old(table), t, impl)
    {
      if t == HostTypeId {
        return Null;
      }
      if t !in table {
        table := table[t := impl];
        return impl;
      }
      return Null;
    }

    /**
     * `IComHost::Attach`: first points the component's host back-reference at
     * this host, then registers it as `RawAttach` does. The back-reference is
     * set even when the registration is refused.
     */
    method Attach(t: TypeId, impl: Component) returns (r: Ptr)
      requires Valid()
      modifies this, impl
      ensures Valid()
      ensures impl.host == this
      ensures Outcome(table, r) == AttachSpec(old(table), t, ComponentAt(impl))
    {
      impl.SetComHost(this);
      r := RawAttach(t, impl);
    }

    /**
     * `IComHost::RawAttach`: registers a passive component under `t` and
     * leaves its host back-reference alone. A null component is stored as a
     * null entry.
     */
    method RawAttach(t: TypeId, impl: Component?) returns (r: Ptr)
      requires Valid()
      modifies this
      ensures Valid()
      ensures Outcome(table, r) == AttachSpec(old(table), t, if impl == null then Null else ComponentAt(impl))
    {
      var p := if impl == null then Null else ComponentAt(impl);
      r := AttachEntry(t, p);
    }

    /** `IComHost::Detach<I>`: forwards to `DetachEntry` for the identity of `I`. */
    method Detach(t: TypeId) returns (r: Ptr)
      requires Valid()
      modifies this
      ensures Valid()
      ensures Outcome(table, r) == DetachSpec(old(table), t)
    {
      r := DetachEntry(t);
    }
  }

  /** `NewComHost`: a fresh host with an empty table. The hint defaults to 64. */
  method NewComHost(hint: uint32 := 64) returns (h: ComHost)
    ensures fresh(h) && h.Valid() && h.table == map[]
  {
    h := new ComHost(hint);
  }

  /**
   * A component built on `CComUnknown<T>`. A host-aware component has its
   * host back-reference set by `ComHost.Attach`. A passive one keeps null.
   */
  class Component {
    var host: ComHost?

    constructor ()
      ensures host == null
    {
      host := null;
    }

    /** `__SetComHost`: records the host back-reference. */
    method SetComHost(h: ComHost?)
      modifies this
      ensures host == h
    {
      host := h;
    }

    /**
     * `CComUnknown::__QueryInterface`: a component without a host answers
     * null. Otherwise it answers exactly as its host does.
     */
    method QueryInterface(t: TypeId) returns (r: Ptr)
      ensures host == null ==> r == Null
      ensures host != null ==> r == QuerySpec(host.table, host, t)
      ensures r == Resolution(ComponentAt(this), t)
    {
      if host != null {
        r := host.QueryInterface(t);
      } else {
        r := Null;
      }
    }
  }

  /**
   * A call `p->__QueryInterface(t)` through a non-null pointer, dispatched to
   * the host or the component that `p` points to.
   */
  method QueryThrough(p: Ptr, t: TypeId) returns (r: Ptr)
    requires p != Null
    ensures r == Resolution(p, t)
  {
    match p
    case HostAt(h) =>
      r := h.QueryInterface(t);
    case ComponentAt(c) =>
      r := c.QueryInterface(t);
  }

  /**
   * `CComPtr<T>`: an immutable handle on the answer to one query. The
   * interface `T` is a type parameter in C++ and is not stored.
   */
  datatype ComPtr = ComPtr(impl: Ptr) {

    /** `get()`: the pointer stored at construction. */
    function Get(): (r: Ptr)
      ensures r == impl
    {
      impl
    }

    /** `operator->`: the same stored pointer as `get()`. */
    function Arrow(): (r: Ptr)
      ensures r == Get()
    {
      impl
    }

    /** `operator bool`: the handle is valid exactly when the stored pointer is non-null. */
    predicate IsValid()
      ensures IsValid() <==> Get() != Null
    {
      impl != Null
    }
  }

  /**
   * `CComPtr<T>(IComUnknown* ptr)`: runs one query for `t` through `source`
   * and stores the answer. The source calls through `ptr`, so it must not be
   * null.
   */
  method MakeComPtr(source: Ptr, t: TypeId) returns (p: ComPtr)
    requires source != Null
    ensures p.Get() == Resolution(source, t)
    ensures p.IsValid() <==> Resolution(source, t) != Null
  {
    var r := QueryThrough(source, t);
    p := ComPtr(r);
  }

  /**
   * `CComPtr<T>(const CComPtr<Other>&)`: queries again for `t`, this time
   * through the object the other handle points to. That object is called
   * through, so the other handle must be valid.
   */
  method ConvertComPtr(other: ComPtr, t: TypeId) returns (p: ComPtr)
    requires other.IsValid()
    ensures p.Get() == Resolution(other.Get(), t)
    ensures p.IsValid() <==> Resolution(other.Get(), t) != Null
  {
    p := MakeComPtr(other.Get(), t);
  }
}
