/**
 * What the interface table promises, stated over the value-level
 * specification of the host's three operations (query, attach, detach) and
 * over the resolution of a query through a component or a handle.
 */
module TableProperties {
  import opened Comet

  /** Two tables agree on every identity other than `t`. */
  ghost predicate AgreeExcept(m: Table, m': Table, t: TypeId) {
    forall k :: k != t ==> (k in m <==> k in m') && (k in m ==> m[k] == m'[k])
  }

  /** A query for the host's own identity answers the host, whatever the table holds. */
  lemma QueryHostIsSelf(m: Table, self: ComHost)
    ensures QuerySpec(m, self, HostTypeId) == HostAt(self)
  {
  }

  /** A query for any other identity answers the stored pointer, or null when absent. */
  lemma QueryInterfaceEntry(m: Table, self: ComHost, t: TypeId)
    requires t != HostTypeId
    ensures t in m ==> QuerySpec(m, self, t) == m[t]
    ensures t !in m ==> QuerySpec(m, self, t) == Null
  {
  }

  /**
   * Attaching under a fresh identity succeeds: it returns `impl`, a later
   * query for `t` answers `impl`, and no other entry changes.
   */
  lemma AttachFreshSucceeds(m: Table, self: ComHost, t: TypeId, impl: Ptr)
    requires t != HostTypeId && t !in m
    ensures AttachSpec(m, t, impl).result == impl
    ensures t in AttachSpec(m, t, impl).table
    ensures QuerySpec(AttachSpec(m, t, impl).table, self, t) == impl
    ensures AgreeExcept(m, AttachSpec(m, t, impl).table, t)
  {
  }

  /**
   * Attaching under an occupied identity fails: it returns null, the table is
   * unchanged, and a query still answers the entry that was there first.
   */
  lemma AttachDuplicateFails(m: Table, self: ComHost, t: TypeId, impl: Ptr)
    requires t in m
    ensures AttachSpec(m, t, impl) == Outcome(m, Null)
    ensures QuerySpec(AttachSpec(m, t, impl).table, self, t) == QuerySpec(m, self, t)
  {
  }

  /** Attaching under the host's own identity returns null and leaves the table unchanged. */
  lemma AttachHostRefused(m: Table, impl: Ptr)
    ensures AttachSpec(m, HostTypeId, impl) == Outcome(m, Null)
  {
  }

  /**
   * Attach succeeds exactly when the identity is neither the host's nor
   * already present. Read through the result, this holds only for a non-null
   * `impl`: a null `impl` that is stored still returns null.
   */
  lemma AttachSucceedsIff(m: Table, t: TypeId, impl: Ptr)
    ensures AttachSpec(m, t, impl).table != m <==> t != HostTypeId && t !in m
    ensures impl != Null ==> (AttachSpec(m, t, impl).result != Null <==> t != HostTypeId && t !in m)
  {
  }

  /** Attach and detach keep the host's own identity out of the table. */
  lemma OperationsKeepWellFormed(m: Table, t: TypeId, impl: Ptr)
    requires WellFormed(m)
    ensures WellFormed(AttachSpec(m, t, impl).table)
    ensures WellFormed(DetachSpec(m, t).table)
  {
  }

  /**
   * Detaching a present identity returns its pointer and removes exactly that
   * entry. A later attach under the same identity then succeeds.
   */
  lemma DetachPresent(m: Table, self: ComHost, t: TypeId, impl: Ptr)
    requires WellFormed(m) && t in m
    ensures DetachSpec(m, t).result == m[t]
    ensures t !in DetachSpec(m, t).table
    ensures QuerySpec(DetachSpec(m, t).table, self, t) == Null
    ensures AgreeExcept(m, DetachSpec(m, t).table, t)
    ensures AttachSpec(DetachSpec(m, t).table, t, impl).result == impl
  {
  }

  /** Detaching an absent identity returns null and leaves the table unchanged. */
  lemma DetachAbsent(m: Table, t: TypeId)
    requires t !in m
    ensures DetachSpec(m, t) == Outcome(m, Null)
  {
  }

  /** Detach undoes a successful attach: it returns the attached pointer and restores the table. */
  lemma DetachUndoesAttach(m: Table, t: TypeId, impl: Ptr)
    requires t != HostTypeId && t !in m
    ensures DetachSpec(AttachSpec(m, t, impl).table, t) == Outcome(m, impl)
  {
  }

  /** Attaching what a detach returned, under the same identity, restores the table. */
  lemma AttachUndoesDetach(m: Table, t: TypeId)
    requires WellFormed(m) && t in m
    ensures AttachSpec(DetachSpec(m, t).table, t, DetachSpec(m, t).result) == Outcome(m, m[t])
  {
  }

  /** A component whose host back-reference was never set answers every query with null. */
  lemma UnhostedComponentAnswersNull(c: Component, t: TypeId)
    requires c.host == null
    ensures Resolution(ComponentAt(c), t) == Null
  {
  }

  /**
   * A component whose host is `h` answers every query as `h` does. In
   * particular it sees every sibling registered on `h`.
   */
  lemma ComponentSeesSiblings(c: Component, h: ComHost, t: TypeId, sibling: Component)
    requires c.host == h && h.Valid()
    ensures Resolution(ComponentAt(c), t) == Resolution(HostAt(h), t)
    ensures t in h.table && h.table[t] == ComponentAt(sibling) ==>
              Resolution(ComponentAt(c), t) == ComponentAt(sibling)
  {
  }

  /**
   * A handle made from a handle re-queries through the object the first
   * handle points to. When both handles come from the same host, directly or
   * through a hosted component, the second one holds what that host's table
   * holds for the new identity.
   */
  lemma ConvertedHandleAsksSameHost(h: ComHost, other: ComPtr, t: TypeId)
    requires other.Get() == HostAt(h) ||
             (other.Get().ComponentAt? && other.Get().component.host == h)
    requires t != HostTypeId
    ensures Resolution(other.Get(), t) == (if t in h.table then h.table[t] else Null)
  {
  }
}
