/**
 * Any sequence of calls on one host. The table reached after such a sequence
 * never holds the host's own identity. An identity that no attach or detach
 * names keeps its entry throughout, and queries never change the table.
 */
module CallSequences {
  import opened Comet

  /** One call on a host, in terms of its effect on the interface table. */
  datatype Call =
    | AttachCall(t: TypeId, impl: Ptr)
    | DetachCall(t: TypeId)
    | QueryCall(t: TypeId)

  /** True when call `c` may change the entry for `k`: an attach or detach naming `k`. */
  predicate Writes(c: Call, k: TypeId) {
    !c.QueryCall? && c.t == k
  }

  /** No call in `calls` may change the entry for `k`. */
  ghost predicate Untouched(calls: seq<Call>, k: TypeId) {
    forall i :: 0 <= i < |calls| ==> !Writes(calls[i], k)
  }

  /** Tables `m` and `m'` hold the same entry for `k`, or both hold none. */
  predicate SameEntry(m: Table, m': Table, k: TypeId) {
    (k in m <==> k in m') && (k in m ==> m[k] == m'[k])
  }

  /** The table after one call. */
  function Step(m: Table, c: Call): Table {
    match c
    case AttachCall(t, impl) => AttachSpec(m, t, impl).table
    case DetachCall(t) => DetachSpec(m, t).table
    case QueryCall(_) => m
  }

  /**
   * The table after the calls in order. It keeps the host's own identity out,
   * and an identity that no call writes keeps its entry.
   */
  function Replay(m: Table, calls: seq<Call>): (m': Table)
    ensures WellFormed(m) ==> WellFormed(m')
    ensures forall k :: Untouched(calls, k) ==> SameEntry(m, m', k)
    decreases |calls|
  {
    if calls == [] then m
    else
      var m1 := Step(m, calls[0]);
      assert forall k :: Untouched(calls, k) ==> !Writes(calls[0], k) && Untouched(calls[1..], k) by {
        forall k | Untouched(calls, k)
          ensures !Writes(calls[0], k) && Untouched(calls[1..], k)
        {
          assert forall i :: 0 <= i < |calls[1..]| ==> calls[1..][i] == calls[i + 1];
        }
      }
      Replay(m1, calls[1..])
  }

  /** Replaying two call sequences one after the other is replaying their concatenation. */
  lemma {:induction false} ReplayConcat(m: Table, a: seq<Call>, b: seq<Call>)
    ensures Replay(m, a + b) == Replay(Replay(m, a), b)
    decreases |a|
  {
    if a == [] {
      assert a + b == b;
    } else {
      assert (a + b)[0] == a[0];
      assert (a + b)[1..] == a[1..] + b;
      ReplayConcat(Step(m, a[0]), a[1..], b);
    }
  }

  /** Every table a host can reach from creation, whatever the calls, leaves the host identity out. */
  lemma ReachableTablesWellFormed(calls: seq<Call>)
    ensures WellFormed(Replay(map[], calls))
  {
  }

  /** A sequence of queries alone leaves the table exactly as it was. */
  lemma QueriesLeaveTableUnchanged(m: Table, calls: seq<Call>)
    requires forall i :: 0 <= i < |calls| ==> calls[i].QueryCall?
    ensures Replay(m, calls) == m
  {
  }

  /**
   * An attach of `impl` under `t` in the middle of a session, made when `t` is
   * free, succeeds, and later calls that do not write `t` leave a query for
   * `t` answering `impl`.
   */
  lemma AttachedEntrySurvives(m: Table, self: ComHost, pre: seq<Call>, t: TypeId, impl: Ptr, later: seq<Call>)
    requires t != HostTypeId && t !in Replay(m, pre)
    requires Untouched(later, t)
    ensures QuerySpec(Replay(m, pre + [AttachCall(t, impl)] + later), self, t) == impl
  {
    var attach := [AttachCall(t, impl)];
    assert pre + attach + later == pre + (attach + later);
    ReplayConcat(m, pre, attach + later);
    var m0 := Replay(m, pre);
    ReplayConcat(m0, attach, later);
    var m1 := Replay(m0, attach);
    assert m1 == AttachSpec(m0, t, impl).table by {
      assert attach[1..] == [];
    }
    assert SameEntry(m1, Replay(m1, later), t);
  }
}
