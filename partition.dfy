/**
 * Zone/region partitioning: the registered node VMs that vSphere places in a
 * given zone and region, in registry order.
 */
module ZonePartition {
  import opened CnsTypes

  /** The node VMs of `nodeVMs` for which the zone/region test says true; the first failing test aborts. */
  function NodesInZoneRegion<VM>(p: Provider<VM>, nodeVMs: seq<VM>, q: ZoneRegionQuery): (r: Result<seq<VM>, Error<VM>>)
    ensures r.Success? <==> forall i :: 0 <= i < |nodeVMs| ==> p.isInZoneRegion(nodeVMs[i], q).Success?
    ensures r.Success? ==> |r.value| <= |nodeVMs|
    ensures r.Failure? ==> r.error.Propagated?
    decreases |nodeVMs|
  {
    if nodeVMs == [] then Success([])
    else
      var front, last := nodeVMs[..|nodeVMs| - 1], nodeVMs[|nodeVMs| - 1];
      assert forall i :: 0 <= i < |front| ==> front[i] == nodeVMs[i];
      match NodesInZoneRegion(p, front, q)
      case Failure(e) => Failure(e)
      case Success(inZone) =>
        match p.isInZoneRegion(last, q)
        case Failure(cause) => Failure(Propagated(cause))
        case Success(isIn) => Success(if isIn then inZone + [last] else inZone)
  }

  /** `a` is `b` with some entries left out, the rest in their order. */
  predicate IsSubsequence<T(==)>(a: seq<T>, b: seq<T>)
    decreases |b|
  {
    if a == [] then true
    else if b == [] then false
    else (a[|a| - 1] == b[|b| - 1] && IsSubsequence(a[..|a| - 1], b[..|b| - 1])) || IsSubsequence(a, b[..|b| - 1])
  }

  /** The test says true of this node VM. */
  predicate InZone<VM>(p: Provider<VM>, nodeVM: VM, q: ZoneRegionQuery) {
    p.isInZoneRegion(nodeVM, q) == Success(true)
  }

  // ---------------------------------------------------------------------------
  // Lemmas

  /** Once a prefix fails, the whole list fails with the same error. */
  lemma {:induction false} FailureIsFinal<VM>(p: Provider<VM>, nodeVMs: seq<VM>, q: ZoneRegionQuery, k: nat)
    requires k <= |nodeVMs| && NodesInZoneRegion(p, nodeVMs[..k], q).Failure?
    ensures NodesInZoneRegion(p, nodeVMs, q) == NodesInZoneRegion(p, nodeVMs[..k], q)
    decreases |nodeVMs| - k
  {
    if k == |nodeVMs| {
      assert nodeVMs[..k] == nodeVMs;
    } else {
      assert nodeVMs[..k + 1][..k] == nodeVMs[..k];
      FailureIsFinal(p, nodeVMs, q, k + 1);
    }
  }

  /** The first failing zone/region test, in registry order, decides the error. */
  lemma {:induction false} FailsAtFirstFailingTest<VM>(p: Provider<VM>, nodeVMs: seq<VM>, q: ZoneRegionQuery, k: nat)
    requires k < |nodeVMs|
    requires forall i :: 0 <= i < k ==> p.isInZoneRegion(nodeVMs[i], q).Success?
    requires p.isInZoneRegion(nodeVMs[k], q).Failure?
    ensures NodesInZoneRegion(p, nodeVMs, q) == Failure(Propagated(p.isInZoneRegion(nodeVMs[k], q).error))
  {
    var prefix := nodeVMs[..k + 1];
    assert prefix[..k] == nodeVMs[..k];
    assert forall i :: 0 <= i < k ==> nodeVMs[..k][i] == nodeVMs[i];
    FailureIsFinal(p, nodeVMs, q, k + 1);
  }

  lemma IsSubsequenceOfLonger<T>(a: seq<T>, b: seq<T>, x: T)
    requires IsSubsequence(a, b)
    ensures IsSubsequence(a, b + [x])
  {
    assert (b + [x])[..|b|] == b;
  }

  lemma IsSubsequenceOfBoth<T>(a: seq<T>, b: seq<T>, x: T)
    requires IsSubsequence(a, b)
    ensures IsSubsequence(a + [x], b + [x])
  {
    assert (b + [x])[..|b|] == b;
    assert (a + [x])[..|a|] == a;
  }

  /**
   * On success the result is the order-preserving sub-list of exactly those node VMs
   * whose test said true: every such node VM as often as in the input, no other.
   */
  lemma {:induction false} PartitionOnSuccess<VM>(p: Provider<VM>, nodeVMs: seq<VM>, q: ZoneRegionQuery)
    requires NodesInZoneRegion(p, nodeVMs, q).Success?
    ensures IsSubsequence(NodesInZoneRegion(p, nodeVMs, q).value, nodeVMs)
    ensures forall v :: multiset(NodesInZoneRegion(p, nodeVMs, q).value)[v] ==
                        if InZone(p, v, q) then multiset(nodeVMs)[v] else 0
    decreases |nodeVMs|
  {
    if nodeVMs != [] {
      var front, last := nodeVMs[..|nodeVMs| - 1], nodeVMs[|nodeVMs| - 1];
      assert nodeVMs == front + [last];
      PartitionOnSuccess(p, front, q);
      var inZone := NodesInZoneRegion(p, front, q).value;
      if InZone(p, last, q) {
        IsSubsequenceOfBoth(inZone, front, last);
      } else {
        IsSubsequenceOfLonger(inZone, front, last);
      }
    }
  }
}
