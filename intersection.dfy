/**
 * The shared-datastore intersection: the datastores that every node VM of a list
 * can reach, compared by URL, in the order of the first node's list.
 */
module SharedDatastores {
  import opened CnsTypes

  type Accessor<!VM> = VM -> Result<seq<DatastoreInfo>, string>

  /** Some datastore of `ds` has this URL. */
  predicate HasUrl(ds: seq<DatastoreInfo>, url: string) {
    exists j :: 0 <= j < |ds| && ds[j].url == url
  }

  /**
   * The entries of the running list `shared` whose URL also occurs in `accessible`,
   * in their order and with their multiplicity; the entries kept are those of `shared`.
   */
  function KeepShared(shared: seq<DatastoreInfo>, accessible: seq<DatastoreInfo>): (kept: seq<DatastoreInfo>)
    ensures |kept| <= |shared|
    decreases |shared|
  {
    if shared == [] then []
    else
      var last := shared[|shared| - 1];
      assert shared == shared[..|shared| - 1] + [last];
      KeepShared(shared[..|shared| - 1], accessible) + (if HasUrl(accessible, last.url) then [last] else [])
  }

  /** The accessor reports, for this node VM, a datastore with this URL. */
  predicate Reports<VM>(f: Accessor<VM>, nodeVM: VM, url: string) {
    f(nodeVM).Success? && HasUrl(f(nodeVM).value, url)
  }

  /** Every node VM of `later` reports a datastore with this URL. */
  predicate ReachableFromAll<VM>(url: string, later: seq<VM>, f: Accessor<VM>) {
    forall i :: 0 <= i < |later| ==> Reports(f, later[i], url)
  }

  /**
   * Reference definition of the intersection: the entries of `first` whose URL
   * every node VM of `later` reports, in order and with multiplicity.
   */
  function KeepReachable<VM>(first: seq<DatastoreInfo>, later: seq<VM>, f: Accessor<VM>): (kept: seq<DatastoreInfo>)
    ensures |kept| <= |first|
    decreases |first|
  {
    if first == [] then []
    else
      var last := first[|first| - 1];
      assert first == first[..|first| - 1] + [last];
      KeepReachable(first[..|first| - 1], later, f) + (if ReachableFromAll(last.url, later, f) then [last] else [])
  }

  /**
   * The reference intersection over node VMs 0..k, when node VM 0 answered: node VM
   * 0's entries whose URL node VMs 1..k all report. It equals the loop's running list
   * only while node VMs 0..k answer and the list stays non-empty (PrefixSucceeds).
   */
  function Running<VM>(nodeVMs: seq<VM>, k: nat, f: Accessor<VM>): seq<DatastoreInfo>
    requires k < |nodeVMs| && f(nodeVMs[0]).Success?
  {
    KeepReachable(f(nodeVMs[0]).value, nodeVMs[1..k + 1], f)
  }

  /**
   * One step of the intersection: fetch the node VM's datastores; the first
   * non-empty list starts the running list, later ones narrow it; an empty
   * running list is an error naming this node VM.
   */
  function Narrow<VM>(shared: seq<DatastoreInfo>, nodeVM: VM, f: Accessor<VM>): (r: Result<seq<DatastoreInfo>, Error<VM>>)
    ensures f(nodeVM).Failure? ==> r == Failure(Propagated(f(nodeVM).error))
    ensures f(nodeVM).Success? && shared == [] && f(nodeVM).value != [] ==> r == Success(f(nodeVM).value)
    ensures r.Success? ==> r.value != []
    ensures r.Success? && shared != [] ==> |r.value| <= |shared|
    ensures r.Failure? && f(nodeVM).Success? ==> r.error == NoSharedDatastores(nodeVM)
  {
    match f(nodeVM)
    case Failure(cause) => Failure(Propagated(cause))
    case Success(accessible) =>
      var next := if shared == [] then accessible else KeepShared(shared, accessible);
      if next == [] then Failure(NoSharedDatastores(nodeVM)) else Success(next)
  }

  /** The intersection over a list of node VMs, processed from the first to the last. */
  function Shared<VM>(nodeVMs: seq<VM>, f: Accessor<VM>): (r: Result<seq<DatastoreInfo>, Error<VM>>)
    ensures r.Success? && nodeVMs != [] ==> r.value != []
    ensures r.Failure? ==>
              match r.error
              case Propagated(cause) => exists i :: 0 <= i < |nodeVMs| && f(nodeVMs[i]) == Failure(cause)
              case NoSharedDatastores(nodeVM) => nodeVM in nodeVMs
              case EmptyNodeList => false
    decreases |nodeVMs|
  {
    if nodeVMs == [] then Success([])
    else
      match Shared(nodeVMs[..|nodeVMs| - 1], f)
      case Failure(e) => Failure(e)
      case Success(shared) => Narrow(shared, nodeVMs[|nodeVMs| - 1], f)
  }

  /** The cluster-wide intersection over the registry's answer. */
  function SharedInCluster<VM>(allNodes: Result<seq<VM>, string>, f: Accessor<VM>): (r: Result<seq<DatastoreInfo>, Error<VM>>)
    ensures r.Success? ==> allNodes.Success? && r.value != []
    ensures r == Failure(EmptyNodeList) <==> allNodes == Success([])
    ensures allNodes.Failure? ==> r == Failure(Propagated(allNodes.error))
  {
    match allNodes
    case Failure(cause) => Failure(Propagated(cause))
    case Success(nodeVMs) => if |nodeVMs| == 0 then Failure(EmptyNodeList) else Shared(nodeVMs, f)
  }

  // ---------------------------------------------------------------------------
  // Lemmas

  /** An entry is kept iff it is in the running list and its URL is in the accessible list. */
  lemma {:induction false} KeepSharedMembers(shared: seq<DatastoreInfo>, accessible: seq<DatastoreInfo>)
    ensures forall d :: d in KeepShared(shared, accessible) <==> d in shared && HasUrl(accessible, d.url)
    decreases |shared|
  {
    if shared != [] {
      var front, last := shared[..|shared| - 1], shared[|shared| - 1];
      assert shared == front + [last];
      KeepSharedMembers(front, accessible);
    }
  }

  /** An entry is kept iff it is in the first list and every later node VM reports its URL. */
  lemma {:induction false} KeepReachableMembers<VM>(first: seq<DatastoreInfo>, later: seq<VM>, f: Accessor<VM>)
    ensures forall d :: d in KeepReachable(first, later, f) <==> d in first && ReachableFromAll(d.url, later, f)
    decreases |first|
  {
    if first != [] {
      var front, last := first[..|first| - 1], first[|first| - 1];
      assert first == front + [last];
      KeepReachableMembers(front, later, f);
    }
  }

  lemma {:induction false} KeepReachableOfNoLater<VM>(first: seq<DatastoreInfo>, f: Accessor<VM>)
    ensures KeepReachable(first, [], f) == first
    decreases |first|
  {
    if first != [] {
      KeepReachableOfNoLater(first[..|first| - 1], f);
      assert first == first[..|first| - 1] + [first[|first| - 1]];
    }
  }

  /** When every entry of `first` is reachable from all of `later`, nothing is dropped. */
  lemma {:induction false} KeepReachableOfAll<VM>(first: seq<DatastoreInfo>, later: seq<VM>, f: Accessor<VM>)
    requires forall j :: 0 <= j < |first| ==> ReachableFromAll(first[j].url, later, f)
    ensures KeepReachable(first, later, f) == first
    decreases |first|
  {
    if first != [] {
      KeepReachableOfAll(first[..|first| - 1], later, f);
      assert first == first[..|first| - 1] + [first[|first| - 1]];
    }
  }

  lemma KeepSharedAppend(shared: seq<DatastoreInfo>, d: DatastoreInfo, accessible: seq<DatastoreInfo>)
    ensures KeepShared(shared + [d], accessible) ==
            KeepShared(shared, accessible) + (if HasUrl(accessible, d.url) then [d] else [])
  {
    assert (shared + [d])[..|shared|] == shared;
  }

  lemma KeepReachableAppend<VM>(first: seq<DatastoreInfo>, d: DatastoreInfo, later: seq<VM>, f: Accessor<VM>)
    ensures KeepReachable(first + [d], later, f) ==
            KeepReachable(first, later, f) + (if ReachableFromAll(d.url, later, f) then [d] else [])
  {
    assert (first + [d])[..|first|] == first;
  }

  lemma ReachableFromAllAppend<VM>(url: string, later: seq<VM>, nodeVM: VM, f: Accessor<VM>)
    ensures ReachableFromAll(url, later + [nodeVM], f) <==> ReachableFromAll(url, later, f) && Reports(f, nodeVM, url)
  {
    var longer := later + [nodeVM];
    if ReachableFromAll(url, longer, f) {
      forall i | 0 <= i < |later| ensures Reports(f, later[i], url) {
        assert longer[i] == later[i];
      }
      assert longer[|later|] == nodeVM;
    }
    if ReachableFromAll(url, later, f) && Reports(f, nodeVM, url) {
      forall i | 0 <= i < |longer| ensures Reports(f, longer[i], url) {
        if i < |later| { assert longer[i] == later[i]; }
      }
    }
  }

  /** Narrowing the reference intersection by one more node VM's list extends `later` by that node VM. */
  lemma {:induction false} KeepSharedExtends<VM>(first: seq<DatastoreInfo>, later: seq<VM>, nodeVM: VM, f: Accessor<VM>)
    requires f(nodeVM).Success?
    ensures KeepShared(KeepReachable(first, later, f), f(nodeVM).value) == KeepReachable(first, later + [nodeVM], f)
    decreases |first|
  {
    if first != [] {
      var front, last := first[..|first| - 1], first[|first| - 1];
      assert first == front + [last];
      var longer := later + [nodeVM];
      var accessible := f(nodeVM).value;
      KeepSharedExtends(front, later, nodeVM, f);
      KeepReachableAppend(front, last, later, f);
      KeepReachableAppend(front, last, longer, f);
      ReachableFromAllAppend(last.url, later, nodeVM, f);
      var before := KeepReachable(front, later, f);
      if ReachableFromAll(last.url, later, f) {
        KeepSharedAppend(before, last, accessible);
        calc {
          KeepShared(KeepReachable(first, later, f), accessible);
          KeepShared(before + [last], accessible);
          KeepShared(before, accessible) + (if HasUrl(accessible, last.url) then [last] else []);
          KeepReachable(front, longer, f) + (if ReachableFromAll(last.url, longer, f) then [last] else []);
          KeepReachable(first, longer, f);
        }
      } else {
        assert KeepReachable(first, later, f) == before;
        calc {
          KeepShared(KeepReachable(first, later, f), accessible);
          KeepShared(before, accessible);
          KeepReachable(front, longer, f);
          KeepReachable(first, longer, f);
        }
      }
    }
  }

  /** Once a prefix of the node VMs fails, the whole list fails with the same error. */
  lemma {:induction false} FailureIsFinal<VM>(nodeVMs: seq<VM>, k: nat, f: Accessor<VM>)
    requires k <= |nodeVMs| && Shared(nodeVMs[..k], f).Failure?
    ensures Shared(nodeVMs, f) == Shared(nodeVMs[..k], f)
    decreases |nodeVMs| - k
  {
    if k == |nodeVMs| {
      assert nodeVMs[..k] == nodeVMs;
    } else {
      assert nodeVMs[..k + 1][..k] == nodeVMs[..k];
      FailureIsFinal(nodeVMs, k + 1, f);
    }
  }

  /** The running list only shrinks as node VMs are added. */
  lemma {:induction false} RunningNarrows<VM>(nodeVMs: seq<VM>, k: nat, f: Accessor<VM>)
    requires 0 < k < |nodeVMs| && f(nodeVMs[0]).Success? && f(nodeVMs[k]).Success?
    ensures Running(nodeVMs, k, f) == KeepShared(Running(nodeVMs, k - 1, f), f(nodeVMs[k]).value)
  {
    assert nodeVMs[1..k + 1] == nodeVMs[1..k] + [nodeVMs[k]];
    KeepSharedExtends(f(nodeVMs[0]).value, nodeVMs[1..k], nodeVMs[k], f);
  }

  /** While the running list stays non-empty, the prefix succeeds with the reference intersection. */
  lemma {:induction false} PrefixSucceeds<VM>(nodeVMs: seq<VM>, k: nat, f: Accessor<VM>)
    requires k < |nodeVMs|
    requires forall i :: 0 <= i <= k ==> f(nodeVMs[i]).Success?
    requires Running(nodeVMs, k, f) != []
    ensures Shared(nodeVMs[..k + 1], f) == Success(Running(nodeVMs, k, f))
    decreases k
  {
    var prefix := nodeVMs[..k + 1];
    assert prefix[..k] == nodeVMs[..k];
    if k == 0 {
      assert nodeVMs[..0] == [];
      KeepReachableOfNoLater(f(nodeVMs[0]).value, f);
      assert nodeVMs[1..1] == [];
    } else {
      RunningNarrows(nodeVMs, k, f);
      PrefixSucceeds(nodeVMs, k - 1, f);
    }
  }

  /** A successful call over one node VM returns that node VM's list. */
  lemma SuccessfulFirst<VM>(nodeVMs: seq<VM>, f: Accessor<VM>)
    requires |nodeVMs| == 1 && Shared(nodeVMs, f).Success?
    ensures f(nodeVMs[0]).Success? && Shared(nodeVMs, f).value == f(nodeVMs[0]).value
  {
    assert nodeVMs[..0] == [];
  }

  /** A successful call over two or more node VMs narrows the successful running list of all but the last. */
  lemma SuccessfulStep<VM>(nodeVMs: seq<VM>, f: Accessor<VM>)
    requires |nodeVMs| >= 2 && Shared(nodeVMs, f).Success?
    ensures Shared(nodeVMs[..|nodeVMs| - 1], f).Success? && f(nodeVMs[|nodeVMs| - 1]).Success?
    ensures Shared(nodeVMs, f).value ==
            KeepShared(Shared(nodeVMs[..|nodeVMs| - 1], f).value, f(nodeVMs[|nodeVMs| - 1]).value)
  {
    var shared := Shared(nodeVMs[..|nodeVMs| - 1], f).value;
    assert shared != [];
  }

  /**
   * On success over a non-empty list, every node VM answered and the result is the
   * reference intersection: the first node's entries whose URL every later node reports.
   */
  lemma {:induction false} SharedOnSuccess<VM>(nodeVMs: seq<VM>, f: Accessor<VM>)
    requires nodeVMs != [] && Shared(nodeVMs, f).Success?
    ensures forall i :: 0 <= i < |nodeVMs| ==> f(nodeVMs[i]).Success?
    ensures Shared(nodeVMs, f).value == Running(nodeVMs, |nodeVMs| - 1, f)
    decreases |nodeVMs|
  {
    var n := |nodeVMs|;
    var front := nodeVMs[..n - 1];
    if n == 1 {
      SuccessfulFirst(nodeVMs, f);
      KeepReachableOfNoLater(f(nodeVMs[0]).value, f);
      assert nodeVMs[1..1] == [];
    } else {
      SuccessfulStep(nodeVMs, f);
      SharedOnSuccess(front, f);
      forall i | 0 <= i < n ensures f(nodeVMs[i]).Success? {
        if i < n - 1 {
          assert front[i] == nodeVMs[i];
        }
      }
      assert front[0] == nodeVMs[0];
      assert front[1..n - 1] == nodeVMs[1..n - 1];
      RunningNarrows(nodeVMs, n - 1, f);
    }
  }

  /** If every node VM answers and the running list never empties, the intersection succeeds. */
  lemma {:induction false} SucceedsWhenRunningListStaysNonEmpty<VM>(nodeVMs: seq<VM>, f: Accessor<VM>)
    requires nodeVMs != []
    requires forall i :: 0 <= i < |nodeVMs| ==> f(nodeVMs[i]).Success?
    requires Running(nodeVMs, |nodeVMs| - 1, f) != []
    ensures Shared(nodeVMs, f) == Success(Running(nodeVMs, |nodeVMs| - 1, f))
  {
    PrefixSucceeds(nodeVMs, |nodeVMs| - 1, f);
    assert nodeVMs[..|nodeVMs|] == nodeVMs;
  }

  /**
   * Short-circuit: when the running list first becomes empty at node VM k (node 0
   * included, when it reports no datastores), the call fails naming node VM k.
   */
  lemma {:induction false} FailsWhereRunningListEmpties<VM>(nodeVMs: seq<VM>, k: nat, f: Accessor<VM>)
    requires k < |nodeVMs|
    requires forall i :: 0 <= i <= k ==> f(nodeVMs[i]).Success?
    requires k > 0 ==> Running(nodeVMs, k - 1, f) != []
    requires Running(nodeVMs, k, f) == []
    ensures Shared(nodeVMs, f) == Failure(NoSharedDatastores(nodeVMs[k]))
  {
    var prefix := nodeVMs[..k + 1];
    assert Shared(prefix, f) == Failure(NoSharedDatastores(nodeVMs[k])) by {
      assert prefix[..k] == nodeVMs[..k];
      if k == 0 {
        assert nodeVMs[..0] == [];
        KeepReachableOfNoLater(f(nodeVMs[0]).value, f);
        assert nodeVMs[1..1] == [];
      } else {
        PrefixSucceeds(nodeVMs, k - 1, f);
        RunningNarrows(nodeVMs, k, f);
      }
    }
    FailureIsFinal(nodeVMs, k + 1, f);
  }

  /**
   * An accessor failure at node VM k, reached with a non-empty running list, aborts
   * the whole call with that error and no partial result.
   */
  lemma {:induction false} AbortsOnAccessorFailure<VM>(nodeVMs: seq<VM>, k: nat, f: Accessor<VM>)
    requires k < |nodeVMs|
    requires forall i :: 0 <= i < k ==> f(nodeVMs[i]).Success?
    requires k > 0 ==> Running(nodeVMs, k - 1, f) != []
    requires f(nodeVMs[k]).Failure?
    ensures Shared(nodeVMs, f) == Failure(Propagated(f(nodeVMs[k]).error))
  {
    var prefix := nodeVMs[..k + 1];
    assert prefix[..k] == nodeVMs[..k];
    if k == 0 {
      assert nodeVMs[..0] == [];
    } else {
      PrefixSucceeds(nodeVMs, k - 1, f);
    }
    FailureIsFinal(nodeVMs, k + 1, f);
  }

  /** Node VMs that all report the same non-empty list share exactly that list. */
  lemma {:induction false} IdenticalListsAreShared<VM>(nodeVMs: seq<VM>, ds: seq<DatastoreInfo>, f: Accessor<VM>)
    requires nodeVMs != [] && ds != []
    requires forall i :: 0 <= i < |nodeVMs| ==> f(nodeVMs[i]) == Success(ds)
    ensures Shared(nodeVMs, f) == Success(ds)
  {
    var later := nodeVMs[1..];
    forall j | 0 <= j < |ds| ensures ReachableFromAll(ds[j].url, later, f) {
      forall i | 0 <= i < |later| ensures Reports(f, later[i], ds[j].url) {
        assert later[i] == nodeVMs[i + 1];
      }
    }
    KeepReachableOfAll(ds, later, f);
    assert nodeVMs[1..|nodeVMs|] == later;
    SucceedsWhenRunningListStaysNonEmpty(nodeVMs, f);
  }

  /** Entries none of which every later node VM reports are all dropped. */
  lemma {:induction false} KeepReachableOfNone<VM>(first: seq<DatastoreInfo>, later: seq<VM>, f: Accessor<VM>)
    requires forall j :: 0 <= j < |first| ==> !ReachableFromAll(first[j].url, later, f)
    ensures KeepReachable(first, later, f) == []
    decreases |first|
  {
    if first != [] {
      KeepReachableOfNone(first[..|first| - 1], later, f);
    }
  }

  /** An empty running list at node VM k first became empty at some node VM j <= k. */
  lemma {:induction false} FirstEmptyRunningList<VM>(nodeVMs: seq<VM>, k: nat, f: Accessor<VM>) returns (j: nat)
    requires k < |nodeVMs| && f(nodeVMs[0]).Success?
    requires Running(nodeVMs, k, f) == []
    ensures j <= k && Running(nodeVMs, j, f) == []
    ensures j > 0 ==> Running(nodeVMs, j - 1, f) != []
    decreases k
  {
    if k > 0 && Running(nodeVMs, k - 1, f) == [] {
      j := FirstEmptyRunningList(nodeVMs, k - 1, f);
    } else {
      j := k;
    }
  }

  /**
   * If node VMs 0..k answer and node VM k reports none of the first one's URLs,
   * the intersection fails with a no-shared-datastores error naming a node VM at
   * or before node VM k; node VMs after k are never consulted.
   */
  lemma {:induction false} DisjointNodeFails<VM>(nodeVMs: seq<VM>, k: nat, f: Accessor<VM>)
    requires 0 < k < |nodeVMs|
    requires forall i :: 0 <= i <= k ==> f(nodeVMs[i]).Success?
    requires forall j :: 0 <= j < |f(nodeVMs[0]).value| ==> !HasUrl(f(nodeVMs[k]).value, f(nodeVMs[0]).value[j].url)
    ensures exists j :: 0 <= j <= k && Shared(nodeVMs, f) == Failure(NoSharedDatastores(nodeVMs[j]))
  {
    var first := f(nodeVMs[0]).value;
    var later := nodeVMs[1..k + 1];
    forall j | 0 <= j < |first| ensures !ReachableFromAll(first[j].url, later, f) {
      assert later[k - 1] == nodeVMs[k];
      assert !Reports(f, later[k - 1], first[j].url);
    }
    KeepReachableOfNone(first, later, f);
    var j := FirstEmptyRunningList(nodeVMs, k, f);
    FailsWhereRunningListEmpties(nodeVMs, j, f);
  }
}
