/**
 * Topology resolution: for each topology segment set, intersect the datastores of
 * the node VMs in its zone and region; concatenate the results and index them by
 * datastore URL; prefer the preferred list, fall back to the requisite list.
 */
module TopologyResolver {
  import opened CnsTypes
  import opened SharedDatastores
  import opened ZonePartition

  /** What one resolution sees: the vSphere answers, the registered node VMs and the tag category names. */
  datatype Cluster<!VM> = Cluster(
    provider: Provider<VM>, allNodes: seq<VM>, zoneCategoryName: string, regionCategoryName: string)

  /** A datastore found shared under one segment set, with the accessible topology recorded for it. */
  datatype Placement = Placement(datastore: DatastoreInfo, accessibleTopology: Segments)

  /** The accessible-topology map: the zone and the region label, each only when its value is non-empty. */
  function AccessibleTopology(zone: string, region: string): (m: Segments)
    ensures LABEL_ZONE_FAILURE_DOMAIN in m <==> zone != ""
    ensures LABEL_REGION_FAILURE_DOMAIN in m <==> region != ""
    ensures LABEL_ZONE_FAILURE_DOMAIN in m ==> m[LABEL_ZONE_FAILURE_DOMAIN] == zone
    ensures LABEL_REGION_FAILURE_DOMAIN in m ==> m[LABEL_REGION_FAILURE_DOMAIN] == region
    ensures forall key :: key in m ==> key == LABEL_ZONE_FAILURE_DOMAIN || key == LABEL_REGION_FAILURE_DOMAIN
  {
    var withZone := if zone != "" then map[LABEL_ZONE_FAILURE_DOMAIN := zone] else map[];
    if region != "" then withZone[LABEL_REGION_FAILURE_DOMAIN := region] else withZone
  }

  function ZoneOf(t: Topology): string { Lookup(t.segments, LABEL_ZONE_FAILURE_DOMAIN) }
  function RegionOf(t: Topology): string { Lookup(t.segments, LABEL_REGION_FAILURE_DOMAIN) }

  /** The zone/region test asked for a segment set. */
  function QueryFor<VM>(c: Cluster<VM>, t: Topology): ZoneRegionQuery {
    ZoneRegionQuery(c.zoneCategoryName, c.regionCategoryName, ZoneOf(t), RegionOf(t))
  }

  /** The datastores shared by the node VMs of one segment set's zone and region. */
  function SharedInSegmentSet<VM>(c: Cluster<VM>, t: Topology): (r: Result<seq<DatastoreInfo>, Error<VM>>)
    ensures NodesInZoneRegion(c.provider, c.allNodes, QueryFor(c, t)).Failure? ==>
              r == Failure(NodesInZoneRegion(c.provider, c.allNodes, QueryFor(c, t)).error)
    ensures NodesInZoneRegion(c.provider, c.allNodes, QueryFor(c, t)) == Success([]) ==> r == Success([])
    ensures r.Success? ==> NodesInZoneRegion(c.provider, c.allNodes, QueryFor(c, t)).Success?
    ensures r.Failure? ==> !r.error.EmptyNodeList?
  {
    match NodesInZoneRegion(c.provider, c.allNodes, QueryFor(c, t))
    case Failure(e) => Failure(e)
    case Success(nodeVMs) => Shared(nodeVMs, c.provider.accessibleDatastores)
  }

  /** Each datastore found, recorded against the same accessible topology. */
  function Tag(found: seq<DatastoreInfo>, segments: Segments): (ps: seq<Placement>)
    ensures |ps| == |found|
  {
    seq(|found|, i requires 0 <= i < |found| => Placement(found[i], segments))
  }

  /** The placements found over a list of segment sets, in segment-set order; the first error aborts. */
  function Placements<VM>(c: Cluster<VM>, ts: seq<Topology>): (r: Result<seq<Placement>, Error<VM>>)
    ensures r.Success? <==> forall i :: 0 <= i < |ts| ==> SharedInSegmentSet(c, ts[i]).Success?
    ensures r.Failure? ==> exists i :: 0 <= i < |ts| && SharedInSegmentSet(c, ts[i]) == Failure(r.error)
    decreases |ts|
  {
    if ts == [] then Success([])
    else
      var front, last := ts[..|ts| - 1], ts[|ts| - 1];
      assert forall i :: 0 <= i < |front| ==> front[i] == ts[i];
      match Placements(c, front)
      case Failure(e) => Failure(e)
      case Success(ps) =>
        match SharedInSegmentSet(c, last)
        case Failure(e) =>
          assert SharedInSegmentSet(c, ts[|ts| - 1]) == Failure(e);
          Failure(e)
        case Success(found) => Success(ps + Tag(found, AccessibleTopology(ZoneOf(last), RegionOf(last))))
  }

  /** The datastore list of a sequence of placements. */
  function Datastores(ps: seq<Placement>): (ds: seq<DatastoreInfo>)
    ensures |ds| == |ps|
  {
    seq(|ps|, i requires 0 <= i < |ps| => ps[i].datastore)
  }

  /** The accessible topologies recorded for one URL, in placement order. */
  function SegmentsFor(ps: seq<Placement>, url: string): seq<Segments>
    decreases |ps|
  {
    if ps == [] then []
    else
      var last := ps[|ps| - 1];
      SegmentsFor(ps[..|ps| - 1], url) + (if last.datastore.url == url then [last.accessibleTopology] else [])
  }

  function Urls(ps: seq<Placement>): set<string> {
    set i | 0 <= i < |ps| :: ps[i].datastore.url
  }

  /** Reference definition of the datastore-topology map of a sequence of placements. */
  function TableOf(ps: seq<Placement>): DatastoreTopologyMap {
    map url | url in Urls(ps) :: SegmentsFor(ps, url)
  }

  /** A Go map lookup of a slice value: nil, here [], for a missing key. */
  function Entries(m: DatastoreTopologyMap, url: string): seq<Segments> {
    if url in m then m[url] else []
  }

  /** The number of entries of `ds` with this URL. */
  function Occurrences(ds: seq<DatastoreInfo>, url: string): nat
    decreases |ds|
  {
    if ds == [] then 0
    else Occurrences(ds[..|ds| - 1], url) + (if ds[|ds| - 1].url == url then 1 else 0)
  }

  /** The datastore list and datastore-topology map for a list of segment sets. */
  function SharedInTopologies<VM>(c: Cluster<VM>, ts: seq<Topology>): (r: Result<(seq<DatastoreInfo>, DatastoreTopologyMap), Error<VM>>)
    ensures r.Success? <==> Placements(c, ts).Success?
    ensures r.Failure? ==> r.error == Placements(c, ts).error
    ensures r.Success? ==> forall url :: url in r.value.1 <==> HasUrl(r.value.0, url)
    ensures r.Success? && r.value.0 == [] ==> r.value.1 == map[]
  {
    match Placements(c, ts)
    case Failure(e) => Failure(e)
    case Success(ps) =>
      TableKeys(ps);
      EmptyListEmptyTable(ps);
      Success((Datastores(ps), TableOf(ps)))
  }

  /** The preferred list first; the requisite list only when the preferred one is absent or found nothing. */
  function Resolve<VM>(c: Cluster<VM>, req: Option<TopologyRequirement>): (r: Result<(seq<DatastoreInfo>, DatastoreTopologyMap), Error<VM>>)
    // no requirement, or neither list: an empty list and an empty map, no error
    ensures req.None? || (req.value.preferred.None? && req.value.requisite.None?) ==> r == Success(([], map[]))
    // the preferred list's outcome, an error or a non-empty result, is the answer whatever the requisite list holds
    ensures req.Some? && req.value.preferred.Some? &&
            !(SharedInTopologies(c, req.value.preferred.value).Success? &&
              SharedInTopologies(c, req.value.preferred.value).value.0 == []) ==>
              r == SharedInTopologies(c, req.value.preferred.value)
    // with the preferred list absent or finding nothing, the requisite list alone decides
    ensures req.Some? && req.value.requisite.Some? &&
            (req.value.preferred.Some? ==>
               SharedInTopologies(c, req.value.preferred.value).Success? &&
               SharedInTopologies(c, req.value.preferred.value).value.0 == []) ==>
              r == SharedInTopologies(c, req.value.requisite.value)
    // a preferred list that finds nothing, with no requisite list: an empty list and an empty map
    ensures req.Some? && req.value.requisite.None? && req.value.preferred.Some? &&
            SharedInTopologies(c, req.value.preferred.value).Success? &&
            SharedInTopologies(c, req.value.preferred.value).value.0 == [] ==>
              r == Success(([], map[]))
  {
    var fromPreferred :=
      if req.Some? && req.value.preferred.Some? then SharedInTopologies(c, req.value.preferred.value)
      else Success(([], map[]));
    if fromPreferred.Failure? then fromPreferred
    else if |fromPreferred.value.0| == 0 && req.Some? && req.value.requisite.Some? then
      SharedInTopologies(c, req.value.requisite.value)
    else fromPreferred
  }

  /** The topology-constrained resolution over the registry's answer. */
  function SharedInTopology<VM>(allNodes: Result<seq<VM>, string>, req: Option<TopologyRequirement>,
                                zoneCategoryName: string, regionCategoryName: string, p: Provider<VM>)
    : (r: Result<(seq<DatastoreInfo>, DatastoreTopologyMap), Error<VM>>)
    ensures allNodes.Failure? ==> r == Failure(Propagated(allNodes.error))
    ensures allNodes == Success([]) ==> r == Failure(EmptyNodeList)
    ensures allNodes.Success? && allNodes.value != [] ==>
              r == Resolve(Cluster(p, allNodes.value, zoneCategoryName, regionCategoryName), req)
  {
    match allNodes
    case Failure(cause) => Failure(Propagated(cause))
    case Success(nodeVMs) =>
      if |nodeVMs| == 0 then Failure(EmptyNodeList)
      else Resolve(Cluster(p, nodeVMs, zoneCategoryName, regionCategoryName), req)
  }

  // ---------------------------------------------------------------------------
  // Lemmas about the datastore-topology map

  lemma {:induction false} SegmentsForAbsent(ps: seq<Placement>, url: string)
    requires url !in Urls(ps)
    ensures SegmentsFor(ps, url) == []
    decreases |ps|
  {
    if ps != [] {
      var front := ps[..|ps| - 1];
      assert Urls(front) <= Urls(ps) by {
        forall u | u in Urls(front) ensures u in Urls(ps) {
          var i :| 0 <= i < |front| && front[i].datastore.url == u;
          assert ps[i] == front[i];
        }
      }
      SegmentsForAbsent(front, url);
    }
  }

  lemma UrlsAppend(ps: seq<Placement>, pl: Placement)
    ensures Urls(ps + [pl]) == Urls(ps) + {pl.datastore.url}
  {
    var longer := ps + [pl];
    forall u | u in Urls(longer) ensures u in Urls(ps) + {pl.datastore.url} {
      var i :| 0 <= i < |longer| && longer[i].datastore.url == u;
      if i < |ps| { assert longer[i] == ps[i]; }
    }
    forall u | u in Urls(ps) ensures u in Urls(longer) {
      var i :| 0 <= i < |ps| && ps[i].datastore.url == u;
      assert longer[i] == ps[i];
    }
    assert longer[|ps|] == pl;
  }

  /**
   * Recording one more placement appends its accessible topology to the list of its
   * URL, starting from an empty list for a new URL, and changes no other entry.
   */
  lemma TableAppend(ps: seq<Placement>, pl: Placement)
    ensures TableOf(ps + [pl]) ==
            TableOf(ps)[pl.datastore.url := Entries(TableOf(ps), pl.datastore.url) + [pl.accessibleTopology]]
  {
    var url := pl.datastore.url;
    var longer := ps + [pl];
    assert longer[..|ps|] == ps;
    UrlsAppend(ps, pl);
    if url !in Urls(ps) {
      SegmentsForAbsent(ps, url);
    }
    var updated := TableOf(ps)[url := Entries(TableOf(ps), url) + [pl.accessibleTopology]];
    assert TableOf(longer).Keys == updated.Keys;
    forall u | u in updated ensures TableOf(longer)[u] == updated[u] {
      assert SegmentsFor(longer, u) == SegmentsFor(ps, u) + (if u == url then [pl.accessibleTopology] else []);
    }
  }

  lemma DatastoresAppend(ps: seq<Placement>, qs: seq<Placement>)
    ensures Datastores(ps + qs) == Datastores(ps) + Datastores(qs)
  {
  }

  lemma DatastoresOfTag(found: seq<DatastoreInfo>, segments: Segments)
    ensures Datastores(Tag(found, segments)) == found
  {
  }

  /** The map's keys are exactly the URLs of the datastore list. */
  lemma TableKeys(ps: seq<Placement>)
    ensures forall url :: url in TableOf(ps) <==> HasUrl(Datastores(ps), url)
  {
    forall url ensures url in TableOf(ps) <==> HasUrl(Datastores(ps), url) {
      if HasUrl(Datastores(ps), url) {
        var j :| 0 <= j < |Datastores(ps)| && Datastores(ps)[j].url == url;
        assert ps[j].datastore.url == url;
      }
      if url in TableOf(ps) {
        var i :| 0 <= i < |ps| && ps[i].datastore.url == url;
        assert Datastores(ps)[i].url == url;
      }
    }
  }

  /** The map holds one entry for a URL per occurrence of that URL in the datastore list. */
  lemma {:induction false} EntryPerOccurrence(ps: seq<Placement>, url: string)
    ensures |Entries(TableOf(ps), url)| == Occurrences(Datastores(ps), url)
  {
    if url !in Urls(ps) {
      SegmentsForAbsent(ps, url);
    }
    assert Entries(TableOf(ps), url) == SegmentsFor(ps, url);
    SegmentsPerOccurrence(ps, url);
  }

  /** A URL's recorded topologies are one per placement of that URL. */
  lemma {:induction false} SegmentsPerOccurrence(ps: seq<Placement>, url: string)
    ensures |SegmentsFor(ps, url)| == Occurrences(Datastores(ps), url)
    decreases |ps|
  {
    if ps != [] {
      var front := ps[..|ps| - 1];
      SegmentsPerOccurrence(front, url);
      assert Datastores(ps)[..|ps| - 1] == Datastores(front);
    }
  }

  /** The entries of a URL over two runs of placements are those of the first run, then those of the second. */
  lemma {:induction false} SegmentsForConcat(ps: seq<Placement>, qs: seq<Placement>, url: string)
    ensures SegmentsFor(ps + qs, url) == SegmentsFor(ps, url) + SegmentsFor(qs, url)
    decreases |qs|
  {
    if qs == [] {
      assert ps + qs == ps;
    } else {
      var front := qs[..|qs| - 1];
      assert (ps + qs)[..|ps + qs| - 1] == ps + front;
      SegmentsForConcat(ps, front, url);
    }
  }

  /** No datastores means an empty map. */
  lemma EmptyListEmptyTable(ps: seq<Placement>)
    ensures Datastores(ps) == [] ==> TableOf(ps) == map[]
  {
    if Datastores(ps) == [] {
      assert ps == [];
    }
  }

  // ---------------------------------------------------------------------------
  // Lemmas about the accumulation over segment sets

  function Combine<T, E>(a: Result<seq<T>, E>, b: Result<seq<T>, E>): Result<seq<T>, E> {
    match a
    case Failure(e) => Failure(e)
    case Success(x) =>
      match b
      case Failure(e) => Failure(e)
      case Success(y) => Success(x + y)
  }

  /** One segment set contributes its shared datastores, each tagged with its accessible topology. */
  lemma PlacementsOfOne<VM>(c: Cluster<VM>, t: Topology)
    ensures Placements(c, [t]) ==
            match SharedInSegmentSet(c, t)
            case Failure(e) => Failure(e)
            case Success(found) => Success(Tag(found, AccessibleTopology(ZoneOf(t), RegionOf(t))))
  {
    assert [t][..0] == [];
    match SharedInSegmentSet(c, t)
    case Failure(_) =>
    case Success(found) =>
      var tagged := Tag(found, AccessibleTopology(ZoneOf(t), RegionOf(t)));
      assert [] + tagged == tagged;
  }

  /**
   * The placements of two runs of segment sets are those of the first run followed by
   * those of the second, without deduplication; an error in either aborts, the first
   * run's error first.
   */
  lemma {:induction false} PlacementsConcat<VM>(c: Cluster<VM>, ts: seq<Topology>, us: seq<Topology>)
    ensures Placements(c, ts + us) == Combine(Placements(c, ts), Placements(c, us))
    decreases |us|
  {
    if us == [] {
      assert ts + us == ts;
      match Placements(c, ts)
      case Failure(_) =>
      case Success(ps) => assert ps + [] == ps;
    } else {
      var front, last := us[..|us| - 1], us[|us| - 1];
      var xs := ts + us;
      assert Placements(c, xs) == Combine(Placements(c, ts + front), Placements(c, [last])) by {
        assert xs[..|xs| - 1] == ts + front;
        assert xs[|xs| - 1] == last;
        PlacementsSnoc(c, xs);
      }
      assert Placements(c, us) == Combine(Placements(c, front), Placements(c, [last])) by {
        PlacementsSnoc(c, us);
      }
      PlacementsConcat(c, ts, front);
      CombineAssociates(Placements(c, ts), Placements(c, front), Placements(c, [last]));
    }
  }

  /** The placements of a non-empty run are those of its front followed by those of its last set. */
  lemma PlacementsSnoc<VM>(c: Cluster<VM>, ts: seq<Topology>)
    requires ts != []
    ensures Placements(c, ts) == Combine(Placements(c, ts[..|ts| - 1]), Placements(c, [ts[|ts| - 1]]))
  {
    PlacementsOfOne(c, ts[|ts| - 1]);
  }

  /** Concatenating results is associative, errors included. */
  lemma CombineAssociates<T, E>(a: Result<seq<T>, E>, b: Result<seq<T>, E>, d: Result<seq<T>, E>)
    ensures Combine(Combine(a, b), d) == Combine(a, Combine(b, d))
  {
    if a.Success? && b.Success? && d.Success? {
      assert a.value + b.value + d.value == a.value + (b.value + d.value);
    }
  }

  /** Once a prefix of the segment sets fails, the whole list fails with the same error. */
  lemma {:induction false} FailureIsFinal<VM>(c: Cluster<VM>, ts: seq<Topology>, k: nat)
    requires k <= |ts| && Placements(c, ts[..k]).Failure?
    ensures Placements(c, ts) == Placements(c, ts[..k])
  {
    var front, rest := ts[..k], ts[k..];
    assert Placements(c, ts) == Combine(Placements(c, front), Placements(c, rest)) by {
      assert ts == front + rest;
      PlacementsConcat(c, front, rest);
    }
  }

  /**
   * Two segment sets that find `x` and `y`: the list is `x` then `y`, and each URL
   * lists the first set's topology once per occurrence in `x`, then the second's
   * once per occurrence in `y`.
   */
  lemma TwoSegmentSets<VM>(c: Cluster<VM>, a: Topology, b: Topology, x: seq<DatastoreInfo>, y: seq<DatastoreInfo>, url: string)
    requires SharedInSegmentSet(c, a) == Success(x) && SharedInSegmentSet(c, b) == Success(y)
    ensures SharedInTopologies(c, [a, b]).Success?
    ensures SharedInTopologies(c, [a, b]).value.0 == x + y
    ensures Entries(SharedInTopologies(c, [a, b]).value.1, url) ==
            SegmentsFor(Tag(x, AccessibleTopology(ZoneOf(a), RegionOf(a))), url) +
            SegmentsFor(Tag(y, AccessibleTopology(ZoneOf(b), RegionOf(b))), url)
  {
    var px := Tag(x, AccessibleTopology(ZoneOf(a), RegionOf(a)));
    var py := Tag(y, AccessibleTopology(ZoneOf(b), RegionOf(b)));
    PlacementsOfOne(c, a);
    PlacementsOfOne(c, b);
    assert [a, b] == [a] + [b];
    PlacementsConcat(c, [a], [b]);
    DatastoresAppend(px, py);
    DatastoresOfTag(x, AccessibleTopology(ZoneOf(a), RegionOf(a)));
    DatastoresOfTag(y, AccessibleTopology(ZoneOf(b), RegionOf(b)));
    SegmentsForConcat(px, py, url);
    if url !in Urls(px + py) {
      SegmentsForAbsent(px + py, url);
    }
  }
}
