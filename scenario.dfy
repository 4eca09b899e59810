/**
 * The resolver's documentation gives a topology requirement (preferred list:
 * us-west, then us-east) and the datastore-topology map it produces. The node
 * VMs, their zones and their datastore lists are not documented: the cluster
 * below is one chosen so that the documented requirement yields the documented
 * map, with two node VMs in us-east and one in us-west.
 */
module DocumentedExample {
  import opened CnsTypes
  import opened SharedDatastores
  import opened ZonePartition
  import opened TopologyResolver

  const REGION: string := "k8s-region-us"
  const EAST: string := "k8s-zone-us-east"
  const WEST: string := "k8s-zone-us-west"

  const DS1: DatastoreInfo := DatastoreInfo("ds:///vmfs/volumes/5d119112-7b28fe05-f51d-02000b3a3f4b/", "vmfs-1")
  const DS2: DatastoreInfo := DatastoreInfo("ds:///vmfs/volumes/e54abc3f-f6a5bb1f-0000-000000000000/", "vmfs-2")
  const VSAN: DatastoreInfo := DatastoreInfo("ds:///vmfs/volumes/vsan:524fae1aaca129a5-1ee55a87f26ae626/", "vsan")

  function SegmentsOf(zone: string): Segments {
    map[LABEL_REGION_FAILURE_DOMAIN := REGION, LABEL_ZONE_FAILURE_DOMAIN := zone]
  }

  lemma Distinct()
    ensures WEST != EAST
    ensures DS1.url != DS2.url && DS1.url != VSAN.url && DS2.url != VSAN.url
  {
    assert WEST[12] != EAST[12];
    assert DS1.url[19] != DS2.url[19] && DS1.url[19] != VSAN.url[19] && DS2.url[19] != VSAN.url[19];
  }

  /** A chosen cluster: node VMs 1 and 2 are in us-east, node VM 3 in us-west; each reaches the datastores listed. */
  function ExampleCluster(): Cluster<int> {
    Cluster(
      Provider(
        (v: int) => Success(if v == 1 then [DS1, DS2, VSAN] else if v == 2 then [VSAN, DS1, DS2] else [VSAN]),
        (v: int, q: ZoneRegionQuery) =>
          Success(q.regionValue == REGION && (if v == 3 then q.zoneValue == WEST else q.zoneValue == EAST))),
      [1, 2, 3], "k8s-zone", "k8s-region")
  }

  lemma KeepSharedOfExample()
    ensures KeepShared([DS1, DS2, VSAN], [VSAN, DS1, DS2]) == [DS1, DS2, VSAN]
  {
    var shared, accessible := [DS1, DS2, VSAN], [VSAN, DS1, DS2];
    assert HasUrl(accessible, DS1.url) by { assert accessible[1].url == DS1.url; }
    assert HasUrl(accessible, DS2.url) by { assert accessible[2].url == DS2.url; }
    assert HasUrl(accessible, VSAN.url) by { assert accessible[0].url == VSAN.url; }
    assert shared[..2] == [DS1, DS2] && [DS1, DS2][..1] == [DS1] && [DS1][..0] == [];
    assert KeepShared([DS1], accessible) == [DS1];
    assert KeepShared([DS1, DS2], accessible) == [DS1, DS2];
  }

  function West(): Topology { Topology(SegmentsOf(WEST)) }
  function East(): Topology { Topology(SegmentsOf(EAST)) }

  /** The zone/region test puts node VM 3 alone in us-west and node VMs 1 and 2 in us-east. */
  lemma PartitionsOfExample()
    ensures NodesInZoneRegion(ExampleCluster().provider, [1, 2, 3], QueryFor(ExampleCluster(), West())) == Success([3])
    ensures NodesInZoneRegion(ExampleCluster().provider, [1, 2, 3], QueryFor(ExampleCluster(), East())) == Success([1, 2])
  {
    var c := ExampleCluster();
    Distinct();
    var all: seq<int> := [1, 2, 3];
    assert all[..2] == [1, 2] && [1, 2][..1] == [1] && [1][..0] == [];
    var qw, qe := QueryFor(c, West()), QueryFor(c, East());
    assert qw.zoneValue == WEST && qw.regionValue == REGION && qe.zoneValue == EAST && qe.regionValue == REGION;
    assert c.provider.isInZoneRegion(3, qw) == Success(true);
    assert c.provider.isInZoneRegion(1, qe) == Success(true);
    assert c.provider.isInZoneRegion(2, qe) == Success(true);
    assert [] + [3] == [3] && [] + [1] == [1] && [1] + [2] == [1, 2];
    assert NodesInZoneRegion(c.provider, [1], qw) == Success([]);
    assert NodesInZoneRegion(c.provider, [1, 2], qw) == Success([]);
    assert NodesInZoneRegion(c.provider, [1], qe) == Success([1]);
    assert NodesInZoneRegion(c.provider, [1, 2], qe) == Success([1, 2]);
  }

  /** us-west shares the vSAN datastore; us-east shares all three, in node VM 1's order. */
  lemma SegmentSetsOfExample()
    ensures SharedInSegmentSet(ExampleCluster(), West()) == Success([VSAN])
    ensures SharedInSegmentSet(ExampleCluster(), East()) == Success([DS1, DS2, VSAN])
  {
    var c := ExampleCluster();
    PartitionsOfExample();
    var f := c.provider.accessibleDatastores;
    assert [3][..0] == [] && [1][..0] == [] && [1, 2][..1] == [1];
    assert Shared([3], f) == Success([VSAN]);
    assert Shared([1], f) == Success([DS1, DS2, VSAN]);
    KeepSharedOfExample();
    assert Shared([1, 2], f) == Success([DS1, DS2, VSAN]);
  }

  function ExamplePlacements(): seq<Placement> {
    [Placement(VSAN, SegmentsOf(WEST)), Placement(DS1, SegmentsOf(EAST)),
     Placement(DS2, SegmentsOf(EAST)), Placement(VSAN, SegmentsOf(EAST))]
  }

  /** Each segment set's accessible topology is its own segment map. */
  lemma TopologiesOfExample()
    ensures AccessibleTopology(ZoneOf(West()), RegionOf(West())) == SegmentsOf(WEST)
    ensures AccessibleTopology(ZoneOf(East()), RegionOf(East())) == SegmentsOf(EAST)
  {
    assert ZoneOf(West()) == WEST && RegionOf(West()) == REGION;
    assert ZoneOf(East()) == EAST && RegionOf(East()) == REGION;
  }

  /** The placements of the chosen cluster, segment set by segment set. */
  lemma TaggedOfExample()
    ensures Tag([VSAN], AccessibleTopology(ZoneOf(West()), RegionOf(West()))) +
            Tag([DS1, DS2, VSAN], AccessibleTopology(ZoneOf(East()), RegionOf(East()))) == ExamplePlacements()
  {
    TopologiesOfExample();
  }

  /** The segment sets in preferred order, us-west then us-east, give these placements. */
  lemma PlacementsOfExample()
    ensures Placements(ExampleCluster(), [West(), East()]) == Success(ExamplePlacements())
  {
    var c := ExampleCluster();
    SegmentSetsOfExample();
    PlacementsOfOne(c, West());
    PlacementsOfOne(c, East());
    assert [West(), East()] == [West()] + [East()];
    PlacementsConcat(c, [West()], [East()]);
    TaggedOfExample();
  }

  /** The accessible topologies recorded per URL, in placement order. */
  lemma SegmentsOfExample()
    ensures SegmentsFor(ExamplePlacements(), DS1.url) == [SegmentsOf(EAST)]
    ensures SegmentsFor(ExamplePlacements(), DS2.url) == [SegmentsOf(EAST)]
    ensures SegmentsFor(ExamplePlacements(), VSAN.url) == [SegmentsOf(WEST), SegmentsOf(EAST)]
  {
    Distinct();
    var ps := ExamplePlacements();
    var p1, p2, p3 := ps[..1], ps[..2], ps[..3];
    assert p3[..2] == p2 && p2[..1] == p1 && p1[..0] == [];
    assert p1 == [Placement(VSAN, SegmentsOf(WEST))];
    assert SegmentsFor(p1, DS1.url) == [];
    assert SegmentsFor(p1, DS2.url) == [];
    assert SegmentsFor(p1, VSAN.url) == [SegmentsOf(WEST)];
    assert SegmentsFor(p2, DS1.url) == [SegmentsOf(EAST)] && SegmentsFor(p2, DS2.url) == [];
    assert SegmentsFor(p2, VSAN.url) == [SegmentsOf(WEST)];
    assert SegmentsFor(p3, DS1.url) == [SegmentsOf(EAST)] && SegmentsFor(p3, DS2.url) == [SegmentsOf(EAST)];
    assert SegmentsFor(p3, VSAN.url) == [SegmentsOf(WEST)];
  }

  /** The placements give the documented datastore list and datastore-topology map. */
  lemma SummaryOfExample()
    ensures Datastores(ExamplePlacements()) == [VSAN, DS1, DS2, VSAN]
    ensures TableOf(ExamplePlacements()) ==
            map[DS1.url := [SegmentsOf(EAST)], DS2.url := [SegmentsOf(EAST)],
                VSAN.url := [SegmentsOf(WEST), SegmentsOf(EAST)]]
  {
    DatastoresOfExample();
    TableOfExample();
  }

  /** The datastore list: us-west's vSAN datastore, then us-east's three. */
  lemma DatastoresOfExample()
    ensures Datastores(ExamplePlacements()) == [VSAN, DS1, DS2, VSAN]
  {
    var ds := Datastores(ExamplePlacements());
    assert ds[0] == VSAN && ds[1] == DS1 && ds[2] == DS2 && ds[3] == VSAN;
  }

  /** The map has one key per URL, each with its topologies in placement order. */
  lemma TableOfExample()
    ensures TableOf(ExamplePlacements()) ==
            map[DS1.url := [SegmentsOf(EAST)], DS2.url := [SegmentsOf(EAST)],
                VSAN.url := [SegmentsOf(WEST), SegmentsOf(EAST)]]
  {
    SegmentsOfExample();
    UrlsOfExample();
    var m := TableOf(ExamplePlacements());
    assert m.Keys == {DS1.url, DS2.url, VSAN.url};
  }

  lemma UrlsOfExample()
    ensures Urls(ExamplePlacements()) == {DS1.url, DS2.url, VSAN.url}
  {
    var ps := ExamplePlacements();
    assert ps[0].datastore.url == VSAN.url && ps[1].datastore.url == DS1.url && ps[2].datastore.url == DS2.url;
  }

  /**
   * The preferred list is used: us-west contributes the vSAN datastore, us-east
   * all three in node VM 1's order, and the map records the vSAN datastore under
   * both zones, us-west first.
   */
  lemma PreferredListResolves()
    ensures Resolve(ExampleCluster(), Some(TopologyRequirement(Some([East(), West()]), Some([West(), East()]))))
            == Success(([VSAN, DS1, DS2, VSAN],
                        map[DS1.url := [SegmentsOf(EAST)], DS2.url := [SegmentsOf(EAST)],
                            VSAN.url := [SegmentsOf(WEST), SegmentsOf(EAST)]]))
  {
    PlacementsOfExample();
    SummaryOfExample();
  }
}
