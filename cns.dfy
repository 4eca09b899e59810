/**
 * The CNS node service: the membership callbacks that drive the node registry,
 * and the resolver entry points, written as the loops they are and proved
 * against the specification functions of SharedDatastores, ZonePartition and
 * TopologyResolver.
 */
module Cns {
  import opened CnsTypes
  import opened SharedDatastores
  import opened ZonePartition
  import opened TopologyResolver

  /** A mutating request sent to the node registry. */
  datatype RegistryRequest =
    | RegisterNode(nodeUUID: string, nodeName: string)
    | UnregisterNode(nodeName: string)

  /** What the node informer hands to a callback: a node, a nil node pointer, or some other object. */
  datatype InformerObject =
    | NodeObject(name: string, providerID: string)
    | NilNode
    | OtherObject

  /**
   * The node registry as the service sees it. Its internal state is not modelled:
   * it records the requests it receives, and each answer is an opaque function of
   * the requests received so far.
   */
  class NodeManager<VM> {
    var requests: seq<RegistryRequest>
    const answer: (seq<RegistryRequest>, RegistryRequest) -> Option<string>
    const nodesAfter: seq<RegistryRequest> -> Result<seq<VM>, string>
    const nodeAfter: (seq<RegistryRequest>, string) -> Result<VM, string>

    constructor (answer: (seq<RegistryRequest>, RegistryRequest) -> Option<string>,
                 nodesAfter: seq<RegistryRequest> -> Result<seq<VM>, string>,
                 nodeAfter: (seq<RegistryRequest>, string) -> Result<VM, string>)
      ensures requests == []
      ensures this.answer == answer && this.nodesAfter == nodesAfter && this.nodeAfter == nodeAfter
    {
      requests := [];
      this.answer := answer;
      this.nodesAfter := nodesAfter;
      this.nodeAfter := nodeAfter;
    }

    method Register(nodeUUID: string, nodeName: string) returns (err: Option<string>)
      modifies this
      ensures requests == old(requests) + [RegisterNode(nodeUUID, nodeName)]
      ensures err == answer(old(requests), RegisterNode(nodeUUID, nodeName))
    {
      err := answer(requests, RegisterNode(nodeUUID, nodeName));
      requests := requests + [RegisterNode(nodeUUID, nodeName)];
    }

    method Unregister(nodeName: string) returns (err: Option<string>)
      modifies this
      ensures requests == old(requests) + [UnregisterNode(nodeName)]
      ensures err == answer(old(requests), UnregisterNode(nodeName))
    {
      err := answer(requests, UnregisterNode(nodeName));
      requests := requests + [UnregisterNode(nodeName)];
    }

    method GetAllNodes() returns (r: Result<seq<VM>, string>)
      ensures r == nodesAfter(requests)
    {
      r := nodesAfter(requests);
    }

    method GetNodeByName(nodeName: string) returns (r: Result<VM, string>)
      ensures r == nodeAfter(requests, nodeName)
    {
      r := nodeAfter(requests, nodeName);
    }
  }

  /** The node service: the node registry it drives and the provider-ID to UUID conversion it uses. */
  class Nodes<VM> {
    const cnsNodeManager: NodeManager<VM>
    const uuidFromProviderID: string -> string

    constructor (cnsNodeManager: NodeManager<VM>, uuidFromProviderID: string -> string)
      ensures this.cnsNodeManager == cnsNodeManager && this.uuidFromProviderID == uuidFromProviderID
    {
      this.cnsNodeManager := cnsNodeManager;
      this.uuidFromProviderID := uuidFromProviderID;
    }

    /**
     * Node-add callback: a node is registered under its name with the UUID of its
     * provider ID; anything else is dropped. A registry error is not passed on.
     */
    method NodeAdd(obj: InformerObject)
      modifies cnsNodeManager
      ensures obj.NodeObject? ==>
                cnsNodeManager.requests ==
                old(cnsNodeManager.requests) + [RegisterNode(uuidFromProviderID(obj.providerID), obj.name)]
      ensures !obj.NodeObject? ==> cnsNodeManager.requests == old(cnsNodeManager.requests)
    {
      if !obj.NodeObject? {
        return;
      }
      var err := cnsNodeManager.Register(uuidFromProviderID(obj.providerID), obj.name);
    }

    /** Node-delete callback: a node is unregistered by name; anything else is dropped. A registry error is not passed on. */
    method NodeDelete(obj: InformerObject)
      modifies cnsNodeManager
      ensures obj.NodeObject? ==>
                cnsNodeManager.requests == old(cnsNodeManager.requests) + [UnregisterNode(obj.name)]
      ensures !obj.NodeObject? ==> cnsNodeManager.requests == old(cnsNodeManager.requests)
    {
      if !obj.NodeObject? {
        return;
      }
      var err := cnsNodeManager.Unregister(obj.name);
    }

    /** The registry's answer for this node name, unchanged. */
    method GetNodeByName(nodeName: string) returns (r: Result<VM, string>)
      ensures r == cnsNodeManager.nodeAfter(cnsNodeManager.requests, nodeName)
    {
      r := cnsNodeManager.GetNodeByName(nodeName);
    }

    /**
     * The inner double loop of the intersection: the entries of `sharedDatastores`
     * whose URL occurs in `accessibleDatastores`, in order; see SharedDatastores.KeepShared.
     */
    static method KeepSharedByUrl(sharedDatastores: seq<DatastoreInfo>, accessibleDatastores: seq<DatastoreInfo>)
      returns (sharedAccessibleDatastores: seq<DatastoreInfo>)
      ensures sharedAccessibleDatastores == KeepShared(sharedDatastores, accessibleDatastores)
    {
      sharedAccessibleDatastores := [];
      var j := 0;
      while j < |sharedDatastores|
        invariant 0 <= j <= |sharedDatastores|
        invariant sharedAccessibleDatastores == KeepShared(sharedDatastores[..j], accessibleDatastores)
      {
        var sharedDs := sharedDatastores[j];
        assert sharedDatastores[..j + 1] == sharedDatastores[..j] + [sharedDs];
        KeepSharedAppend(sharedDatastores[..j], sharedDs, accessibleDatastores);
        var k := 0;
        while k < |accessibleDatastores|
          invariant 0 <= k <= |accessibleDatastores|
          invariant forall m :: 0 <= m < k ==> accessibleDatastores[m].url != sharedDs.url
          invariant sharedAccessibleDatastores == KeepShared(sharedDatastores[..j], accessibleDatastores)
        {
          if sharedDs.url == accessibleDatastores[k].url {
            assert HasUrl(accessibleDatastores, sharedDs.url);
            sharedAccessibleDatastores := sharedAccessibleDatastores + [sharedDs];
            break;
          }
          k := k + 1;
        }
        assert sharedAccessibleDatastores == KeepShared(sharedDatastores[..j + 1], accessibleDatastores);
        j := j + 1;
      }
      assert sharedDatastores[..j] == sharedDatastores;
    }

    /** The datastores shared by all of `nodeVMs`; see SharedDatastores.Shared and its lemmas. */
    method GetSharedDatastoresForVMs(p: Provider<VM>, nodeVMs: seq<VM>) returns (r: Result<seq<DatastoreInfo>, Error<VM>>)
      ensures r == Shared(nodeVMs, p.accessibleDatastores)
      ensures nodeVMs == [] ==> r == Success([])
    {
      var f := p.accessibleDatastores;
      var sharedDatastores: seq<DatastoreInfo> := [];
      var i := 0;
      while i < |nodeVMs|
        invariant 0 <= i <= |nodeVMs|
        invariant Shared(nodeVMs[..i], f) == Success(sharedDatastores)
      {
        var nodeVM := nodeVMs[i];
        assert nodeVMs[..i + 1][..i] == nodeVMs[..i];
        var fetched := f(nodeVM);
        if fetched.Failure? {
          r := Failure(Propagated(fetched.error));
          SharedDatastores.FailureIsFinal(nodeVMs, i + 1, f);
          return;
        }
        var accessibleDatastores := fetched.value;
        if |sharedDatastores| == 0 {
          sharedDatastores := accessibleDatastores;
        } else {
          sharedDatastores := KeepSharedByUrl(sharedDatastores, accessibleDatastores);
        }
        if |sharedDatastores| == 0 {
          r := Failure(NoSharedDatastores(nodeVM));
          SharedDatastores.FailureIsFinal(nodeVMs, i + 1, f);
          return;
        }
        i := i + 1;
      }
      assert nodeVMs[..i] == nodeVMs;
      r := Success(sharedDatastores);
    }

    /** The registered node VMs in a zone and region; see ZonePartition.NodesInZoneRegion and its lemmas. */
    method GetNodesInZoneRegion(p: Provider<VM>, allNodes: seq<VM>, q: ZoneRegionQuery) returns (r: Result<seq<VM>, Error<VM>>)
      ensures r == NodesInZoneRegion(p, allNodes, q)
    {
      var nodeVMsInZoneAndRegion: seq<VM> := [];
      var i := 0;
      while i < |allNodes|
        invariant 0 <= i <= |allNodes|
        invariant NodesInZoneRegion(p, allNodes[..i], q) == Success(nodeVMsInZoneAndRegion)
      {
        var nodeVM := allNodes[i];
        assert allNodes[..i + 1][..i] == allNodes[..i];
        var isNodeInZoneRegion := p.isInZoneRegion(nodeVM, q);
        if isNodeInZoneRegion.Failure? {
          r := Failure(Propagated(isNodeInZoneRegion.error));
          ZonePartition.FailureIsFinal(p, allNodes, q, i + 1);
          return;
        }
        if isNodeInZoneRegion.value {
          nodeVMsInZoneAndRegion := nodeVMsInZoneAndRegion + [nodeVM];
        }
        i := i + 1;
      }
      assert allNodes[..i] == allNodes;
      r := Success(nodeVMsInZoneAndRegion);
    }

    /**
     * The inner loop of the topology accumulation: record, for each datastore found,
     * the accessible topology of this zone and region under its URL.
     */
    static method RecordTopology(datastoreTopologyMap: DatastoreTopologyMap, found: seq<DatastoreInfo>,
                                 zone: string, region: string, ghost placed: seq<Placement>)
      returns (m: DatastoreTopologyMap)
      requires datastoreTopologyMap == TableOf(placed)
      ensures m == TableOf(placed + Tag(found, AccessibleTopology(zone, region)))
    {
      ghost var segments := AccessibleTopology(zone, region);
      m := datastoreTopologyMap;
      assert found[..0] == [] && placed + [] == placed;
      var j := 0;
      while j < |found|
        invariant 0 <= j <= |found|
        invariant m == TableOf(placed + Tag(found[..j], segments))
      {
        var datastore := found[j];
        var accessibleTopology: Segments := map[];
        if zone != "" {
          accessibleTopology := accessibleTopology[LABEL_ZONE_FAILURE_DOMAIN := zone];
        }
        if region != "" {
          accessibleTopology := accessibleTopology[LABEL_REGION_FAILURE_DOMAIN := region];
        }
        assert accessibleTopology == segments;
        assert Tag(found[..j + 1], segments) == Tag(found[..j], segments) + [Placement(datastore, segments)];
        assert placed + Tag(found[..j + 1], segments) == placed + Tag(found[..j], segments) + [Placement(datastore, segments)];
        TableAppend(placed + Tag(found[..j], segments), Placement(datastore, segments));
        m := m[datastore.url := Entries(m, datastore.url) + [accessibleTopology]];
        j := j + 1;
      }
      assert found[..j] == found;
    }

    /**
     * The shared datastores and datastore-topology map for a list of segment sets;
     * see TopologyResolver.SharedInTopologies and its lemmas.
     */
    method GetSharedDatastoresInTopologies(p: Provider<VM>, allNodes: seq<VM>, zoneCategoryName: string,
                                           regionCategoryName: string, topologyArr: seq<Topology>)
      returns (r: Result<(seq<DatastoreInfo>, DatastoreTopologyMap), Error<VM>>)
      ensures r == SharedInTopologies(Cluster(p, allNodes, zoneCategoryName, regionCategoryName), topologyArr)
    {
      ghost var c := Cluster(p, allNodes, zoneCategoryName, regionCategoryName);
      var sharedDatastores: seq<DatastoreInfo> := [];
      var datastoreTopologyMap: DatastoreTopologyMap := map[];
      ghost var placed: seq<Placement> := [];
      var i := 0;
      while i < |topologyArr|
        invariant 0 <= i <= |topologyArr|
        invariant Placements(c, topologyArr[..i]) == Success(placed)
        invariant sharedDatastores == Datastores(placed)
        invariant datastoreTopologyMap == TableOf(placed)
      {
        var topology := topologyArr[i];
        assert topologyArr[..i + 1][..i] == topologyArr[..i];
        var zone := Lookup(topology.segments, LABEL_ZONE_FAILURE_DOMAIN);
        var region := Lookup(topology.segments, LABEL_REGION_FAILURE_DOMAIN);
        var nodeVMsInZoneRegion := GetNodesInZoneRegion(p, allNodes, ZoneRegionQuery(zoneCategoryName, regionCategoryName, zone, region));
        if nodeVMsInZoneRegion.Failure? {
          r := Failure(nodeVMsInZoneRegion.error);
          TopologyResolver.FailureIsFinal(c, topologyArr, i + 1);
          return;
        }
        var sharedDatastoresInZoneRegion := GetSharedDatastoresForVMs(p, nodeVMsInZoneRegion.value);
        if sharedDatastoresInZoneRegion.Failure? {
          r := Failure(sharedDatastoresInZoneRegion.error);
          TopologyResolver.FailureIsFinal(c, topologyArr, i + 1);
          return;
        }
        var found := sharedDatastoresInZoneRegion.value;
        ghost var segments := AccessibleTopology(zone, region);
        datastoreTopologyMap := RecordTopology(datastoreTopologyMap, found, zone, region, placed);
        DatastoresAppend(placed, Tag(found, segments));
        DatastoresOfTag(found, segments);
        sharedDatastores := sharedDatastores + found;
        placed := placed + Tag(found, segments);
        i := i + 1;
      }
      assert topologyArr[..i] == topologyArr;
      r := Success((sharedDatastores, datastoreTopologyMap));
    }

    /**
     * Shared datastores for a topology requirement: the preferred list first, the
     * requisite list only when the preferred one is absent or found nothing; see
     * TopologyResolver.SharedInTopology and the lemmas on Resolve.
     */
    method GetSharedDatastoresInTopology(p: Provider<VM>, topologyRequirement: Option<TopologyRequirement>,
                                         zoneCategoryName: string, regionCategoryName: string)
      returns (r: Result<(seq<DatastoreInfo>, DatastoreTopologyMap), Error<VM>>)
      ensures r == SharedInTopology(cnsNodeManager.nodesAfter(cnsNodeManager.requests), topologyRequirement,
                                    zoneCategoryName, regionCategoryName, p)
    {
      var allNodes := cnsNodeManager.GetAllNodes();
      if allNodes.Failure? {
        return Failure(Propagated(allNodes.error));
      }
      if |allNodes.value| == 0 {
        return Failure(EmptyNodeList);
      }
      var sharedDatastores: seq<DatastoreInfo> := [];
      var datastoreTopologyMap: DatastoreTopologyMap := map[];
      if topologyRequirement.Some? && topologyRequirement.value.preferred.Some? {
        var fromPreferred := GetSharedDatastoresInTopologies(p, allNodes.value, zoneCategoryName, regionCategoryName,
                                                             topologyRequirement.value.preferred.value);
        if fromPreferred.Failure? {
          return Failure(fromPreferred.error);
        }
        sharedDatastores, datastoreTopologyMap := fromPreferred.value.0, fromPreferred.value.1;
      }
      if |sharedDatastores| == 0 && topologyRequirement.Some? && topologyRequirement.value.requisite.Some? {
        var fromRequisite := GetSharedDatastoresInTopologies(p, allNodes.value, zoneCategoryName, regionCategoryName,
                                                             topologyRequirement.value.requisite.value);
        if fromRequisite.Failure? {
          return Failure(fromRequisite.error);
        }
        sharedDatastores, datastoreTopologyMap := fromRequisite.value.0, fromRequisite.value.1;
      }
      r := Success((sharedDatastores, datastoreTopologyMap));
    }

    /** The datastores shared by every registered node VM; see SharedDatastores.SharedInCluster. */
    method GetSharedDatastoresInK8SCluster(p: Provider<VM>) returns (r: Result<seq<DatastoreInfo>, Error<VM>>)
      ensures r == SharedInCluster(cnsNodeManager.nodesAfter(cnsNodeManager.requests), p.accessibleDatastores)
    {
      var nodeVMs := cnsNodeManager.GetAllNodes();
      if nodeVMs.Failure? {
        return Failure(Propagated(nodeVMs.error));
      }
      if |nodeVMs.value| == 0 {
        return Failure(EmptyNodeList);
      }
      r := GetSharedDatastoresForVMs(p, nodeVMs.value);
    }
  }
}
