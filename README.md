# Datastore-topology resolver of the vSphere CSI node service

This project models the node service of the vSphere CSI driver's CNS controller,
`pkg/csi/service/cns/nodes.go`. The service does two things.

- It keeps the node registry up to date from the Kubernetes node informer. The
  node-add and node-delete callbacks register or unregister a node and ignore
  anything that is not a node.
- It answers the question "which datastores can a volume be placed on?".
  - The shared-datastore intersection finds the datastores that every node VM
    of a list can reach. Datastores are compared by URL, and the result keeps
    the order of the first node's list.
  - Zone/region partitioning picks out the registered node VMs that vSphere
    places in a given zone and region, in registry order.
  - Topology resolution runs the intersection once per requested topology
    segment set, on that set's node VMs. It concatenates the results and builds
    a map from each datastore URL to the accessible-topology segment maps it was
    found under. The preferred topology list takes priority over the requisite one.
  - The cluster-wide entry point intersects over all registered node VMs.

The model is split into these files:

| file | module | what it holds |
|---|---|---|
| `common.dfy` | `CnsTypes` | data types, errors, label keys |
| `intersection.dfy` | `SharedDatastores` | specification of the intersection (`Shared`), with a reference definition (`KeepReachable`) and lemmas |
| `partition.dfy` | `ZonePartition` | specification of the partitioning, with lemmas |
| `resolver.dfy` | `TopologyResolver` | specification of the accumulation over segment sets, the datastore-topology map and the preferred/requisite choice, with lemmas |
| `scenario.dfy` | `DocumentedExample` | a three-node cluster, chosen so that the requirement documented at nodes.go:88-96 produces the datastore-topology map documented at nodes.go:98-105, proved end to end |
| `cns.dfy` | `Cns` | the `Nodes` class, with the source's loops as methods proved equal to the specification functions, and a stand-in for the node registry |

The collaborators are modelled as parameters:

- The vSphere calls `GetAllAccessibleDatastores` and `IsInZoneRegion` are the
  two function fields of `Provider`. They are uninterpreted and may fail.
- The behaviour of the node registry (`cnsnode.Manager`) is not modelled. The
  class `NodeManager` stands in for it: it records the requests it receives, and
  its answers are opaque functions of the requests received so far.
- `GetUUIDFromProviderID` is an uninterpreted function field of `Nodes`.

### Behaviour of the code worth noting

- Intersecting an empty node-VM list succeeds with an empty list. The loop never
  runs, and nodes.go:246 returns the empty list with no error.
- A segment set whose zone and region hold no node VM is still passed to the
  intersection. It contributes nothing and is not an error (nodes.go:147-169).
- The topology label keys are `failure-domain.beta.kubernetes.io/zone` and
  `failure-domain.beta.kubernetes.io/region`. They are taken from the doc
  comment at nodes.go:89-105, because the package that defines them is not part
  of this model.

## Model

| member | source | states |
|---|---|---|
| `Cns.Nodes.GetSharedDatastoresForVMs` | pkg/csi/service/cns/nodes.go:218-247 | The nested loops compute exactly the intersection `Shared`. An empty node-VM list gives an empty list and no error. |
| `Cns.Nodes.KeepSharedByUrl` | pkg/csi/service/cns/nodes.go:229-240 | The double loop with `break` keeps exactly the running-list entries whose URL occurs in the accessible list. They stay in order and keep their multiplicity, and the kept entry is the running-list object. |
| `SharedDatastores.KeepShared` | pkg/csi/service/cns/nodes.go:229-240 | Filtering never lengthens the running list. |
| `SharedDatastores.KeepSharedMembers` | pkg/csi/service/cns/nodes.go:230-237 | An entry is kept iff it is in the running list and its URL occurs in the accessible list. |
| `SharedDatastores.KeepReachable` | pkg/csi/service/cns/nodes.go:226-241 | The reference intersection never lengthens the first node's list. |
| `SharedDatastores.KeepReachableMembers` | pkg/csi/service/cns/nodes.go:226-241 | An entry is in the reference intersection iff it is in the first node's list and every later node VM reports its URL. |
| `SharedDatastores.KeepReachableOfNoLater` | pkg/csi/service/cns/nodes.go:226-227 | With no later node VM, the first node's list is kept whole. |
| `SharedDatastores.KeepReachableOfAll` | pkg/csi/service/cns/nodes.go:230-240 | When every later node VM reports every URL of the first list, nothing is dropped. |
| `SharedDatastores.KeepSharedAppend` | pkg/csi/service/cns/nodes.go:230-238 | One more running-list entry is kept, at the end, iff its URL is accessible. |
| `SharedDatastores.KeepReachableAppend` | pkg/csi/service/cns/nodes.go:230-238 | One more first-list entry is kept, at the end, iff every later node VM reports its URL. |
| `SharedDatastores.ReachableFromAllAppend` | pkg/csi/service/cns/nodes.go:220-241 | A URL is reachable from the node VMs plus one more iff it is reachable from them and that node VM reports it. |
| `SharedDatastores.KeepSharedExtends` | pkg/csi/service/cns/nodes.go:228-240 | Narrowing the reference intersection by one more node's list gives the reference intersection over one more node VM. |
| `SharedDatastores.Narrow` | pkg/csi/service/cns/nodes.go:221-244 | An accessor error is passed on. A first non-empty list becomes the running list whole. A success is never empty and never longer than a non-empty running list. Any other failure names this node VM. |
| `SharedDatastores.SuccessfulStep` | pkg/csi/service/cns/nodes.go:220-245 | A success over two or more node VMs means all but the last succeeded, the last answered, and the result narrows the earlier running list by the last node VM's list. |
| `SharedDatastores.SuccessfulFirst` | pkg/csi/service/cns/nodes.go:226-227 | A success over one node VM means it answered, and the result is its whole list. |
| `SharedDatastores.Shared` | pkg/csi/service/cns/nodes.go:218-247 | Success on a non-empty list is never an empty list. A propagated error is the error some node VM's accessor returned. A "no shared datastores" error names a node VM of the list. The intersection never reports an empty registry. |
| `SharedDatastores.FailureIsFinal` | pkg/csi/service/cns/nodes.go:222-225 | Once a prefix of the node VMs fails, the whole call fails with the same error. |
| `SharedDatastores.RunningNarrows` | pkg/csi/service/cns/nodes.go:228-240 | Each later node VM's list narrows the running list with `KeepShared`. |
| `SharedDatastores.PrefixSucceeds` | pkg/csi/service/cns/nodes.go:220-245 | While every node VM answers and the running list stays non-empty, each prefix succeeds with the reference intersection. |
| `SharedDatastores.SharedOnSuccess` | pkg/csi/service/cns/nodes.go:220-246 | On success over a non-empty list, every node VM answered. The result is the first node's entries whose URL every later node VM reports, in order and with multiplicity. |
| `SharedDatastores.SucceedsWhenRunningListStaysNonEmpty` | pkg/csi/service/cns/nodes.go:220-246 | If every node VM answers and the reference intersection is non-empty, the call succeeds with it. |
| `SharedDatastores.FailsWhereRunningListEmpties` | pkg/csi/service/cns/nodes.go:242-244 | If the running list first becomes empty at node VM k, the call fails with an error naming node VM k. This includes a first node VM that reports no datastores. |
| `SharedDatastores.AbortsOnAccessorFailure` | pkg/csi/service/cns/nodes.go:222-225 | If the accessor first fails at node VM k while the running list is still non-empty, the call returns that error and no partial result. |
| `SharedDatastores.IdenticalListsAreShared` | pkg/csi/service/cns/nodes.go:226-246 | Node VMs that all report the same non-empty list share that list whole. |
| `SharedDatastores.KeepReachableOfNone` | pkg/csi/service/cns/nodes.go:230-240 | If no entry of the first list is reported by every later node VM, the reference intersection is empty. |
| `SharedDatastores.FirstEmptyRunningList` | pkg/csi/service/cns/nodes.go:242-244 | An empty reference intersection has a first node VM at which the running list becomes empty. |
| `SharedDatastores.DisjointNodeFails` | pkg/csi/service/cns/nodes.go:242-244 | When node VMs 0 to k answer and node VM k shares no URL with the first, the call fails naming a node VM no later than k. Node VMs after k need not answer. |
| `SharedDatastores.SharedInCluster` | pkg/csi/service/cns/nodes.go:197-215 | A registry error is passed on. An empty registry, and only an empty registry, gives the empty-list error. Success needs a non-empty registry and gives a non-empty list. |
| `Cns.Nodes.GetSharedDatastoresInK8SCluster` | pkg/csi/service/cns/nodes.go:197-215 | The method returns exactly `SharedInCluster` of the registry's current answer. |
| `Cns.Nodes.GetNodesInZoneRegion` | pkg/csi/service/cns/nodes.go:120-134 | The loop computes exactly `NodesInZoneRegion`. |
| `ZonePartition.NodesInZoneRegion` | pkg/csi/service/cns/nodes.go:120-134 | The partition succeeds iff every zone/region test succeeds. Its result is never longer than the registry list. Every error is a propagated one. |
| `ZonePartition.FailureIsFinal` | pkg/csi/service/cns/nodes.go:124-128 | Once a prefix fails, the whole partition fails with the same error. |
| `ZonePartition.FailsAtFirstFailingTest` | pkg/csi/service/cns/nodes.go:124-128 | The first failing test, in registry order, decides the error. |
| `ZonePartition.PartitionOnSuccess` | pkg/csi/service/cns/nodes.go:122-133 | On success the result is an order-preserving sub-list of the registry list. It holds every node VM whose test said true, as often as in the registry list, and no other. |
| `ZonePartition.IsSubsequenceOfLonger` | pkg/csi/service/cns/nodes.go:129-131 | A node VM that is skipped keeps the result a sub-list. |
| `ZonePartition.IsSubsequenceOfBoth` | pkg/csi/service/cns/nodes.go:129-131 | A node VM that is appended keeps the result a sub-list. |
| `TopologyResolver.AccessibleTopology` | pkg/csi/service/cns/nodes.go:160-166 | The segment map holds the zone label iff the zone is non-empty, and the region label iff the region is non-empty, each with its value. It holds no other key. |
| `TopologyResolver.SharedInSegmentSet` | pkg/csi/service/cns/nodes.go:143-157 | A partition error is passed on. An empty partition contributes an empty list and no error. A success needs a successful partition, and no failure is the empty-registry error. |
| `TopologyResolver.Placements` | pkg/csi/service/cns/nodes.go:142-170 | The accumulation succeeds iff every segment set succeeds. A failure is the error of some segment set. |
| `TopologyResolver.SharedInTopologies` | pkg/csi/service/cns/nodes.go:138-172 | It succeeds iff the accumulation does, and fails with the accumulation's error. On success the map's keys are exactly the URLs of the datastore list, and an empty list comes with an empty map. |
| `Cns.Nodes.RecordTopology` | pkg/csi/service/cns/nodes.go:159-168 | The loop builds each accessible-topology map and appends it under the datastore's URL. The resulting map is exactly `TableOf` of the placements so far plus the new ones. |
| `Cns.Nodes.GetSharedDatastoresInTopologies` | pkg/csi/service/cns/nodes.go:138-172 | The loop over segment sets computes exactly `SharedInTopologies`: the concatenated datastore list and the datastore-topology map, or the first error. |
| `TopologyResolver.Tag` | pkg/csi/service/cns/nodes.go:159-168 | Each datastore found is recorded once. |
| `TopologyResolver.Datastores` | pkg/csi/service/cns/nodes.go:169 | There is one datastore per placement. |
| `TopologyResolver.SegmentsForAbsent` | pkg/csi/service/cns/nodes.go:167 | A URL that was never found has no entry. |
| `TopologyResolver.UrlsAppend` | pkg/csi/service/cns/nodes.go:167 | Recording a placement adds exactly its URL to the key set. |
| `TopologyResolver.TableAppend` | pkg/csi/service/cns/nodes.go:167 | Recording one placement appends its accessible topology to its URL's list, starting from an empty list for a new URL. It changes no other entry. |
| `TopologyResolver.TableKeys` | pkg/csi/service/cns/nodes.go:159-169 | The map's keys are exactly the URLs of the datastore list. |
| `TopologyResolver.EntryPerOccurrence` | pkg/csi/service/cns/nodes.go:159-169 | For every URL, the map's list has exactly one entry per occurrence of that URL in the datastore list. |
| `TopologyResolver.SegmentsPerOccurrence` | pkg/csi/service/cns/nodes.go:159-169 | A URL's recorded topologies number exactly its placements. |
| `TopologyResolver.SegmentsForConcat` | pkg/csi/service/cns/nodes.go:142-170 | A URL's entries over two runs of segment sets are the first run's, then the second's. |
| `TopologyResolver.EmptyListEmptyTable` | pkg/csi/service/cns/nodes.go:159-169 | No datastores means an empty map. |
| `TopologyResolver.PlacementsOfOne` | pkg/csi/service/cns/nodes.go:143-168 | One segment set contributes its shared datastores, each tagged with its accessible topology. |
| `TopologyResolver.PlacementsConcat` | pkg/csi/service/cns/nodes.go:142-170 | The placements of two runs of segment sets are concatenated, without deduplication. An error in either run aborts, the first run's error first. |
| `TopologyResolver.FailureIsFinal` | pkg/csi/service/cns/nodes.go:147-157 | Once a prefix of the segment sets fails, the whole call fails with the same error. |
| `TopologyResolver.TwoSegmentSets` | pkg/csi/service/cns/nodes.go:142-171 | For two segment sets, the list is the first set's datastores, then the second's. Each URL lists the first set's topology per occurrence, then the second's. |
| `TopologyResolver.Resolve` | pkg/csi/service/cns/nodes.go:174-192 | A nil requirement, or one with neither list, gives an empty list and an empty map, with no error. Unless the preferred list succeeds with zero datastores, its outcome is the answer whatever the requisite list holds; a preferred error returns at once. When the preferred list is absent or finds nothing, the requisite list alone decides. A preferred list that finds nothing, with no requisite list, gives an empty list and an empty map. |
| `TopologyResolver.SharedInTopology` | pkg/csi/service/cns/nodes.go:106-193 | A registry error is passed on. An empty registry gives the empty-list error before any vSphere call. Otherwise the preferred/requisite resolution decides. |
| `Cns.Nodes.GetSharedDatastoresInTopology` | pkg/csi/service/cns/nodes.go:106-193 | The method returns exactly `SharedInTopology` of the registry's current answer. |
| `DocumentedExample.PartitionsOfExample` | pkg/csi/service/cns/nodes.go:120-134 | In the chosen cluster, whose zone test puts node VM 3 in us-west and node VMs 1 and 2 in us-east, the partitions are [3] and [1, 2]. |
| `DocumentedExample.SegmentSetsOfExample` | pkg/csi/service/cns/nodes.go:153 | In the chosen cluster, us-west shares the vSAN datastore, and us-east shares all three datastores in node VM 1's order. |
| `DocumentedExample.PlacementsOfExample` | pkg/csi/service/cns/nodes.go:142-170 | In the chosen cluster, the documented preferred order (us-west, then us-east) gives four placements. |
| `DocumentedExample.SegmentsOfExample` | pkg/csi/service/cns/nodes.go:98-105 | In the chosen cluster, each URL's accessible topologies are listed in placement order. |
| `DocumentedExample.SummaryOfExample` | pkg/csi/service/cns/nodes.go:98-105 | In the chosen cluster, the map is the documented one, with the vSAN datastore under both zones, and the datastore list is its four placements' datastores. |
| `DocumentedExample.KeepSharedOfExample` | pkg/csi/service/cns/nodes.go:229-240 | In the chosen cluster, node VM 2's list keeps all of node VM 1's datastores, in node VM 1's order. |
| `DocumentedExample.PreferredListResolves` | pkg/csi/service/cns/nodes.go:86-105 | For the chosen cluster, the documented requirement resolves through its preferred list to the documented datastore-topology map. |
| `Cns.Nodes.NodeAdd` | pkg/csi/service/cns/nodes.go:56-66 | A node is registered, under its name, with the UUID of its provider ID: exactly one registry request. Anything that is not a non-nil node causes no request. A registry error is not passed on. |
| `Cns.Nodes.NodeDelete` | pkg/csi/service/cns/nodes.go:68-78 | A node is unregistered by name: exactly one registry request. Anything else causes no request. A registry error is not passed on. |
| `Cns.Nodes.GetNodeByName` | pkg/csi/service/cns/nodes.go:82-84 | The method returns the registry's answer for the name, unchanged. |
| `Cns.NodeManager.Register` | pkg/csi/service/cns/nodes.go:62 | The registration request is recorded. The answer is the registry's opaque answer to it. |
| `Cns.NodeManager.Unregister` | pkg/csi/service/cns/nodes.go:74 | The unregistration request is recorded. The answer is the registry's opaque answer to it. |
| `Cns.NodeManager.GetAllNodes` | pkg/csi/service/cns/nodes.go:108 | The method returns the registry's answer for the requests received so far. |
| `Cns.NodeManager.GetNodeByName` | pkg/csi/service/cns/nodes.go:83 | The method returns the registry's answer for the name and the requests received so far. |

## Left out

- The node registry's own behaviour (`cnsnode.Manager`) is not part of this
  model. Its answers are opaque functions of the requests it has received. No
  overwrite-on-duplicate or not-found semantics are assumed, and its mutex and
  concurrent callers are not modelled.
- `IsInZoneRegion`, `GetAllAccessibleDatastores` and `GetUUIDFromProviderID` are
  uninterpreted functions. Each call is deterministic in its arguments, so two
  calls with the same node VM get the same answer. Empty zone or region values
  are not treated as wildcards, because that logic lives inside `IsInZoneRegion`.
- `Nodes.Initialize` (nodes.go:41-54) is left out. It builds the Kubernetes
  client and informer and starts listening, which is I/O wiring.
- `pkg/common/cns-lib/vsphere/cns.go` is left out. `NewCNSClient`, `ConnectCNS`
  and `DisconnectCNS` are vCenter session plumbing with no logic of their own.
- `context.Context` is left out; the code only passes it through.
- `klog` logging is left out, and so is the text of error messages. An error is
  modelled as the collaborator's error passed on, the node VM at which no shared
  datastore remained, or the empty-registry error.
- Go's nil and empty slices are indistinguishable here. Examples are the nil
  slice returned at nodes.go:111 and the empty non-nil slice at nodes.go:206,
  both beside an error; the model returns only the error.
- The type assertion that the node callbacks apply to an arbitrary informer
  object is modelled as a three-way datatype: a node, a nil node, or another
  object.
