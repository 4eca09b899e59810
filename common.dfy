/**
 * Values shared by the datastore-topology resolver of the CNS node service:
 * datastores, topology requirements, the errors the resolver reports and the
 * vSphere answers it depends on.
 */
module CnsTypes {

  datatype Option<+T> = None | Some(value: T)

  datatype Result<+T, +E> = Success(value: T) | Failure(error: E)

  /** The errors the resolver returns. */
  datatype Error<VM> =
    // an error returned by the node registry or by a vSphere call, passed on unchanged
    | Propagated(cause: string)
    // the running intersection of accessible datastores became empty at this node VM
    | NoSharedDatastores(nodeVM: VM)
    // the node registry listed no node VMs
    | EmptyNodeList

  /** A datastore as vSphere reports it: its URL identifies it, the rest is descriptive. */
  datatype DatastoreInfo = DatastoreInfo(url: string, info: string)

  /** A topology segment map: label key to label value. */
  type Segments = map<string, string>

  /** Datastore URL to the accessible-topology maps it was found shared under. */
  type DatastoreTopologyMap = map<string, seq<Segments>>

  /** One CSI topology: a set of segments. */
  datatype Topology = Topology(segments: Segments)

  /** A CSI topology requirement; `None` stands for a nil list. */
  datatype TopologyRequirement = TopologyRequirement(requisite: Option<seq<Topology>>, preferred: Option<seq<Topology>>)

  /** The arguments of one zone/region membership test. */
  datatype ZoneRegionQuery = ZoneRegionQuery(
    zoneCategoryName: string, regionCategoryName: string, zoneValue: string, regionValue: string)

  /**
   * The vSphere answers the resolver consults for a node VM: the datastores it can
   * reach, and whether it lies in a given zone and region. Both may fail.
   */
  datatype Provider<!VM> = Provider(
    accessibleDatastores: VM -> Result<seq<DatastoreInfo>, string>,
    isInZoneRegion: (VM, ZoneRegionQuery) -> Result<bool, string>)

  /** The topology label keys under which zone and region are requested and reported. */
  const LABEL_ZONE_FAILURE_DOMAIN: string := "failure-domain.beta.kubernetes.io/zone"
  const LABEL_REGION_FAILURE_DOMAIN: string := "failure-domain.beta.kubernetes.io/region"

  /** A Go map lookup: the zero value "" for a missing key. */
  function Lookup(m: Segments, key: string): string {
    if key in m then m[key] else ""
  }
}
