/**
 What each controller RPC does to the store and what it answers, as a function of the
 store, the request and the faults it meets (controllerserver.go,
 controllerserver_helper.go). The methods of ControllerServer are proved against these
 functions; the properties the driver promises are proved about them.
 */
module ControllerSpec {
  import opened GoText
  import opened Cloud
  import opened Faults
  import opened VolumeKeys
  import Sizes
  import Limits
  import LuksContexts

  const ENCRYPTION_PARAMETER := "linodebs.csi.linode.com/encrypted"
  const ENCRYPTION_CAPABILITY := "Block Storage Encryption"

  datatype Code =
    | InvalidArgument | NotFound | AlreadyExists | FailedPrecondition | ResourceExhausted | Unavailable | Internal
    | Unknown // an error without a gRPC status

  // The driver's settings: label prefix, the controller's own region, and the hash used
  // for ids that do not parse.
  datatype Config = Config(prefix: string, region: string, hash: string -> nat)

  datatype Capability = Nil | NoAccessMode | SingleNodeWriter | OtherAccessMode

  datatype Topology = Topology(preferred: seq<map<string, string>>, requisite: seq<map<string, string>>)

  datatype ContentSource = NoSource | FromVolume(volumeId: string) | FromNilVolume | FromSnapshot

  datatype CreateRequest = CreateRequest(
    name: string,
    capabilities: seq<Capability>,
    range: Option<Sizes.CapacityRange>,
    parameters: map<string, string>,
    source: ContentSource,
    topology: Option<Topology>)

  datatype CreateResponse = CreateResponse(
    volumeId: string,
    capacity: int,
    region: string,
    volumeContext: map<string, string>,
    source: Option<string>)

  datatype VolumeParams = VolumeParams(name: string, targetSizeGB: int, size: int, encryption: string, region: string)

  datatype Outcome<+T> = Good(value: T) | Bad(code: Code)

  datatype Rpc =
    | CreateVolume(create: CreateRequest, newId: int)
    | DeleteVolume(volumeId: string)
    | Publish(volumeId: string, nodeId: string, capability: Capability)
    | Unpublish(volumeId: string, nodeId: string)
    | Expand(volumeId: string, range: Option<Sizes.CapacityRange>)

  datatype Reply =
    | Failed(code: Code)
    | Created(response: CreateResponse)
    | Deleted
    | Published(devicePath: string)
    | Unpublished
    | Expanded(capacity: int)

  predicate ValidCapabilities(capabilities: seq<Capability>) {
    forall i :: 0 <= i < |capabilities| ==> capabilities[i] == SingleNodeWriter
  }

  // getRegionFromTopology: "" when the topology names no region.
  function TopologyRegion(topology: Topology): string {
    var topologies := if topology.preferred == [] then topology.requisite else topology.preferred;
    if topologies == [] then "" else Lookup(topologies[0], LuksContexts.TOPOLOGY_REGION)
  }

  // The topology rule: the region a volume of this request belongs in.
  function RegionFor(cfg: Config, topology: Option<Topology>): string {
    if topology.Some? && TopologyRegion(topology.value) != "" then TopologyRegion(topology.value) else cfg.region
  }

  // prepareVolumeParams
  function Params(cfg: Config, s: Store, req: CreateRequest, faults: FaultPlan): Outcome<VolumeParams> {
    match Sizes.RequestedCapacity(req.range)
    case Refused(_) => Bad(Unknown)
    case Bytes(size) =>
      var region := RegionFor(cfg, req.topology);
      var plain := VolumeParams(LabelFor(cfg.prefix, req.name), Sizes.BytesToGB(size), size, "disabled", region);
      if Lookup(req.parameters, ENCRYPTION_PARAMETER) != LuksContexts.TRUE then Good(plain)
      else match FetchRegion(s, region, At(faults, RegionLookup))
        case Err(_) => Bad(Internal)
        case Ok(capabilities) =>
          if ENCRYPTION_CAPABILITY in capabilities then Good(plain.(encryption := "enabled")) else Bad(Internal)
  }

  // getContentSourceVolume: the id of the volume to clone, None without a content source.
  function SourceVolume(cfg: Config, s: Store, req: CreateRequest, faults: FaultPlan): Outcome<Option<int>> {
    match req.source
    case NoSource => Good(None)
    case FromSnapshot => Bad(InvalidArgument)
    case FromNilVolume => Bad(InvalidArgument)
    case FromVolume(volumeId) =>
      match Parse(volumeId)
      case None => Bad(Internal)
      case Some(key) =>
        match Fetch(s.volumes, key.id, At(faults, SourceLookup))
        case Err(_) => Bad(Internal)
        case Ok(volume) =>
          if volume.region != RegionFor(cfg, req.topology) then Bad(InvalidArgument) else Good(Some(key.id))
  }

  // attemptCreateLinodeVolume: the volume that carries the label, made if there is none.
  ghost function Attempt(s: Store, params: VolumeParams, source: Option<int>, newId: int, faults: FaultPlan)
    : (r: (Store, Outcome<int>))
    ensures r.1.Good? ==> r.1.value in r.0.volumes
  {
    var existing := s.WithLabel(params.name);
    if At(faults, LabelListing) != Fine then (s, Bad(Internal))
    else if |existing| > 1 then (s, Bad(AlreadyExists))
    else if |existing| == 1 then (s, Good(The(existing)))
    else
      var (s', answer) :=
        match source
        case Some(from) => CloneCall(s, newId, from, params.name, At(faults, Making))
        case None =>
          CreateCall(s, newId, Cloud.Created(params.name, params.targetSizeGB, params.region, params.encryption), At(faults, Making));
      (s', if answer.Ok? then Good(newId) else Bad(Internal))
  }

  // createAndWaitForVolume
  ghost function CreateAndWait(s: Store, params: VolumeParams, source: Option<int>, newId: int, faults: FaultPlan)
    : (r: (Store, Outcome<int>))
    ensures r.1.Good? ==> r.1.value in r.0.volumes
  {
    var (s1, attempt) := Attempt(s, params, source, newId, faults);
    if attempt.Bad? then (s1, attempt)
    else
      var v := attempt.value;
      if s1.volumes[v].size != params.targetSizeGB && source.None? then (s1, Bad(AlreadyExists))
      else
        var (s2, answer) := ActiveCall(s1, v, At(faults, ActiveWait));
        (s2, if answer.Ok? then Good(v) else Bad(Internal))
  }

  function ResponseFor(req: CreateRequest, size: int, v: int, volume: Volume): CreateResponse {
    CreateResponse(
      VolumeKey(v, volume.volumeLabel).Print(),
      size,
      volume.region,
      LuksContexts.ContextFor(req.name, req.parameters, volume.region),
      if req.source.FromVolume? then Some(req.source.volumeId) else None)
  }

  ghost function CreateEffect(cfg: Config, s: Store, req: CreateRequest, newId: int, faults: FaultPlan): (Store, Reply) {
    if req.name == "" || req.capabilities == [] || !ValidCapabilities(req.capabilities) then (s, Failed(InvalidArgument))
    else match Params(cfg, s, req, faults)
      case Bad(code) => (s, Failed(code))
      case Good(params) =>
        match SourceVolume(cfg, s, req, faults)
        case Bad(code) => (s, Failed(code))
        case Good(source) =>
          var (s', made) := CreateAndWait(s, params, source, newId, faults);
          (s', match made
               case Bad(code) => Failed(code)
               case Good(v) => Created(ResponseFor(req, params.size, v, s'.volumes[v])))
  }

  function DeleteEffect(cfg: Config, s: Store, volumeId: string, faults: FaultPlan): (Store, Reply) {
    match DecodeVolume(cfg.hash, volumeId)
    case None => (s, Failed(InvalidArgument))
    case Some(v) =>
      match Fetch(s.volumes, v, At(faults, VolumeLookup))
      case Err(error) => (s, if error == Absent then Deleted else Failed(Internal))
      case Ok(volume) =>
        if volume.node.Some? then (s, Failed(FailedPrecondition))
        else
          var (s', answer) := DeleteCall(s, v, At(faults, Deletion));
          (s', if answer.Ok? then Deleted else Failed(Internal))
  }

  // maxAllowedVolumeAttachments and canAttach, after both listings succeeded
  predicate HasRoom(s: Store, n: int)
    requires n in s.instances
  {
    |s.AttachedTo(n)| < Limits.EnforcedLimit(s.instances[n].memory, s.instances[n].disks)
  }

  function PublishEffect(cfg: Config, s: Store, volumeId: string, nodeId: string, capability: Capability, faults: FaultPlan)
    : (Store, Reply)
  {
    var node, volume := DecodeNode(cfg.hash, nodeId), DecodeVolume(cfg.hash, volumeId);
    if node.None? || volume.None? || capability != SingleNodeWriter then (s, Failed(InvalidArgument))
    else AttachEffect(s, volume.value, node.value, faults)
  }

  function AttachEffect(s: Store, v: int, n: int, faults: FaultPlan): (Store, Reply) {
    match Fetch(s.instances, n, At(faults, InstanceLookup))
    case Err(error) => (s, Failed(if error == Absent then NotFound else Internal))
    case Ok(_) =>
      match Fetch(s.volumes, v, At(faults, VolumeLookup))
      case Err(error) => (s, Failed(if error == Absent then NotFound else Internal))
      case Ok(volume) =>
        if volume.node.Some? && volume.node.value != n then (s, Failed(AlreadyExists))
        else if volume.node.Some? && volume.path != "" then (s, Published(volume.path))
        else if At(faults, DiskListing) != Fine || At(faults, AttachedListing) != Fine then (s, Failed(Internal))
        else if !HasRoom(s, n) then (s, Failed(ResourceExhausted))
        else AttachAndWait(s, v, n, faults)
  }

  function AttachAndWait(s: Store, v: int, n: int, faults: FaultPlan): (Store, Reply) {
    var (s', answer) := AttachCall(s, v, n, At(faults, Attaching));
    if answer.Err? then (s', Failed(if answer.error == Cloud.AlreadyAttached then Unavailable else Internal))
    else match AwaitNode(s', v, Some(n), At(faults, AttachedWait))
      case Err(_) => (s', Failed(Unknown))
      case Ok(attached) => (s', Published(attached.path))
  }

  function UnpublishEffect(cfg: Config, s: Store, volumeId: string, nodeId: string, faults: FaultPlan): (Store, Reply) {
    var volume, node := DecodeVolume(cfg.hash, volumeId), DecodeNode(cfg.hash, nodeId);
    if volume.None? || node.None? then (s, Failed(InvalidArgument))
    else
      var v := volume.value;
      match Fetch(s.volumes, v, At(faults, VolumeLookup))
      case Err(error) => (s, if error == Absent then Unpublished else Failed(Internal))
      case Ok(found) =>
        if found.node.Some? && found.node.value != node.value then (s, Unpublished)
        else
          var (s', answer) := DetachCall(s, v, At(faults, Detaching));
          if answer.Err? then (s', if answer.error == Absent then Unpublished else Failed(Internal))
          else (s', if AwaitNode(s', v, None, At(faults, DetachedWait)).Ok? then Unpublished else Failed(Internal))
  }

  function ExpandEffect(cfg: Config, s: Store, volumeId: string, range: Option<Sizes.CapacityRange>, faults: FaultPlan)
    : (Store, Reply)
  {
    match DecodeVolume(cfg.hash, volumeId)
    case None => (s, Failed(InvalidArgument))
    case Some(v) =>
      match Sizes.RequestedCapacity(range)
      case Refused(_) => (s, Failed(Internal))
      case Bytes(size) =>
        match Fetch(s.volumes, v, At(faults, VolumeLookup))
        case Err(_) => (s, Failed(Internal))
        case Ok(volume) =>
          if volume.size > Sizes.BytesToGB(size) then (s, Failed(Internal))
          else
            var (s', resized) := ResizeCall(s, v, Sizes.BytesToGB(size), At(faults, Resizing));
            if resized.Err? then (s', Failed(Internal))
            else
              var (s'', active) := ActiveCall(s', v, At(faults, ActiveWait));
              (s'', if active.Ok? then Expanded(size) else Failed(Internal))
  }

  ghost function Exec(cfg: Config, s: Store, rpc: Rpc, faults: FaultPlan): (Store, Reply) {
    match rpc
    case CreateVolume(req, newId) => CreateEffect(cfg, s, req, newId, faults)
    case DeleteVolume(volumeId) => DeleteEffect(cfg, s, volumeId, faults)
    case Publish(volumeId, nodeId, capability) => PublishEffect(cfg, s, volumeId, nodeId, capability, faults)
    case Unpublish(volumeId, nodeId) => UnpublishEffect(cfg, s, volumeId, nodeId, faults)
    case Expand(volumeId, range) => ExpandEffect(cfg, s, volumeId, range, faults)
  }
}
