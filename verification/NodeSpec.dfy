/**
 What each node RPC does to its host and what it answers, as a function of the host, the
 block devices present, the request and the faults it meets (nodeserver.go,
 nodeserver_helpers.go, luks.go). The RPCs run under one mutex, so each is one step.
 */
module NodeSpec {
  import opened GoText
  import opened Faults
  import opened VolumeKeys
  import opened LuksContexts
  import DevicePaths
  import Limits

  const DEFAULT_FS_TYPE := "ext4"

  // The data a file system would be looked for in.
  datatype Plain = Empty | Formatted(fsType: string)

  // What a device carries. A LUKS header has a keyslot for a passphrase once one was
  // added; the plain data lies behind it.
  datatype Content = Clear(plain: Plain) | Luks(key: Option<string>, plain: Plain)

  const BLANK := Clear(Empty)

  datatype Source = Device(dev: int) | Mapper(name: string) | Directory(path: string)

  datatype Mount = Mount(source: Source, fsType: string, options: seq<string>)

  // `formats` records every LUKS Format that took hold, in order.
  datatype Host = Host(
    paths: set<string>,
    mounts: map<string, Mount>,
    mappers: map<string, int>,
    disks: map<int, Content>,
    formats: seq<int>)
  {
    function On(dev: int): Content {
      if dev in disks then disks[dev] else BLANK
    }

    predicate Busy(name: string) {
      exists path :: path in mounts && mounts[path].source == Mapper(name)
    }
  }

  // The by-id paths present on the host and the devices behind them.
  type Devices = map<string, int>

  datatype Site =
    | StatDevice(path: string) | MountCheck | MakeDir
    | Blkid | CryptInit | CryptFormat | KeyslotAdd | CryptLoad | Activation
    | Mkfs | Mounting
    | Unmounting | Removal | InitByName | Deactivation | Freeing

  type FaultPlan = map<Site, Fault>

  function At(faults: FaultPlan, site: Site): Fault {
    if site in faults then faults[site] else Fine
  }

  const NO_FAULTS: FaultPlan := map[]

  datatype Code = InvalidArgument | Internal | Unknown | Panicked

  datatype Reply = Success | Failure(code: Code)

  datatype Attempt<+T> = Good(value: T) | Stop(code: Code)

  datatype Access = Block | Filesystem(fsType: string, flags: seq<string>)

  datatype StageRequest = StageRequest(
    volumeId: string,
    staging: string,
    access: Option<Access>,
    volumeContext: map<string, string>,
    secrets: map<string, string>)

  datatype PublishRequest = PublishRequest(
    volumeId: string,
    staging: string,
    target: string,
    hasCapability: bool,
    readonly: bool)

  // A call with an effect on the host.
  function Write(h: Host, fault: Fault, h': Host): (Host, bool) {
    match fault
    case Fine => (h', true)
    case Lost => (h, false)
    case Late => (h', false)
  }

  function FsType(access: Access): string {
    if access.Filesystem? && access.fsType != "" then access.fsType else DEFAULT_FS_TYPE
  }

  function MountOptions(access: Access): seq<string> {
    var flags := if access.Filesystem? then access.flags else [];
    if FsType(access) == "xfs" then flags + ["nouuid"] else flags
  }

  function StatOf(devices: Devices, faults: FaultPlan): string -> DevicePaths.Stat {
    path =>
      if At(faults, StatDevice(path)) != Fine then DevicePaths.Unreadable
      else if path in devices then DevicePaths.Present
      else DevicePaths.Missing
  }

  function Partition(req: StageRequest): string {
    Lookup(req.volumeContext, PARTITION)
  }

  // findDevicePath
  function FindDevicePath(devices: Devices, key: VolumeKey, partition: string, faults: FaultPlan)
    : (r: Attempt<string>)
    ensures r.Good? ==> r.value in devices && r.value in DevicePaths.ByIdPaths(key.NormalizedLabel(), partition)
  {
    match DevicePaths.FirstExisting(DevicePaths.ByIdPaths(key.NormalizedLabel(), partition), StatOf(devices, faults))
    case Found(path) => Good(path)
    case NoneExists => Stop(Internal)
    case SearchFailed => Stop(Internal)
  }

  // ensureMountPoint: whether the path is not a mount point; it is made if missing.
  function EnsureMountPoint(h: Host, path: string, faults: FaultPlan): (Host, Attempt<bool>) {
    if At(faults, MountCheck) != Fine then (h, Stop(Internal))
    else if path in h.paths then (h, Good(path !in h.mounts))
    else
      var (h', ok) := Write(h, At(faults, MakeDir), h.(paths := h.paths + {path}));
      (h', if ok then Good(true) else Stop(Internal))
  }

  datatype Activated = Active | NameTaken | NotActivated

  // ActivateByPassphrase: a name already in the mapper table is reported as such.
  function Activate(h: Host, name: string, dev: int, passphrase: string, fault: Fault): (Host, Activated) {
    if fault == Lost then (h, NotActivated)
    else if name in h.mappers then (h, if fault == Fine then NameTaken else NotActivated)
    else if !h.On(dev).Luks? || h.On(dev).key != Some(passphrase) then (h, NotActivated)
    else (h.(mappers := h.mappers[name := dev]), if fault == Fine then Active else NotActivated)
  }

  function LuksFormatted(h: Host, dev: int): Host {
    h.(disks := h.disks[dev := Luks(None, Empty)], formats := h.formats + [dev])
  }

  function KeyAdded(h: Host, dev: int, passphrase: string): Host {
    h.(disks := h.disks[dev := Luks(Some(passphrase), Empty)])
  }

  // luksFormat: a cipher without a '-' has no second half to index.
  function LuksFormat(h: Host, luks: LuksContext, dev: int, faults: FaultPlan): (Host, Attempt<Source>) {
    if Atoi(luks.keySize).None? then (h, Stop(Internal))
    else if Cut(luks.cipher).None? then (h, Stop(Panicked))
    else if At(faults, CryptInit) != Fine then (h, Stop(Internal))
    else
      var (h1, formatted) := Write(h, At(faults, CryptFormat), LuksFormatted(h, dev));
      if !formatted then (h1, Stop(Internal))
      else
        var (h2, added) := Write(h1, At(faults, KeyslotAdd), KeyAdded(h1, dev, luks.key));
        if !added then (h2, Stop(Internal))
        else
          var (h3, activated) := Activate(h2, luks.volumeName, dev, luks.key, At(faults, Activation));
          (h3, if activated.Active? then Good(Mapper(luks.volumeName)) else Stop(Internal))
  }

  // luksOpen: a mapper that already carries the name is accepted as it is.
  function LuksOpen(h: Host, luks: LuksContext, dev: int, faults: FaultPlan): (Host, Attempt<Source>) {
    if At(faults, CryptInit) != Fine then (h, Stop(Internal))
    else if At(faults, CryptLoad) != Fine || !h.On(dev).Luks? then (h, Stop(Internal))
    else
      var (h', activated) := Activate(h, luks.volumeName, dev, luks.key, At(faults, Activation));
      (h', if activated.NotActivated? then Stop(Internal) else Good(Mapper(luks.volumeName)))
  }

  // formatLUKSVolume
  function FormatLuksVolume(h: Host, luks: LuksContext, dev: int, faults: FaultPlan): (Host, Attempt<Source>) {
    if At(faults, Blkid) != Fine then (h, Stop(Internal))
    else if !Complete(luks) then (h, Stop(Internal))
    else if h.On(dev) == BLANK then LuksFormat(h, luks, dev, faults)
    else LuksOpen(h, luks, dev, faults)
  }

  // The device a mount source stands for, if there is one.
  function DeviceOf(h: Host, source: Source): Option<int> {
    match source
    case Device(dev) => Some(dev)
    case Mapper(name) => if name in h.mappers then Some(h.mappers[name]) else None
    case Directory(_) => None
  }

  // The data a source exposes; None when it has none to offer (a raw LUKS device).
  function Exposed(h: Host, source: Source): Option<Plain> {
    match DeviceOf(h, source)
    case None => None
    case Some(dev) => if h.On(dev).Luks? == source.Mapper? then Some(h.On(dev).plain) else None
  }

  function Mkfsed(h: Host, source: Source, fsType: string): Host {
    match DeviceOf(h, source)
    case None => h
    case Some(dev) => h.(disks := h.disks[dev := h.On(dev).(plain := Formatted(fsType))])
  }

  function MountOver(h: Host, source: Source, target: string, fsType: string, options: seq<string>, faults: FaultPlan)
    : (Host, Reply)
  {
    if Exposed(h, source) != Some(Formatted(fsType)) then (h, Failure(Internal))
    else
      var (h', ok) := Write(h, At(faults, Mounting), h.(mounts := h.mounts[target := Mount(source, fsType, options)]));
      (h', if ok then Success else Failure(Internal))
  }

  // FormatAndMount: a file system is made only where there is none.
  function FormatAndMount(h: Host, source: Source, target: string, fsType: string, options: seq<string>, faults: FaultPlan)
    : (Host, Reply)
  {
    if Exposed(h, source) == Some(Empty) then
      var (h1, made) := Write(h, At(faults, Mkfs), Mkfsed(h, source, fsType));
      if !made then (h1, Failure(Internal)) else MountOver(h1, source, target, fsType, options, faults)
    else MountOver(h, source, target, fsType, options, faults)
  }

  // mountVolume
  function MountVolume(h: Host, dev: int, req: StageRequest, access: Access, faults: FaultPlan): (Host, Reply) {
    var luks := LuksContextOf(req.secrets, req.volumeContext);
    var (h1, source) := if luks.enabled then FormatLuksVolume(h, luks, dev, faults) else (h, Good(Device(dev)));
    match source
    case Stop(code) => (h1, Failure(code))
    case Good(from) => FormatAndMount(h1, from, req.staging, FsType(access), MountOptions(access), faults)
  }

  // NodeStageVolume once the staging path is known not to be mounted: block access needs
  // no more than the path.
  function Staged(h: Host, dev: int, req: StageRequest, access: Access, faults: FaultPlan): (Host, Reply) {
    if access.Block? then (h, Success) else MountVolume(h, dev, req, access, faults)
  }

  // NodeStageVolume once the device is found.
  function StageDevice(h: Host, dev: int, req: StageRequest, access: Access, faults: FaultPlan): (Host, Reply) {
    var (h1, notMount) := EnsureMountPoint(h, req.staging, faults);
    match notMount
    case Stop(code) => (h1, Failure(code))
    case Good(false) => (h1, Success)
    case Good(true) => Staged(h1, dev, req, access, faults)
  }

  // NodeStageVolume up to the device: what it answers if it gets no further.
  function StageTarget(devices: Devices, req: StageRequest, faults: FaultPlan): (r: Attempt<int>)
    ensures r.Good? ==> req.access.Some?
  {
    if req.volumeId == "" || req.staging == "" || req.access.None? then Stop(InvalidArgument)
    else match Parse(req.volumeId)
      case None => Stop(Unknown)
      case Some(key) =>
        match FindDevicePath(devices, key, Partition(req), faults)
        case Stop(code) => Stop(code)
        case Good(path) => Good(devices[path])
  }

  function Stage(h: Host, devices: Devices, req: StageRequest, faults: FaultPlan): (Host, Reply) {
    match StageTarget(devices, req, faults)
    case Stop(code) => (h, Failure(code))
    case Good(dev) => StageDevice(h, dev, req, req.access.value, faults)
  }

  // mount.CleanupMountPoint
  function Cleanup(h: Host, path: string, faults: FaultPlan): (Host, bool) {
    if At(faults, MountCheck) != Fine then (h, false)
    else if path !in h.paths then (h, true)
    else
      var (h1, unmounted) :=
        if path in h.mounts then Write(h, At(faults, Unmounting), h.(mounts := h.mounts - {path})) else (h, true);
      if !unmounted then (h1, false) else Write(h1, At(faults, Removal), h1.(paths := h1.paths - {path}))
  }

  // luksClose: whatever keeps the device from being looked up counts as "no longer active".
  function LuksClose(h: Host, name: string, faults: FaultPlan): (Host, bool) {
    if At(faults, InitByName) != Fine || name !in h.mappers then (h, true)
    else if h.Busy(name) then (h, false)
    else
      var (h', closed) := Write(h, At(faults, Deactivation), h.(mappers := h.mappers - {name}));
      (h', closed && At(faults, Freeing) == Fine)
  }

  function Unstage(h: Host, volumeId: string, staging: string, faults: FaultPlan): (Host, Reply) {
    if volumeId == "" || staging == "" then (h, Failure(InvalidArgument))
    else
      var (h1, cleaned) := Cleanup(h, staging, faults);
      if !cleaned then (h1, Failure(Internal))
      else match MountSource(volumeId)
        case None => (h1, Failure(Internal))
        case Some(name) =>
          var (h2, closed) := LuksClose(h1, name, faults);
          (h2, if closed then Success else Failure(Internal))
  }

  // NodePublishVolume for a file system: a bind mount of the staging path.
  function Publish(h: Host, req: PublishRequest, faults: FaultPlan): (Host, Reply) {
    if req.volumeId == "" || req.staging == "" || req.target == "" || !req.hasCapability then
      (h, Failure(InvalidArgument))
    else
      var (h1, notMount) := EnsureMountPoint(h, req.target, faults);
      match notMount
      case Stop(code) => (h1, Failure(code))
      case Good(false) => (h1, Success)
      case Good(true) =>
        if req.staging !in h1.paths then (h1, Failure(Internal))
        else
          var source := if req.staging in h1.mounts then h1.mounts[req.staging].source else Directory(req.staging);
          var options := if req.readonly then ["bind", "ro"] else ["bind"];
          var (h2, ok) := Write(h1, At(faults, Mounting),
            h1.(mounts := h1.mounts[req.target := Mount(source, DEFAULT_FS_TYPE, options)]));
          (h2, if ok then Success else Failure(Internal))
  }

  function Unpublish(h: Host, volumeId: string, target: string, faults: FaultPlan): (Host, Reply) {
    if volumeId == "" || target == "" then (h, Failure(InvalidArgument))
    else
      var (h', cleaned) := Cleanup(h, target, faults);
      (h', if cleaned then Success else Failure(Internal))
  }

  datatype NodeInfo = NodeInfo(nodeId: string, maxVolumesPerNode: int, segments: map<string, string>)

  // What NodeGetInfo reports of an instance with this metadata and this many disks.
  function InfoOf(id: int, memoryMB: int, region: string, disks: nat): NodeInfo {
    NodeInfo(Itoa(id), Limits.ReportedLimit(memoryMB, disks), map[TOPOLOGY_REGION := region])
  }
}
