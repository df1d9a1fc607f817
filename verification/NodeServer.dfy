/**
 The node server. Every RPC holds the server's mutex from its first statement to its
 return, so each is one step on the host; each is proved to do exactly what NodeSpec
 says of it, whatever faults it meets.
 */
module NodeServers {
  import opened GoText
  import opened Faults
  import opened VolumeKeys
  import opened LuksContexts
  import opened NodeSpec
  import DevicePaths
  import Limits

  datatype BlkidRun = NotFound | NotStarted | Exited(status: int)

  // The kernel's tables and the tools that change them: outside the repository, known
  // only by these contracts.
  class HostOs {
    var paths: set<string>
    var mounts: map<string, Mount>
    var mappers: map<string, int>
    var disks: map<int, Content>
    var formats: seq<int>

    constructor ()
      ensures Snapshot() == Host({}, map[], map[], map[], [])
    {
      paths, mounts, mappers, disks, formats := {}, map[], map[], map[], [];
    }

    function Snapshot(): Host
      reads this
    {
      Host(paths, mounts, mappers, disks, formats)
    }

    method Set(h: Host)
      modifies this
      ensures Snapshot() == h
    {
      paths, mounts, mappers, disks, formats := h.paths, h.mounts, h.mappers, h.disks, h.formats;
    }

    // blkid exits with 0 when it finds a signature and with 2 when it finds none.
    method RunBlkid(dev: int, fault: Fault) returns (run: BlkidRun)
      ensures fault == Fine ==> run == Exited(if Snapshot().On(dev) == BLANK then 2 else 0)
      ensures fault != Fine && run.Exited? ==> run.status != 0 && run.status != 2
    {
      if fault == Fine {
        return Exited(if Snapshot().On(dev) == BLANK then 2 else 0);
      }
      var status: int := *;
      if status != 0 && status != 2 {
        return Exited(status);
      }
      run := if status == 0 then NotFound else NotStarted;
    }

    method MkdirAll(path: string, fault: Fault) returns (ok: bool)
      modifies this
      ensures (Snapshot(), ok) == Write(old(Snapshot()), fault, old(Snapshot()).(paths := old(paths) + {path}))
    {
      if fault != Lost {
        paths := paths + {path};
      }
      ok := fault == Fine;
    }

    method CryptFormat(dev: int, fault: Fault) returns (ok: bool)
      modifies this
      ensures (Snapshot(), ok) == Write(old(Snapshot()), fault, LuksFormatted(old(Snapshot()), dev))
    {
      if fault != Lost {
        disks, formats := disks[dev := Luks(None, Empty)], formats + [dev];
      }
      ok := fault == Fine;
    }

    method KeyslotAddByVolumeKey(dev: int, passphrase: string, fault: Fault) returns (ok: bool)
      modifies this
      ensures (Snapshot(), ok) == Write(old(Snapshot()), fault, KeyAdded(old(Snapshot()), dev, passphrase))
    {
      if fault != Lost {
        disks := disks[dev := Luks(Some(passphrase), Empty)];
      }
      ok := fault == Fine;
    }

    method ActivateByPassphrase(name: string, dev: int, passphrase: string, fault: Fault) returns (r: Activated)
      modifies this
      ensures (Snapshot(), r) == Activate(old(Snapshot()), name, dev, passphrase, fault)
    {
      var (h, activated) := Activate(Snapshot(), name, dev, passphrase, fault);
      mappers, r := h.mappers, activated;
    }

    method Deactivate(name: string, fault: Fault) returns (ok: bool)
      requires name in mappers
      modifies this
      ensures (Snapshot(), ok) ==
        if old(Snapshot()).Busy(name) then (old(Snapshot()), false)
        else Write(old(Snapshot()), fault, old(Snapshot()).(mappers := old(mappers) - {name}))
    {
      if Snapshot().Busy(name) {
        return false;
      }
      if fault != Lost {
        mappers := mappers - {name};
      }
      ok := fault == Fine;
    }

    method FormatAndMount(source: Source, target: string, fsType: string, options: seq<string>, faults: FaultPlan)
      returns (reply: Reply)
      modifies this
      ensures (Snapshot(), reply)
        == NodeSpec.FormatAndMount(old(Snapshot()), source, target, fsType, options, faults)
    {
      var (h, answer) := NodeSpec.FormatAndMount(Snapshot(), source, target, fsType, options, faults);
      Set(h);
      reply := answer;
    }

    method BindMount(source: Source, target: string, options: seq<string>, fault: Fault) returns (ok: bool)
      modifies this
      ensures (Snapshot(), ok) == Write(old(Snapshot()), fault,
        old(Snapshot()).(mounts := old(mounts)[target := Mount(source, DEFAULT_FS_TYPE, options)]))
    {
      if fault != Lost {
        mounts := mounts[target := Mount(source, DEFAULT_FS_TYPE, options)];
      }
      ok := fault == Fine;
    }

    method CleanupMountPoint(path: string, faults: FaultPlan) returns (ok: bool)
      modifies this
      ensures (Snapshot(), ok) == Cleanup(old(Snapshot()), path, faults)
    {
      var (h, cleaned) := Cleanup(Snapshot(), path, faults);
      Set(h);
      ok := cleaned;
    }
  }

  class NodeServer {
    const os: HostOs

    constructor (os: HostOs)
      ensures this.os == os
    {
      this.os := os;
    }

    method FindDevicePath(devices: Devices, key: VolumeKey, partition: string, faults: FaultPlan)
      returns (r: Attempt<string>)
      ensures r == NodeSpec.FindDevicePath(devices, key, partition, faults)
    {
      var deviceName := key.NormalizedLabel();
      var devicePaths := DevicePaths.GetDiskByIdPaths(deviceName, partition);
      var found := DevicePaths.VerifyDevicePath(devicePaths[..], StatOf(devices, faults));
      match found
      case SearchFailed => return Stop(Internal);
      case NoneExists => return Stop(Internal);
      case Found(path) => return Good(path);
    }

    method EnsureMountPoint(path: string, faults: FaultPlan) returns (r: Attempt<bool>)
      modifies os
      ensures (os.Snapshot(), r) == NodeSpec.EnsureMountPoint(old(os.Snapshot()), path, faults)
    {
      if At(faults, MountCheck) != Fine {
        return Stop(Internal);
      }
      var notMount := path !in os.paths || path !in os.mounts;
      if path !in os.paths {
        var ok := os.MkdirAll(path, At(faults, MakeDir));
        if !ok {
          return Stop(Internal);
        }
      }
      return Good(notMount);
    }

    method BlkidValid(dev: int, faults: FaultPlan) returns (formatted: Attempt<bool>)
      ensures formatted == if At(faults, Blkid) != Fine then Stop(Internal) else Good(os.Snapshot().On(dev) != BLANK)
    {
      var run := os.RunBlkid(dev, At(faults, Blkid));
      match run
      case NotFound => return Stop(Internal);
      case NotStarted => return Stop(Internal);
      case Exited(status) =>
        if status == 0 {
          return Good(true);
        }
        if status == 2 {
          return Good(false);
        }
        return Stop(Internal);
    }

    method LuksFormat(luks: LuksContext, dev: int, faults: FaultPlan) returns (source: Attempt<Source>)
      modifies os
      ensures (os.Snapshot(), source) == NodeSpec.LuksFormat(old(os.Snapshot()), luks, dev, faults)
    {
      var keySize := Atoi(luks.keySize);
      if keySize.None? {
        return Stop(Internal);
      }
      var cipher := Cut(luks.cipher);
      if cipher.None? {
        return Stop(Panicked); // index out of range
      }
      if At(faults, CryptInit) != Fine {
        return Stop(Internal);
      }
      var formatted := os.CryptFormat(dev, At(faults, CryptFormat));
      if !formatted {
        return Stop(Internal);
      }
      var added := os.KeyslotAddByVolumeKey(dev, luks.key, At(faults, KeyslotAdd));
      if !added {
        return Stop(Internal);
      }
      var activated := os.ActivateByPassphrase(luks.volumeName, dev, luks.key, At(faults, Activation));
      if activated != Active {
        return Stop(Internal);
      }
      return Good(Mapper(luks.volumeName));
    }

    method LuksOpen(luks: LuksContext, dev: int, faults: FaultPlan) returns (source: Attempt<Source>)
      modifies os
      ensures (os.Snapshot(), source) == NodeSpec.LuksOpen(old(os.Snapshot()), luks, dev, faults)
    {
      if At(faults, CryptInit) != Fine {
        return Stop(Internal);
      }
      if At(faults, CryptLoad) != Fine || !os.Snapshot().On(dev).Luks? {
        return Stop(Internal);
      }
      var activated := os.ActivateByPassphrase(luks.volumeName, dev, luks.key, At(faults, Activation));
      if activated != Active {
        if activated == NameTaken {
          return Good(Mapper(luks.volumeName));
        }
        return Stop(Internal);
      }
      return Good(Mapper(luks.volumeName));
    }

    method LuksClose(name: string, faults: FaultPlan) returns (ok: bool)
      modifies os
      ensures (os.Snapshot(), ok) == NodeSpec.LuksClose(old(os.Snapshot()), name, faults)
    {
      if At(faults, InitByName) == Fine && name in os.mappers {
        var deactivated := os.Deactivate(name, At(faults, Deactivation));
        if !deactivated {
          return false;
        }
        if At(faults, Freeing) != Fine {
          return false;
        }
        return true;
      }
      return true;
    }

    method FormatLuksVolume(luks: LuksContext, dev: int, faults: FaultPlan) returns (source: Attempt<Source>)
      requires luks.enabled
      modifies os
      ensures (os.Snapshot(), source) == NodeSpec.FormatLuksVolume(old(os.Snapshot()), luks, dev, faults)
    {
      var formatted := BlkidValid(dev, faults);
      if formatted.Stop? {
        return Stop(Internal);
      }
      var err := Validate(luks);
      if err != [] {
        return Stop(Internal);
      }
      if !formatted.value {
        source := LuksFormat(luks, dev, faults);
      } else {
        source := LuksOpen(luks, dev, faults);
      }
    }

    method MountVolume(dev: int, req: StageRequest, access: Access, faults: FaultPlan) returns (reply: Reply)
      modifies os
      ensures (os.Snapshot(), reply) == NodeSpec.MountVolume(old(os.Snapshot()), dev, req, access, faults)
    {
      var fsType := DEFAULT_FS_TYPE;
      var options: seq<string> := [];
      if access.Filesystem? {
        if access.fsType != "" {
          fsType := access.fsType;
        }
        options := access.flags;
      }
      if fsType == "xfs" {
        options := options + ["nouuid"];
      }
      var source := Device(dev);
      var luks := LuksContextOf(req.secrets, req.volumeContext);
      if luks.enabled {
        var prepared := FormatLuksVolume(luks, dev, faults);
        if prepared.Stop? {
          return Failure(prepared.code);
        }
        source := prepared.value;
      }
      reply := os.FormatAndMount(source, req.staging, fsType, options, faults);
    }

    method NodeStageVolume(devices: Devices, req: StageRequest, faults: FaultPlan) returns (reply: Reply)
      modifies os
      ensures (os.Snapshot(), reply) == Stage(old(os.Snapshot()), devices, req, faults)
    {
      if req.volumeId == "" || req.staging == "" || req.access.None? {
        return Failure(InvalidArgument);
      }
      var key := Parse(req.volumeId);
      if key.None? {
        return Failure(Unknown);
      }
      var partition := "";
      if PARTITION in req.volumeContext {
        partition := req.volumeContext[PARTITION];
      }
      var devicePath := FindDevicePath(devices, key.value, partition, faults);
      if devicePath.Stop? {
        return Failure(devicePath.code);
      }
      var notMount := EnsureMountPoint(req.staging, faults);
      if notMount.Stop? {
        return Failure(notMount.code);
      }
      if !notMount.value {
        return Success;
      }
      if req.access.value.Block? {
        return Success;
      }
      reply := MountVolume(devices[devicePath.value], req, req.access.value, faults);
    }

    method NodeUnstageVolume(volumeId: string, staging: string, faults: FaultPlan) returns (reply: Reply)
      modifies os
      ensures (os.Snapshot(), reply) == Unstage(old(os.Snapshot()), volumeId, staging, faults)
    {
      if volumeId == "" || staging == "" {
        return Failure(InvalidArgument);
      }
      var cleaned := os.CleanupMountPoint(staging, faults);
      if !cleaned {
        return Failure(Internal);
      }
      var name := MountSource(volumeId);
      if name.None? {
        return Failure(Internal);
      }
      var closed := LuksClose(name.value, faults);
      if !closed {
        return Failure(Internal);
      }
      return Success;
    }

    method NodePublishVolume(req: PublishRequest, faults: FaultPlan) returns (reply: Reply)
      modifies os
      ensures (os.Snapshot(), reply) == Publish(old(os.Snapshot()), req, faults)
    {
      if req.volumeId == "" || req.staging == "" || req.target == "" || !req.hasCapability {
        return Failure(InvalidArgument);
      }
      var options := ["bind"];
      if req.readonly {
        options := options + ["ro"];
      }
      assert options == if req.readonly then ["bind", "ro"] else ["bind"];
      var notMount := EnsureMountPoint(req.target, faults);
      if notMount.Stop? {
        return Failure(notMount.code);
      }
      if !notMount.value {
        return Success;
      }
      if req.staging !in os.paths {
        return Failure(Internal); // nothing to bind
      }
      var source := if req.staging in os.mounts then os.mounts[req.staging].source else Directory(req.staging);
      var mounted := os.BindMount(source, req.target, options, At(faults, Mounting));
      if !mounted {
        return Failure(Internal);
      }
      return Success;
    }

    method NodeUnpublishVolume(volumeId: string, target: string, faults: FaultPlan) returns (reply: Reply)
      modifies os
      ensures (os.Snapshot(), reply) == Unpublish(old(os.Snapshot()), volumeId, target, faults)
    {
      if volumeId == "" || target == "" {
        return Failure(InvalidArgument);
      }
      var cleaned := os.CleanupMountPoint(target, faults);
      if !cleaned {
        return Failure(Internal);
      }
      return Success;
    }

    // From the node's own metadata and a listing of the instance's disks.
    method NodeGetInfo(id: int, memoryMB: int, region: string, disks: nat, fault: Fault) returns (info: Attempt<NodeInfo>)
      ensures info == if fault != Fine then Stop(Internal) else Good(InfoOf(id, memoryMB, region, disks))
    {
      if fault != Fine {
        return Stop(Internal);
      }
      var memory := Limits.MemoryToBytes(memoryMB);
      var maxVolumes := Limits.MaxVolumeAttachments(memory) - disks;
      return Good(NodeInfo(Itoa(id), maxVolumes, map[TOPOLOGY_REGION := region]));
    }
  }
}
