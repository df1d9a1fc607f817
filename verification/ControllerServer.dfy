/**
 The controller server: stateless between calls, it changes the cloud step by step.
 Each RPC is proved to do exactly what ControllerSpec says of it, whatever faults it
 meets on the way.
 */
module ControllerServers {
  import opened GoText
  import opened Cloud
  import opened Faults
  import opened VolumeKeys
  import opened ControllerSpec
  import Sizes
  import Limits
  import LuksContexts

  class ControllerServer {
    const client: LinodeApi
    const prefix: string
    const metadataRegion: string
    const hash: string -> nat

    constructor (client: LinodeApi, prefix: string, metadataRegion: string, hash: string -> nat)
      ensures this.client == client && this.prefix == prefix
      ensures this.metadataRegion == metadataRegion && this.hash == hash
    {
      this.client, this.prefix, this.metadataRegion, this.hash := client, prefix, metadataRegion, hash;
    }

    ghost function Cfg(): Config {
      Config(prefix, metadataRegion, hash)
    }

    method GetRequestCapacitySize(range: Option<Sizes.CapacityRange>) returns (r: Outcome<int>)
      ensures r == match Sizes.RequestedCapacity(range) case Bytes(size) => Good(size) case Refused(_) => Bad(Unknown)
    {
      if range.None? {
        return Good(Sizes.MIN_VOLUME_BYTES);
      }
      var required, limit := range.value.required, range.value.limit;
      if required == 0 && limit == 0 {
        return Bad(Unknown);
      }
      if required < 0 || limit < 0 {
        return Bad(Unknown);
      }
      if limit == 0 {
        return Good(Sizes.AdjustToMinimum(required));
      }
      if limit < Sizes.MIN_VOLUME_BYTES {
        return Bad(Unknown);
      }
      return Good(Sizes.OptimalSize(required, limit));
    }

    method ValidVolumeCapabilities(capabilities: seq<Capability>) returns (valid: bool)
      ensures valid <==> ValidCapabilities(capabilities)
    {
      for i := 0 to |capabilities|
        invariant ValidCapabilities(capabilities[..i])
      {
        match capabilities[i]
        case Nil => return false;
        case NoAccessMode => return false;
        case OtherAccessMode => return false;
        case SingleNodeWriter =>
          assert capabilities[..i + 1] == capabilities[..i] + [SingleNodeWriter];
      }
      assert capabilities[..|capabilities|] == capabilities;
      return true;
    }

    method IsEncryptionSupported(region: string, faults: FaultPlan) returns (r: Outcome<bool>)
      ensures r == match FetchRegion(client.Snapshot(), region, At(faults, RegionLookup))
                   case Err(_) => Bad(Internal)
                   case Ok(capabilities) => Good(ENCRYPTION_CAPABILITY in capabilities)
    {
      var details := client.GetRegion(region, At(faults, RegionLookup));
      if details.Err? {
        return Bad(Internal);
      }
      for i := 0 to |details.value|
        invariant ENCRYPTION_CAPABILITY !in details.value[..i]
      {
        if details.value[i] == ENCRYPTION_CAPABILITY {
          return Good(true);
        }
      }
      return Good(false);
    }

    method PrepareVolumeParams(req: CreateRequest, faults: FaultPlan) returns (r: Outcome<VolumeParams>)
      ensures r == Params(Cfg(), client.Snapshot(), req, faults)
    {
      var encryption := "disabled";
      var size := GetRequestCapacitySize(req.range);
      if size.Bad? {
        return Bad(size.code);
      }
      var region := metadataRegion;
      if req.topology.Some? {
        var topologyRegion := TopologyRegion(req.topology.value);
        if topologyRegion != "" {
          region := topologyRegion;
        }
      }
      var name := VolumeKey(0, req.name).NormalizedLabelWithPrefix(prefix);
      if Lookup(req.parameters, ENCRYPTION_PARAMETER) == LuksContexts.TRUE {
        var supported := IsEncryptionSupported(region, faults);
        if supported.Bad? {
          return Bad(supported.code);
        }
        if !supported.value {
          return Bad(Internal);
        }
        encryption := "enabled";
      }
      return Good(VolumeParams(name, Sizes.BytesToGB(size.value), size.value, encryption, region));
    }

    method GetContentSourceVolume(source: ContentSource, topology: Option<Topology>, ghost req: CreateRequest, faults: FaultPlan)
      returns (r: Outcome<Option<int>>)
      requires source == req.source && topology == req.topology
      ensures r == SourceVolume(Cfg(), client.Snapshot(), req, faults)
    {
      if source.NoSource? {
        return Good(None);
      }
      if source.FromSnapshot? {
        return Bad(InvalidArgument);
      }
      if source.FromNilVolume? {
        return Bad(InvalidArgument);
      }
      var key := Parse(source.volumeId);
      if key.None? {
        return Bad(Internal);
      }
      var volume := client.GetVolume(key.value.id, At(faults, SourceLookup));
      if volume.Err? {
        return Bad(Internal);
      }
      var requiredRegion := metadataRegion;
      if topology.Some? {
        var topologyRegion := TopologyRegion(topology.value);
        if topologyRegion != "" {
          requiredRegion := topologyRegion;
        }
      }
      if volume.value.region != requiredRegion {
        return Bad(InvalidArgument);
      }
      return Good(Some(key.value.id));
    }

    method AttemptCreateLinodeVolume(params: VolumeParams, source: Option<int>, newId: int, faults: FaultPlan)
      returns (r: Outcome<int>, volume: Option<Volume>)
      modifies client
      ensures (client.Snapshot(), r) == Attempt(old(client.Snapshot()), params, source, newId, faults)
      ensures r.Good? ==> volume == Some(client.volumes[r.value])
    {
      var listed := client.ListByLabel(params.name, At(faults, LabelListing));
      if listed.Err? {
        return Bad(Internal), None;
      }
      if |listed.value| > 1 {
        return Bad(AlreadyExists), None;
      }
      if |listed.value| == 1 {
        var v := listed.value[0];
        assert v in listed.value;
        assert v in client.Snapshot().WithLabel(params.name);
        return Good(v), Some(client.volumes[v]);
      }
      var made: Answer<Volume>;
      if source.Some? {
        made := client.CloneVolume(newId, source.value, params.name, At(faults, Making));
      } else {
        made := client.CreateVolume(newId,
          Cloud.Created(params.name, params.targetSizeGB, params.region, params.encryption), At(faults, Making));
      }
      if made.Err? {
        return Bad(Internal), None;
      }
      return Good(newId), Some(made.value);
    }

    method CreateAndWaitForVolume(params: VolumeParams, source: Option<int>, newId: int, faults: FaultPlan)
      returns (r: Outcome<int>, volume: Option<Volume>)
      modifies client
      ensures (client.Snapshot(), r) == CreateAndWait(old(client.Snapshot()), params, source, newId, faults)
      ensures r.Good? ==> volume == Some(client.volumes[r.value])
    {
      r, volume := AttemptCreateLinodeVolume(params, source, newId, faults);
      if r.Bad? {
        return;
      }
      if volume.value.size != params.targetSizeGB && source.None? {
        return Bad(AlreadyExists), None;
      }
      var active := client.WaitForVolumeActive(r.value, At(faults, ActiveWait));
      if active.Err? {
        return Bad(Internal), None;
      }
      volume := Some(active.value);
    }

    method CreateVolume(req: CreateRequest, newId: int, faults: FaultPlan) returns (reply: Reply)
      modifies client
      ensures (client.Snapshot(), reply) == CreateEffect(Cfg(), old(client.Snapshot()), req, newId, faults)
    {
      if req.name == "" {
        return Failed(InvalidArgument);
      }
      if |req.capabilities| == 0 {
        return Failed(InvalidArgument);
      }
      var valid := ValidVolumeCapabilities(req.capabilities);
      if !valid {
        return Failed(InvalidArgument);
      }
      var params := PrepareVolumeParams(req, faults);
      if params.Bad? {
        return Failed(params.code);
      }
      var source := GetContentSourceVolume(req.source, req.topology, req, faults);
      if source.Bad? {
        return Failed(source.code);
      }
      var made, volume := CreateAndWaitForVolume(params.value, source.value, newId, faults);
      if made.Bad? {
        return Failed(made.code);
      }
      var volumeContext := LuksContexts.CreateVolumeContext(req.name, req.parameters, volume.value.region);
      var contentSource := None;
      if source.value.Some? {
        contentSource := Some(req.source.volumeId);
      }
      return Created(CreateResponse(
        VolumeKey(made.value, volume.value.volumeLabel).Print(),
        params.value.size, volume.value.region, volumeContext, contentSource));
    }

    method DeleteVolume(volumeId: string, faults: FaultPlan) returns (reply: Reply)
      modifies client
      ensures (client.Snapshot(), reply) == DeleteEffect(Cfg(), old(client.Snapshot()), volumeId, faults)
    {
      var id := DecodeVolume(hash, volumeId);
      if id.None? {
        return Failed(InvalidArgument);
      }
      var volume := client.GetVolume(id.value, At(faults, VolumeLookup));
      if volume.Err? && volume.error == Absent {
        return Deleted;
      } else if volume.Err? {
        return Failed(Internal);
      }
      if volume.value.node.Some? {
        return Failed(FailedPrecondition);
      }
      var deleted := client.DeleteVolume(id.value, At(faults, Deletion));
      if deleted.Err? {
        return Failed(Internal);
      }
      return Deleted;
    }

    method MaxAllowedVolumeAttachments(instance: Instance, fault: Fault) returns (r: Outcome<int>)
      ensures r == if fault == Fine then Good(Limits.EnforcedLimit(instance.memory, instance.disks)) else Bad(Internal)
    {
      if fault != Fine {
        return Bad(Internal);
      }
      var memoryBytes := Limits.ShiftedMemory(instance.memory);
      return Good(Limits.MaxVolumeAttachments(memoryBytes) - instance.disks);
    }

    method CanAttach(n: int, instance: Instance, faults: FaultPlan) returns (r: Outcome<bool>)
      requires n in client.instances && client.instances[n] == instance
      ensures r == if At(faults, DiskListing) != Fine || At(faults, AttachedListing) != Fine then Bad(Internal)
                   else Good(HasRoom(client.Snapshot(), n))
    {
      var limit := MaxAllowedVolumeAttachments(instance, At(faults, DiskListing));
      if limit.Bad? {
        return Bad(limit.code);
      }
      var volumes := client.ListInstanceVolumes(n, At(faults, AttachedListing));
      if volumes.Err? {
        return Bad(Internal);
      }
      return Good(|volumes.value| < limit.value);
    }

    method CheckAttachmentCapacity(n: int, instance: Instance, faults: FaultPlan) returns (refusal: Option<Code>)
      requires n in client.instances && client.instances[n] == instance
      ensures refusal == if At(faults, DiskListing) != Fine || At(faults, AttachedListing) != Fine then Some(Internal)
                         else if HasRoom(client.Snapshot(), n) then None
                         else Some(ResourceExhausted)
    {
      var room := CanAttach(n, instance, faults);
      if room.Bad? {
        return Some(room.code);
      }
      if !room.value {
        var limit := MaxAllowedVolumeAttachments(instance, At(faults, SecondDiskListing));
        // with or without the limit in its message, the error carries the same code
        if limit.Bad? {
          return Some(ResourceExhausted);
        }
        return Some(ResourceExhausted);
      }
      return None;
    }

    // getAndValidateVolume: the device path of a volume already on the instance, or "".
    method GetAndValidateVolume(v: int, n: int, faults: FaultPlan) returns (r: Outcome<string>)
      ensures r == match Fetch(client.volumes, v, At(faults, VolumeLookup))
                   case Err(error) => Bad(if error == Absent then NotFound else Internal)
                   case Ok(volume) =>
                     if volume.node.None? then Good("")
                     else if volume.node.value == n then Good(volume.path)
                     else Bad(AlreadyExists)
    {
      var volume := client.GetVolume(v, At(faults, VolumeLookup));
      if volume.Err? && volume.error == Absent {
        return Bad(NotFound);
      } else if volume.Err? {
        return Bad(Internal);
      }
      if volume.value.node.Some? {
        if volume.value.node.value == n {
          return Good(volume.value.path);
        }
        return Bad(AlreadyExists);
      }
      return Good("");
    }

    method ControllerPublishVolume(volumeId: string, nodeId: string, capability: Capability, faults: FaultPlan)
      returns (reply: Reply)
      modifies client
      ensures (client.Snapshot(), reply)
        == PublishEffect(Cfg(), old(client.Snapshot()), volumeId, nodeId, capability, faults)
    {
      var node := DecodeNode(hash, nodeId);
      if node.None? {
        return Failed(InvalidArgument);
      }
      var id := DecodeVolume(hash, volumeId);
      if id.None? {
        return Failed(InvalidArgument);
      }
      if capability.Nil? {
        return Failed(InvalidArgument);
      }
      var valid := ValidVolumeCapabilities([capability]);
      if !valid {
        assert [capability][0] != SingleNodeWriter;
        return Failed(InvalidArgument);
      }
      assert [capability][0] == SingleNodeWriter;
      var v, n := id.value, node.value;
      var instance := client.GetInstance(n, At(faults, InstanceLookup));
      if instance.Err? && instance.error == Absent {
        return Failed(NotFound);
      } else if instance.Err? {
        return Failed(Internal);
      }
      var devicePath := GetAndValidateVolume(v, n, faults);
      if devicePath.Bad? {
        return Failed(devicePath.code);
      }
      if devicePath.value != "" {
        return Published(devicePath.value);
      }
      var refusal := CheckAttachmentCapacity(n, instance.value, faults);
      if refusal.Some? {
        return Failed(refusal.value);
      }
      var attached := client.AttachVolume(v, n, At(faults, Attaching));
      if attached.Err? {
        var code := Internal;
        if attached.error == Cloud.AlreadyAttached {
          code := Unavailable;
        }
        return Failed(code);
      }
      var volume := client.WaitForVolumeNode(v, Some(n), At(faults, AttachedWait));
      if volume.Err? {
        return Failed(Unknown);
      }
      return Published(volume.value.path);
    }

    method ControllerUnpublishVolume(volumeId: string, nodeId: string, faults: FaultPlan) returns (reply: Reply)
      modifies client
      ensures (client.Snapshot(), reply) == UnpublishEffect(Cfg(), old(client.Snapshot()), volumeId, nodeId, faults)
    {
      var id := DecodeVolume(hash, volumeId);
      if id.None? {
        return Failed(InvalidArgument);
      }
      var node := DecodeNode(hash, nodeId);
      if node.None? {
        return Failed(InvalidArgument);
      }
      var volume := client.GetVolume(id.value, At(faults, VolumeLookup));
      if volume.Err? && volume.error == Absent {
        return Unpublished;
      } else if volume.Err? {
        return Failed(Internal);
      }
      if volume.value.node.Some? && volume.value.node.value != node.value {
        return Unpublished;
      }
      var detached := client.DetachVolume(id.value, At(faults, Detaching));
      if detached.Err? && detached.error == Absent {
        return Unpublished;
      } else if detached.Err? {
        return Failed(Internal);
      }
      var gone := client.WaitForVolumeNode(id.value, None, At(faults, DetachedWait));
      if gone.Err? {
        return Failed(Internal);
      }
      return Unpublished;
    }

    method ControllerExpandVolume(volumeId: string, range: Option<Sizes.CapacityRange>, faults: FaultPlan)
      returns (reply: Reply)
      modifies client
      ensures (client.Snapshot(), reply) == ExpandEffect(Cfg(), old(client.Snapshot()), volumeId, range, faults)
    {
      var id := DecodeVolume(hash, volumeId);
      if id.None? {
        return Failed(InvalidArgument);
      }
      var size := GetRequestCapacitySize(range);
      if size.Bad? {
        return Failed(Internal);
      }
      var volume := client.GetVolume(id.value, At(faults, VolumeLookup));
      if volume.Err? {
        return Failed(Internal);
      }
      if volume.value.size > Sizes.BytesToGB(size.value) {
        return Failed(Internal);
      }
      var resized := client.ResizeVolume(id.value, Sizes.BytesToGB(size.value), At(faults, Resizing));
      if resized.Err? {
        return Failed(Internal);
      }
      var active := client.WaitForVolumeActive(id.value, At(faults, ActiveWait));
      if active.Err? {
        return Failed(Internal);
      }
      return Expanded(size.value);
    }

    // The entries of a listing, appended one by one.
    method ListEntries(volumes: seq<(int, Volume)>) returns (entries: seq<Entry>)
      ensures |entries| == |volumes|
      ensures forall i :: 0 <= i < |volumes| ==> entries[i] == EntryFor(volumes[i].0, volumes[i].1)
    {
      entries := [];
      for i := 0 to |volumes|
        invariant |entries| == i
        invariant forall k :: 0 <= k < i ==> entries[k] == EntryFor(volumes[k].0, volumes[k].1)
      {
        var (v, volume) := volumes[i];
        var publishedNodeIds := [];
        if volume.node.Some? {
          publishedNodeIds := publishedNodeIds + [Itoa(volume.node.value)];
        }
        entries := entries + [Entry(VolumeKey(v, volume.volumeLabel).Print(),
                                    Sizes.GbToBytes(volume.size), volume.region, publishedNodeIds)];
      }
    }
  }

  datatype Entry = Entry(volumeId: string, capacity: int, region: string, publishedNodeIds: seq<string>)

  function EntryFor(v: int, volume: Volume): Entry {
    Entry(VolumeKey(v, volume.volumeLabel).Print(), Sizes.GbToBytes(volume.size), volume.region,
          if volume.node.Some? then [Itoa(volume.node.value)] else [])
  }

  // A listed entry says what its volume is and where: the ids in it decode to the volume
  // and to the node it is attached to, and size and region are the volume's own.
  lemma EntryDecodes(hash: string -> nat, v: int, volume: Volume)
    requires 0 <= v <= MAX_INT
    requires volume.node.Some? ==> IsInt(volume.node.value)
    ensures var entry := EntryFor(v, volume);
      && DecodeVolume(hash, entry.volumeId) == Some(v)
      && (volume.node.None? <==> entry.publishedNodeIds == [])
      && |entry.publishedNodeIds| <= 1
      && (volume.node.Some? ==> DecodeNode(hash, entry.publishedNodeIds[0]) == volume.node)
      && entry.region == volume.region
      && (0 <= volume.size < 0x2_0000_0000 ==> entry.capacity == volume.size * Sizes.GIB)
  {
    PrintedKeyIsFixedPoint(VolumeKey(v, volume.volumeLabel), hash);
    if 0 <= volume.size < 0x2_0000_0000 {
      Sizes.GbToBytesExact(volume.size);
    }
    if volume.node.Some? {
      AtoiOfItoa(volume.node.value);
      DecimalDigitsReadBack(if volume.node.value < 0 then -volume.node.value else volume.node.value);
    }
  }
}
