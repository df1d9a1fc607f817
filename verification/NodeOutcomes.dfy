/**
 What each node RPC answers and leaves behind, exactly, without faults and under any. The
 conditions are said in terms of the request, the devices and the host.
 */
module NodeOutcomes {
  import opened GoText
  import opened Faults
  import opened VolumeKeys
  import opened LuksContexts
  import opened NodeSpec
  import opened NodeRuns
  import opened NodeRetry
  import DevicePaths

  // The file system and the options a mount request stands for.
  function TypeAsked(fsType: string): string {
    if fsType == "" then "ext4" else fsType
  }

  function OptionsAsked(fsType: string, flags: seq<string>): seq<string> {
    flags + if fsType == "xfs" then ["nouuid"] else []
  }

  lemma AskedExactly(fsType: string, flags: seq<string>)
    ensures FsType(Filesystem(fsType, flags)) == TypeAsked(fsType)
    ensures MountOptions(Filesystem(fsType, flags)) == OptionsAsked(fsType, flags)
  {
  }

  // ----- NodeStageVolume: the device

  // The device behind the first of the label's two paths that is present, under the
  // partition the volume context names.
  ghost predicate Sought(devices: Devices, req: StageRequest, dev: int) {
    && Parse(req.volumeId).Some?
    && var text := Take(Parse(req.volumeId).value.volumeLabel, 32);
      var paths := DevicePaths.ByIdPaths(text, Lookup(req.volumeContext, "partition"));
      if paths[0] in devices then dev == devices[paths[0]] else paths[1] in devices && dev == devices[paths[1]]
  }

  ghost predicate SearchFine(devices: Devices, req: StageRequest, faults: FaultPlan)
    requires Parse(req.volumeId).Some?
  {
    var text := Take(Parse(req.volumeId).value.volumeLabel, 32);
    var paths := DevicePaths.ByIdPaths(text, Lookup(req.volumeContext, "partition"));
    && At(faults, StatDevice(paths[0])) == Fine
    && (paths[0] !in devices ==> At(faults, StatDevice(paths[1])) == Fine)
  }

  ghost predicate WellFormed(req: StageRequest) {
    req.volumeId != "" && req.staging != "" && req.access.Some?
  }

  lemma TwoPaths(paths: seq<string>, stat: string -> DevicePaths.Stat)
    requires |paths| == 2
    ensures DevicePaths.FirstExisting(paths, stat) ==
      match stat(paths[0])
      case Unreadable => DevicePaths.SearchFailed
      case Present => DevicePaths.Found(paths[0])
      case Missing =>
        match stat(paths[1])
        case Unreadable => DevicePaths.SearchFailed
        case Present => DevicePaths.Found(paths[1])
        case Missing => DevicePaths.NoneExists
  {
    var rest := paths[1..];
    assert rest == [paths[1]] && rest[1..] == [];
    assert DevicePaths.FirstExisting(rest[1..], stat) == DevicePaths.NoneExists;
    assert stat(paths[0]) == DevicePaths.Missing ==>
      DevicePaths.FirstExisting(paths, stat) == DevicePaths.FirstExisting(rest, stat);
  }

  lemma TargetExactly(devices: Devices, req: StageRequest, faults: FaultPlan, dev: int)
    ensures StageTarget(devices, req, faults) == Good(dev) <==>
      WellFormed(req) && Sought(devices, req, dev) && SearchFine(devices, req, faults)
    ensures !WellFormed(req) ==> StageTarget(devices, req, faults) == Stop(InvalidArgument)
    ensures WellFormed(req) && Parse(req.volumeId).None? ==> StageTarget(devices, req, faults) == Stop(Unknown)
    ensures WellFormed(req) && Parse(req.volumeId).Some? && StageTarget(devices, req, faults).Stop? ==>
      StageTarget(devices, req, faults) == Stop(Internal)
  {
    if Parse(req.volumeId).Some? {
      var key := Parse(req.volumeId).value;
      TwoPaths(DevicePaths.ByIdPaths(key.NormalizedLabel(), Partition(req)), StatOf(devices, faults));
    }
  }

  // A request that is malformed, or whose device is not there, changes nothing.
  lemma StageRefusesExactly(h: Host, devices: Devices, req: StageRequest)
    ensures !WellFormed(req) ==> Stage(h, devices, req, NO_FAULTS) == (h, Failure(InvalidArgument))
    ensures WellFormed(req) && Parse(req.volumeId).None? ==> Stage(h, devices, req, NO_FAULTS) == (h, Failure(Unknown))
    ensures WellFormed(req) && Parse(req.volumeId).Some? && (forall dev :: !Sought(devices, req, dev)) ==>
      Stage(h, devices, req, NO_FAULTS) == (h, Failure(Internal))
  {
    match StageTarget(devices, req, NO_FAULTS)
    case Good(dev) => TargetExactly(devices, req, NO_FAULTS, dev);
    case Stop(_) => TargetExactly(devices, req, NO_FAULTS, 0);
  }

  // ----- NodeStageVolume: the mount

  // A staging path that is mounted already is taken as it is; block access makes the path
  // and nothing else.
  lemma StageWithoutMounting(h: Host, devices: Devices, req: StageRequest, dev: int)
    requires Sound(h) && WellFormed(req) && Sought(devices, req, dev)
    ensures req.staging in h.mounts ==> Stage(h, devices, req, NO_FAULTS) == (h, Success)
    ensures req.staging !in h.mounts && req.access.value.Block? ==>
      Stage(h, devices, req, NO_FAULTS) == (WithPath(h, req.staging), Success)
  {
    TargetExactly(devices, req, NO_FAULTS, dev);
    CleanStageDevice(h, dev, req, req.access.value);
  }

  // What a successful stage of an unmounted path mounts, under any faults: a file system of
  // the type asked for, ext4 if none is, with the flags asked for and nouuid exactly on xfs.
  lemma StagedAsAsked(h: Host, devices: Devices, req: StageRequest, fsType: string, flags: seq<string>, faults: FaultPlan)
    requires Sound(h) && req.staging !in h.mounts && req.access == Some(Filesystem(fsType, flags))
    ensures var (h', reply) := Stage(h, devices, req, faults);
      reply.Success? ==>
        && req.staging in h'.mounts
        && var mount := h'.mounts[req.staging];
        && mount.fsType == TypeAsked(fsType)
        && mount.options == OptionsAsked(TypeAsked(fsType), flags)
        && Exposed(h', mount.source) == Some(Formatted(TypeAsked(fsType)))
  {
    AskedExactly(fsType, flags);
    if Stage(h, devices, req, faults).1.Success? {
      SuccessfulStage(h, devices, req, faults);
      var dev := Target(devices, req).value;
      MountedAsAsked(WithPath(h, req.staging), dev, req, req.access.value, faults);
    }
  }

  lemma MountedAsAsked(h: Host, dev: int, req: StageRequest, access: Access, faults: FaultPlan)
    requires MountVolume(h, dev, req, access, faults).1.Success?
    ensures var h' := MountVolume(h, dev, req, access, faults).0;
      && req.staging in h'.mounts
      && h'.mounts[req.staging].fsType == FsType(access) && h'.mounts[req.staging].options == MountOptions(access)
      && Exposed(h', h'.mounts[req.staging].source) == Some(Formatted(FsType(access)))
  {
    var luks := LuksContextOf(req.secrets, req.volumeContext);
    var (h1, source) := if luks.enabled then FormatLuksVolume(h, luks, dev, faults) else (h, Good(Device(dev)));
    FormattedAsAsked(h1, source.value, req.staging, FsType(access), MountOptions(access), faults);
  }

  lemma FormattedAsAsked(
    h: Host, source: Source, target: string, fsType: string, options: seq<string>, faults: FaultPlan)
    requires FormatAndMount(h, source, target, fsType, options, faults).1.Success?
    ensures var h' := FormatAndMount(h, source, target, fsType, options, faults).0;
      && target in h'.mounts && h'.mounts[target] == Mount(source, fsType, options)
      && Exposed(h', source) == Some(Formatted(fsType))
  {
    FormatAndMountShape(h, source, target, fsType, options, faults);
  }

  // The data behind a source once it is ready takes a mount exactly when it is empty, and
  // then gets a file system, or already has one of the type asked for.
  lemma FormatAndMountExactly(
    h: Host, source: Source, target: string, fsType: string, options: seq<string>, faults: FaultPlan)
    ensures FormatAndMount(h, source, target, fsType, options, faults).1.Success? <==>
      && Exposed(h, source) in {Some(Empty), Some(Formatted(fsType))}
      && (Exposed(h, source) == Some(Empty) ==> At(faults, Mkfs) == Fine)
      && At(faults, Mounting) == Fine
  {
    if Exposed(h, source) == Some(Empty) {
      MkfsedKeeps(h, source, fsType);
    }
  }

  // Without encryption a stage succeeds exactly when the device is blank or carries a plain
  // file system of the type asked for, and every call goes through.
  lemma PlainStageExactly(
    h: Host, devices: Devices, req: StageRequest, dev: int, fsType: string, flags: seq<string>, faults: FaultPlan)
    requires Sound(h) && WellFormed(req) && Sought(devices, req, dev)
    requires req.access == Some(Filesystem(fsType, flags)) && !AsksForLuks(req) && req.staging !in h.mounts
    ensures var kind := TypeAsked(fsType);
      Stage(h, devices, req, faults).1.Success? <==>
        && h.On(dev) in {Clear(Empty), Clear(Formatted(kind))}
        && SearchFine(devices, req, faults) && ReachesDevice(h, req.staging, faults)
        && (h.On(dev) == Clear(Empty) ==> At(faults, Mkfs) == Fine) && At(faults, Mounting) == Fine
  {
    var ready := WithPath(h, req.staging);
    AskedExactly(fsType, flags);
    StageOfSought(h, devices, req, dev, faults);
    assert ready.On(dev) == h.On(dev);
    PlainMountExactly(ready, dev, req, req.access.value, faults);
  }

  lemma PlainMountExactly(h: Host, dev: int, req: StageRequest, access: Access, faults: FaultPlan)
    requires !AsksForLuks(req)
    ensures MountVolume(h, dev, req, access, faults).1.Success? <==>
      && h.On(dev) in {Clear(Empty), Clear(Formatted(FsType(access)))}
      && (h.On(dev) == Clear(Empty) ==> At(faults, Mkfs) == Fine) && At(faults, Mounting) == Fine
  {
    FormatAndMountExactly(h, Device(dev), req.staging, FsType(access), MountOptions(access), faults);
  }

  // The host it leaves without faults: only a blank device is written to, and a failure
  // leaves no more than the path.
  lemma CleanPlainStageExactly(
    h: Host, devices: Devices, req: StageRequest, dev: int, fsType: string, flags: seq<string>)
    requires Sound(h) && WellFormed(req) && Sought(devices, req, dev)
    requires req.access == Some(Filesystem(fsType, flags)) && !AsksForLuks(req) && req.staging !in h.mounts
    ensures var kind, ready := TypeAsked(fsType), WithPath(h, req.staging);
      var mount := Mount(Device(dev), kind, OptionsAsked(kind, flags));
      Stage(h, devices, req, NO_FAULTS) ==
        if h.On(dev) == Clear(Empty) then
          (ready.(disks := h.disks[dev := Clear(Formatted(kind))], mounts := h.mounts[req.staging := mount]), Success)
        else if h.On(dev) == Clear(Formatted(kind)) then (ready.(mounts := h.mounts[req.staging := mount]), Success)
        else (ready, Failure(Internal))
  {
    AskedExactly(fsType, flags);
    StageOfSought(h, devices, req, dev, NO_FAULTS);
    assert WithPath(h, req.staging).On(dev) == h.On(dev);
    CleanPlainMountExactly(WithPath(h, req.staging), dev, req, req.access.value);
  }

  lemma CleanPlainMountExactly(h: Host, dev: int, req: StageRequest, access: Access)
    requires !AsksForLuks(req)
    ensures var kind := FsType(access); var mount := Mount(Device(dev), kind, MountOptions(access));
      MountVolume(h, dev, req, access, NO_FAULTS) ==
        if h.On(dev) == Clear(Empty) then
          (h.(disks := h.disks[dev := Clear(Formatted(kind))], mounts := h.mounts[req.staging := mount]), Success)
        else if h.On(dev) == Clear(Formatted(kind)) then (h.(mounts := h.mounts[req.staging := mount]), Success)
        else (h, Failure(Internal))
  {
    FormatAndMountShape(h, Device(dev), req.staging, FsType(access), MountOptions(access), NO_FAULTS);
    FormatAndMountExactly(h, Device(dev), req.staging, FsType(access), MountOptions(access), NO_FAULTS);
    if h.On(dev) !in {Clear(Empty), Clear(Formatted(FsType(access)))} {
      assert Exposed(h, Device(dev)) != Some(Empty);
    }
  }

  lemma StageOfSought(h: Host, devices: Devices, req: StageRequest, dev: int, faults: FaultPlan)
    requires Sound(h) && WellFormed(req) && Sought(devices, req, dev)
    requires req.access.value.Filesystem? && req.staging !in h.mounts
    ensures SearchFine(devices, req, faults) && ReachesDevice(h, req.staging, faults) ==>
      Stage(h, devices, req, faults) == MountVolume(WithPath(h, req.staging), dev, req, req.access.value, faults)
    ensures !(SearchFine(devices, req, faults) && ReachesDevice(h, req.staging, faults)) ==>
      Stage(h, devices, req, faults).1 == Failure(Internal)
  {
    TargetExactly(devices, req, faults, dev);
    ReachedDevice(h, dev, req, req.access.value, faults);
    if SearchFine(devices, req, faults) && !ReachesDevice(h, req.staging, faults) {
      NotReached(h, dev, req, req.access.value, faults);
    }
  }

  lemma NotReached(h: Host, dev: int, req: StageRequest, access: Access, faults: FaultPlan)
    requires req.staging !in h.mounts && !ReachesDevice(h, req.staging, faults)
    ensures StageDevice(h, dev, req, access, faults).1 == Failure(Internal)
  {
  }

  // ----- NodeStageVolume with encryption

  // The device whose data a LUKS stage ends up mounting.
  ghost function DataDevice(h: Host, luks: LuksContext, dev: int): int {
    if h.On(dev) != BLANK && luks.volumeName in h.mappers then h.mappers[luks.volumeName] else dev
  }

  // A device luksFormat or luksOpen makes a source of.
  ghost predicate Opens(h: Host, luks: LuksContext, dev: int) {
    && luks.volumeName != "" && luks.key != "" && luks.cipher != "" && luks.keySize != ""
    && if h.On(dev) == BLANK then Atoi(luks.keySize).Some? && '-' in luks.cipher && luks.volumeName !in h.mappers
       else h.On(dev).Luks? && (luks.volumeName in h.mappers || h.On(dev).key == Some(luks.key))
  }

  ghost predicate OpeningFine(h: Host, dev: int, faults: FaultPlan) {
    && At(faults, Blkid) == Fine && At(faults, CryptInit) == Fine && At(faults, Activation) == Fine
    && if h.On(dev) == BLANK then At(faults, CryptFormat) == Fine && At(faults, KeyslotAdd) == Fine
       else At(faults, CryptLoad) == Fine
  }

  lemma OpensExactly(h: Host, luks: LuksContext, dev: int, faults: FaultPlan)
    requires luks.enabled && (luks.volumeName in h.mappers ==> h.On(h.mappers[luks.volumeName]).Luks?)
    ensures FormatLuksVolume(h, luks, dev, faults).1.Good? <==> Opens(h, luks, dev) && OpeningFine(h, dev, faults)
    ensures FormatLuksVolume(h, luks, dev, faults).1.Good? ==>
      var (h1, source) := FormatLuksVolume(h, luks, dev, faults);
      Exposed(h1, source.value) == Some(h.On(DataDevice(h, luks, dev)).plain)
  {
    if h.On(dev) == BLANK {
      FormatsExactly(h, luks, dev, faults);
    } else {
      LoadsExactly(h, luks, dev, faults);
    }
  }

  lemma FormatsExactly(h: Host, luks: LuksContext, dev: int, faults: FaultPlan)
    requires luks.enabled && h.On(dev) == BLANK
    ensures FormatLuksVolume(h, luks, dev, faults).1.Good? <==> Opens(h, luks, dev) && OpeningFine(h, dev, faults)
    ensures FormatLuksVolume(h, luks, dev, faults).1.Good? ==>
      var (h1, source) := FormatLuksVolume(h, luks, dev, faults);
      Exposed(h1, source.value) == Some(Empty)
  {
    KeyAddedIsHeader(h, dev, luks.key);
    assert WithHeader(h, dev, Some(luks.key)).On(dev) == Luks(Some(luks.key), Empty);
    if FormatLuksVolume(h, luks, dev, faults).1.Good? {
      LuksFormatShape(h, luks, dev, faults);
      FreshMapperExposes(h, luks.volumeName, dev, luks.key);
    }
  }

  lemma FreshMapperExposes(h: Host, name: string, dev: int, key: string)
    ensures Exposed(WithMapper(WithHeader(h, dev, Some(key)), name, dev), Mapper(name)) == Some(Empty)
  {
    assert WithMapper(WithHeader(h, dev, Some(key)), name, dev).On(dev) == Luks(Some(key), Empty);
  }

  lemma LoadsExactly(h: Host, luks: LuksContext, dev: int, faults: FaultPlan)
    requires luks.enabled && h.On(dev) != BLANK && (luks.volumeName in h.mappers ==> h.On(h.mappers[luks.volumeName]).Luks?)
    ensures FormatLuksVolume(h, luks, dev, faults).1.Good? <==> Opens(h, luks, dev) && OpeningFine(h, dev, faults)
    ensures FormatLuksVolume(h, luks, dev, faults).1.Good? ==>
      var (h1, source) := FormatLuksVolume(h, luks, dev, faults);
      Exposed(h1, source.value) == Some(h.On(DataDevice(h, luks, dev)).plain)
  {
    LuksOpenShape(h, luks, dev, faults);
    if luks.volumeName !in h.mappers {
      assert WithMapper(h, luks.volumeName, dev).On(dev) == h.On(dev);
    }
  }

  // With encryption a stage succeeds exactly when the settings are complete; a blank device
  // has usable settings and a free mapper name, or another is a LUKS device the key or an
  // open mapper of the name gives access to; the data behind it is empty or of the type
  // asked for; and every call goes through.
  lemma LuksStageExactly(
    h: Host, devices: Devices, req: StageRequest, dev: int, fsType: string, flags: seq<string>, faults: FaultPlan)
    requires Sound(h) && WellFormed(req) && Sought(devices, req, dev)
    requires req.access == Some(Filesystem(fsType, flags)) && AsksForLuks(req) && req.staging !in h.mounts
    ensures var luks := LuksContextOf(req.secrets, req.volumeContext);
      var plain := h.On(DataDevice(h, luks, dev)).plain;
      Stage(h, devices, req, faults).1.Success? <==>
        && Opens(h, luks, dev) && plain in {Empty, Formatted(TypeAsked(fsType))}
        && SearchFine(devices, req, faults) && ReachesDevice(h, req.staging, faults) && OpeningFine(h, dev, faults)
        && (plain == Empty ==> At(faults, Mkfs) == Fine) && At(faults, Mounting) == Fine
  {
    var luks, ready := LuksContextOf(req.secrets, req.volumeContext), WithPath(h, req.staging);
    AskedExactly(fsType, flags);
    StageOfSought(h, devices, req, dev, faults);
    LuksMountExactly(ready, dev, req, req.access.value, faults);
    forall d
      ensures ready.On(d) == h.On(d)
    {
    }
  }

  lemma LuksMountExactly(h: Host, dev: int, req: StageRequest, access: Access, faults: FaultPlan)
    requires AsksForLuks(req) && (MapperName(req) in h.mappers ==> h.On(h.mappers[MapperName(req)]).Luks?)
    ensures var luks := LuksContextOf(req.secrets, req.volumeContext);
      var plain := h.On(DataDevice(h, luks, dev)).plain;
      MountVolume(h, dev, req, access, faults).1.Success? <==>
        && Opens(h, luks, dev) && plain in {Empty, Formatted(FsType(access))} && OpeningFine(h, dev, faults)
        && (plain == Empty ==> At(faults, Mkfs) == Fine) && At(faults, Mounting) == Fine
  {
    var luks := LuksContextOf(req.secrets, req.volumeContext);
    OpensExactly(h, luks, dev, faults);
    var (h1, source) := FormatLuksVolume(h, luks, dev, faults);
    if source.Good? {
      FormatAndMountExactly(h1, source.value, req.staging, FsType(access), MountOptions(access), faults);
    }
  }

  // ----- NodeUnstageVolume

  ghost predicate CleanupFine(h: Host, path: string, faults: FaultPlan) {
    && At(faults, MountCheck) == Fine
    && (path in h.mounts ==> At(faults, Unmounting) == Fine)
    && (path in h.paths ==> At(faults, Removal) == Fine)
  }

  // A mount other than the staging path's rests on the mapper.
  ghost predicate InUseElsewhere(h: Host, name: string, staging: string) {
    exists path :: path in h.mounts && path != staging && h.mounts[path].source == Mapper(name)
  }

  function CleanedUp(h: Host, path: string): Host {
    h.(mounts := h.mounts - {path}, paths := h.paths - {path})
  }

  lemma CleanupExactly(h: Host, path: string, faults: FaultPlan)
    requires Sound(h)
    ensures Cleanup(h, path, faults).1 <==> CleanupFine(h, path, faults)
    ensures CleanupFine(h, path, faults) ==> Cleanup(h, path, faults).0 == CleanedUp(h, path)
  {
    assert path !in h.mounts ==> h.mounts - {path} == h.mounts;
    assert path !in h.paths ==> h.paths - {path} == h.paths;
  }

  // An unstage succeeds exactly when its ids are given, the id holds a '-', nothing else
  // uses the mapper of its label, and every call that matters goes through; a failed lookup
  // of the mapper does not matter.
  lemma UnstageExactly(h: Host, volumeId: string, staging: string, faults: FaultPlan)
    requires Sound(h)
    ensures Unstage(h, volumeId, staging, faults).1.Success? <==>
      && volumeId != "" && staging != "" && CleanupFine(h, staging, faults) && MountSource(volumeId).Some?
      && var name := MountSource(volumeId).value;
        (name in h.mappers && At(faults, InitByName) == Fine ==>
          && !InUseElsewhere(h, name, staging)
          && At(faults, Deactivation) == Fine && At(faults, Freeing) == Fine)
  {
    CleanupExactly(h, staging, faults);
    if CleanupFine(h, staging, faults) && MountSource(volumeId).Some? {
      BusyElsewhere(h, MountSource(volumeId).value, staging);
    }
  }

  lemma BusyElsewhere(h: Host, name: string, staging: string)
    ensures CleanedUp(h, staging).Busy(name) <==> InUseElsewhere(h, name, staging)
  {
    if InUseElsewhere(h, name, staging) {
      var path :| path in h.mounts && path != staging && h.mounts[path].source == Mapper(name);
      assert path in CleanedUp(h, staging).mounts;
    }
  }

  // Without faults, the host and the answer.
  lemma CleanUnstageExactly(h: Host, volumeId: string, staging: string)
    requires Sound(h)
    ensures volumeId == "" || staging == "" ==> Unstage(h, volumeId, staging, NO_FAULTS) == (h, Failure(InvalidArgument))
    ensures volumeId != "" && staging != "" && '-' !in volumeId ==>
      Unstage(h, volumeId, staging, NO_FAULTS) == (CleanedUp(h, staging), Failure(Internal))
    ensures volumeId != "" && staging != "" && '-' in volumeId ==>
      var name := MountSource(volumeId).value;
      Unstage(h, volumeId, staging, NO_FAULTS) ==
        if name in h.mappers && InUseElsewhere(h, name, staging) then (CleanedUp(h, staging), Failure(Internal))
        else (CleanedUp(h, staging).(mappers := h.mappers - {name}), Success)
  {
    CleanupExactly(h, staging, NO_FAULTS);
    MountSourceAgrees(volumeId);
    if '-' in volumeId {
      var name := MountSource(volumeId).value;
      BusyElsewhere(h, name, staging);
      assert name !in h.mappers ==> h.mappers - {name} == h.mappers;
    }
  }

  // ----- NodePublishVolume and NodeUnpublishVolume

  ghost predicate WellFormedPublish(req: PublishRequest) {
    req.volumeId != "" && req.staging != "" && req.target != "" && req.hasCapability
  }

  // A publish binds the staging path to its target, read-only exactly when asked; a target
  // that is mounted already is taken as it is, and a staging path that is not there fails.
  lemma PublishExactly(h: Host, req: PublishRequest, faults: FaultPlan)
    requires Sound(h)
    ensures Publish(h, req, faults).1.Success? <==>
      && WellFormedPublish(req) && At(faults, MountCheck) == Fine
      && (req.target !in h.mounts ==>
        && (req.target in h.paths || At(faults, MakeDir) == Fine)
        && (req.staging in h.paths || req.staging == req.target)
        && At(faults, Mounting) == Fine)
    ensures var ready := WithPath(h, req.target);
      var source := if req.staging in h.mounts then h.mounts[req.staging].source else Directory(req.staging);
      var mount := Mount(source, "ext4", ["bind"] + if req.readonly then ["ro"] else []);
      Publish(h, req, NO_FAULTS) ==
        if !WellFormedPublish(req) then (h, Failure(InvalidArgument))
        else if req.target in h.mounts then (h, Success)
        else if req.staging !in h.paths && req.staging != req.target then (ready, Failure(Internal))
        else (ready.(mounts := h.mounts[req.target := mount]), Success)
  {
    assert req.target in h.paths ==> WithPath(h, req.target) == h;
    assert ["bind"] + ["ro"] == ["bind", "ro"] && ["bind"] + [] == ["bind"];
  }

  lemma UnpublishExactly(h: Host, volumeId: string, target: string, faults: FaultPlan)
    requires Sound(h)
    ensures Unpublish(h, volumeId, target, faults).1.Success? <==>
      volumeId != "" && target != "" && CleanupFine(h, target, faults)
    ensures Unpublish(h, volumeId, target, NO_FAULTS) ==
      if volumeId == "" || target == "" then (h, Failure(InvalidArgument)) else (CleanedUp(h, target), Success)
  {
    CleanupExactly(h, target, faults);
    CleanupExactly(h, target, NO_FAULTS);
  }

  // ----- Faults

  // Faults never change an answer into another one, except that an unstage whose mapper
  // lookup fails succeeds with the mapper left alone: a call either does exactly what it
  // would do without them, or fails as Internal.
  lemma FaultsOnlyFail(h: Host, op: Op, faults: FaultPlan)
    requires op.UnstageOp? ==> At(faults, InitByName) == Fine
    ensures Exec(h, NodeRuns.Call(op, faults)) == Exec(h, NodeRuns.Call(op, NO_FAULTS))
         || Exec(h, NodeRuns.Call(op, faults)).1 == Failure(Internal)
  {
    match op
    case StageOp(devices, req) => FaultsOnlyFailStage(h, devices, req, faults);
    case UnstageOp(_, _) =>
    case PublishOp(_) =>
    case UnpublishOp(_, _) =>
  }

  lemma FaultsOnlyFailStage(h: Host, devices: Devices, req: StageRequest, faults: FaultPlan)
    ensures Stage(h, devices, req, faults) == Stage(h, devices, req, NO_FAULTS)
         || Stage(h, devices, req, faults).1 == Failure(Internal)
  {
    var target := StageTarget(devices, req, faults);
    TargetWithFaults(devices, req, faults);
    TargetExactly(devices, req, faults, 0);
    TargetExactly(devices, req, NO_FAULTS, 0);
    if target.Good? {
      FaultsOnlyFailDevice(h, target.value, req, req.access.value, faults);
    }
  }

  lemma FaultsOnlyFailDevice(h: Host, dev: int, req: StageRequest, access: Access, faults: FaultPlan)
    ensures StageDevice(h, dev, req, access, faults) == StageDevice(h, dev, req, access, NO_FAULTS)
         || StageDevice(h, dev, req, access, faults).1 == Failure(Internal)
  {
    var (h1, notMount) := EnsureMountPoint(h, req.staging, faults);
    if notMount == Good(true) {
      FaultsOnlyFailMount(h1, dev, req, access, faults);
    }
  }

  lemma FaultsOnlyFailMount(h: Host, dev: int, req: StageRequest, access: Access, faults: FaultPlan)
    ensures MountVolume(h, dev, req, access, faults) == MountVolume(h, dev, req, access, NO_FAULTS)
         || MountVolume(h, dev, req, access, faults).1 == Failure(Internal)
  {
    var luks := LuksContextOf(req.secrets, req.volumeContext);
    FaultsOnlyFailLuks(h, luks, dev, faults);
    var (h1, source) := if luks.enabled then FormatLuksVolume(h, luks, dev, faults) else (h, Good(Device(dev)));
    if source.Good? {
      FaultsOnlyFailFormat(h1, source.value, req.staging, FsType(access), MountOptions(access), faults);
    }
  }

  lemma FaultsOnlyFailFormat(
    h: Host, source: Source, target: string, fsType: string, options: seq<string>, faults: FaultPlan)
    ensures FormatAndMount(h, source, target, fsType, options, faults)
              == FormatAndMount(h, source, target, fsType, options, NO_FAULTS)
         || FormatAndMount(h, source, target, fsType, options, faults).1 == Failure(Internal)
  {
  }

  lemma FaultsOnlyFailLuks(h: Host, luks: LuksContext, dev: int, faults: FaultPlan)
    ensures FormatLuksVolume(h, luks, dev, faults) == FormatLuksVolume(h, luks, dev, NO_FAULTS)
         || FormatLuksVolume(h, luks, dev, faults).1 == Stop(Internal)
  {
  }
}
