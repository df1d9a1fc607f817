/**
 Retrying and undoing node operations: when a retried NodeStage ends where one clean call
 would have, when NodeUnstage undoes NodeStage, and what success of either means.
 */
module NodeRetry {
  import opened GoText
  import opened Faults
  import opened VolumeKeys
  import opened LuksContexts
  import opened NodeSpec
  import opened NodeRuns
  import DevicePaths

  // The device a failure-free attempt at a request would stage.
  function Target(devices: Devices, req: StageRequest): Option<int> {
    match StageTarget(devices, req, NO_FAULTS)
    case Stop(_) => None
    case Good(dev) => Some(dev)
  }

  ghost predicate AsksForLuks(req: StageRequest) {
    LuksContextOf(req.secrets, req.volumeContext).enabled
  }

  ghost function MapperName(req: StageRequest): string {
    LuksContextOf(req.secrets, req.volumeContext).volumeName
  }

  // A mapper that already carries the request's name belongs to the request's device.
  ghost predicate MapperIsOwn(h: Host, devices: Devices, req: StageRequest) {
    AsksForLuks(req) && Target(devices, req).Some? && MapperName(req) in h.mappers ==>
      h.mappers[MapperName(req)] == Target(devices, req).value
  }

  // The one state a retry cannot repair: the header was written, the keyslot was not.
  ghost predicate HalfFormatted(h: Host, h': Host, devices: Devices, req: StageRequest) {
    && Target(devices, req).Some?
    && h.On(Target(devices, req).value) == BLANK
    && h'.On(Target(devices, req).value) == Luks(None, Empty)
  }

  lemma SearchWithFaults(devices: Devices, key: VolumeKey, partition: string, faults: FaultPlan)
    ensures FindDevicePath(devices, key, partition, faults).Good? ==>
      FindDevicePath(devices, key, partition, NO_FAULTS) == FindDevicePath(devices, key, partition, faults)
  {
    var paths := DevicePaths.ByIdPaths(key.NormalizedLabel(), partition);
    var faulty, clean := StatOf(devices, faults), StatOf(devices, NO_FAULTS);
    assert paths[1..][1..] == [];
    assert forall path :: faulty(path) != DevicePaths.Unreadable ==> clean(path) == faulty(path);
    if faulty(paths[0]) == DevicePaths.Missing {
      assert DevicePaths.FirstExisting(paths, faulty) == DevicePaths.FirstExisting(paths[1..], faulty);
      assert DevicePaths.FirstExisting(paths, clean) == DevicePaths.FirstExisting(paths[1..], clean);
    }
  }

  // ----- FormatAndMount

  lemma RetryMount(h: Host, source: Source, target: string, fsType: string, options: seq<string>, faults: FaultPlan)
    requires target !in h.mounts
    ensures var h1, clean := FormatAndMount(h, source, target, fsType, options, faults).0,
                             FormatAndMount(h, source, target, fsType, options, NO_FAULTS);
      && (target !in h1.mounts ==> FormatAndMount(h1, source, target, fsType, options, NO_FAULTS) == clean)
      && (target in h1.mounts ==> clean == (h1, Success))
  {
    FormatAndMountShape(h, source, target, fsType, options, faults);
    if Exposed(h, source) == Some(Empty) {
      MkfsedKeeps(h, source, fsType);
    }
  }

  // ----- Preparing a LUKS source

  ghost predicate Usable(luks: LuksContext) {
    Complete(luks) && Atoi(luks.keySize).Some? && Cut(luks.cipher).Some?
  }

  lemma CleanLuksFormat(h: Host, luks: LuksContext, dev: int)
    requires h.On(dev) == BLANK && luks.volumeName !in h.mappers && Usable(luks)
    ensures FormatLuksVolume(h, luks, dev, NO_FAULTS)
      == (WithMapper(WithHeader(h, dev, Some(luks.key)), luks.volumeName, dev), Good(Mapper(luks.volumeName)))
  {
    var h1 := LuksFormatted(h, dev);
    assert h1.disks[dev := Luks(Some(luks.key), Empty)] == h.disks[dev := Luks(Some(luks.key), Empty)];
    assert KeyAdded(h1, dev, luks.key) == WithHeader(h, dev, Some(luks.key));
  }

  lemma RetryLuksFormat(h: Host, luks: LuksContext, dev: int, faults: FaultPlan)
    requires h.On(dev) == BLANK && luks.volumeName !in h.mappers
    ensures var (h1, source), clean := FormatLuksVolume(h, luks, dev, faults), FormatLuksVolume(h, luks, dev, NO_FAULTS);
      && (source.Good? ==> clean == (h1, source))
      && (h1.On(dev) != Luks(None, Empty) ==> FormatLuksVolume(h1, luks, dev, NO_FAULTS) == clean)
  {
    var h1 := FormatLuksVolume(h, luks, dev, faults).0;
    if h1 != h {
      LuksFormatShape(h, luks, dev, faults);
      CleanLuksFormat(h, luks, dev);
      CleanLuksFromHeader(h, luks, dev);
      CleanLuksFromMapper(h, luks, dev);
    }
  }

  // The two states past the keyslot: header written, and mapper open.
  lemma CleanLuksFromHeader(h: Host, luks: LuksContext, dev: int)
    requires Usable(luks) && luks.volumeName !in h.mappers
    ensures var keyed := WithHeader(h, dev, Some(luks.key));
      && keyed.On(dev) != Luks(None, Empty)
      && FormatLuksVolume(keyed, luks, dev, NO_FAULTS)
        == (WithMapper(keyed, luks.volumeName, dev), Good(Mapper(luks.volumeName)))
  {
    assert WithHeader(h, dev, Some(luks.key)).On(dev) == Luks(Some(luks.key), Empty);
  }

  lemma CleanLuksFromMapper(h: Host, luks: LuksContext, dev: int)
    requires Usable(luks)
    ensures var open := WithMapper(WithHeader(h, dev, Some(luks.key)), luks.volumeName, dev);
      && open.On(dev) != Luks(None, Empty)
      && FormatLuksVolume(open, luks, dev, NO_FAULTS) == (open, Good(Mapper(luks.volumeName)))
  {
    var open := WithMapper(WithHeader(h, dev, Some(luks.key)), luks.volumeName, dev);
    assert open.On(dev) == Luks(Some(luks.key), Empty);
  }

  lemma RetryLuksOpen(h: Host, luks: LuksContext, dev: int, faults: FaultPlan)
    requires h.On(dev) != BLANK
    requires luks.volumeName in h.mappers ==> h.mappers[luks.volumeName] == dev
    ensures var (h1, source), clean := FormatLuksVolume(h, luks, dev, faults), FormatLuksVolume(h, luks, dev, NO_FAULTS);
      && (source.Good? ==> clean == (h1, source))
      && FormatLuksVolume(h1, luks, dev, NO_FAULTS) == clean
  {
    LuksOpenShape(h, luks, dev, faults);
    assert WithMapper(h, luks.volumeName, dev).On(dev) == h.On(dev);
  }

  lemma RetryLuks(h: Host, luks: LuksContext, dev: int, faults: FaultPlan)
    requires luks.volumeName in h.mappers ==> h.mappers[luks.volumeName] == dev && h.On(dev).Luks?
    ensures var (h1, source), clean := FormatLuksVolume(h, luks, dev, faults), FormatLuksVolume(h, luks, dev, NO_FAULTS);
      && (source.Good? ==> clean == (h1, source))
      && (!(h.On(dev) == BLANK && h1.On(dev) == Luks(None, Empty)) ==> FormatLuksVolume(h1, luks, dev, NO_FAULTS) == clean)
  {
    if h.On(dev) == BLANK {
      RetryLuksFormat(h, luks, dev, faults);
    } else {
      RetryLuksOpen(h, luks, dev, faults);
    }
  }

  // Once the source is ready, preparing it again changes nothing, file system or not.
  lemma LuksReadyStaysReady(h: Host, luks: LuksContext, dev: int, fsType: string)
    requires luks.volumeName in h.mappers ==> h.mappers[luks.volumeName] == dev && h.On(dev).Luks?
    ensures var (h1, source) := FormatLuksVolume(h, luks, dev, NO_FAULTS);
      source.Good? ==>
        var h2 := Mkfsed(h1, source.value, fsType);
        FormatLuksVolume(h2, luks, dev, NO_FAULTS) == (h2, source)
  {
    if h.On(dev) == BLANK {
      LuksFormatShape(h, luks, dev, NO_FAULTS);
    } else {
      LuksOpenShape(h, luks, dev, NO_FAULTS);
    }
  }

  // ----- mountVolume

  lemma RetryMountVolume(h: Host, dev: int, req: StageRequest, access: Access, faults: FaultPlan)
    requires req.staging !in h.mounts
    requires var luks := LuksContextOf(req.secrets, req.volumeContext);
      luks.enabled && luks.volumeName in h.mappers ==> h.mappers[luks.volumeName] == dev && h.On(dev).Luks?
    ensures var h1, clean := MountVolume(h, dev, req, access, faults).0, MountVolume(h, dev, req, access, NO_FAULTS);
      && (req.staging in h1.mounts ==> clean == (h1, Success))
      && (req.staging !in h1.mounts && !(h.On(dev) == BLANK && h1.On(dev) == Luks(None, Empty)) ==>
          MountVolume(h1, dev, req, access, NO_FAULTS) == clean)
  {
    var luks := LuksContextOf(req.secrets, req.volumeContext);
    var fsType, options := FsType(access), MountOptions(access);
    if !luks.enabled {
      RetryMount(h, Device(dev), req.staging, fsType, options, faults);
    } else {
      var (h1, source) := FormatLuksVolume(h, luks, dev, faults);
      RetryLuks(h, luks, dev, faults);
      FormatLuksVolumeKeeps(h, luks, dev, faults);
      if source.Good? {
        RetryMount(h1, source.value, req.staging, fsType, options, faults);
        FormatAndMountShape(h1, source.value, req.staging, fsType, options, faults);
        LuksReadyStaysReady(h, luks, dev, fsType);
        assert FormatLuksVolume(h1, luks, dev, NO_FAULTS) == (h1, source) by {
          if h.On(dev) == BLANK {
            LuksFormatShape(h, luks, dev, faults);
          }
        }
      }
    }
  }

  // ----- NodeStageVolume

  lemma TargetWithFaults(devices: Devices, req: StageRequest, faults: FaultPlan)
    ensures StageTarget(devices, req, faults).Good? ==>
      StageTarget(devices, req, NO_FAULTS) == StageTarget(devices, req, faults)
  {
    if Parse(req.volumeId).Some? {
      SearchWithFaults(devices, Parse(req.volumeId).value, Partition(req), faults);
    }
  }

  function WithPath(h: Host, path: string): Host {
    h.(paths := h.paths + {path})
  }

  // The hosts StageDevice can leave behind.
  lemma StageDeviceShape(h: Host, dev: int, req: StageRequest, access: Access, faults: FaultPlan)
    ensures var (h', reply), ready := StageDevice(h, dev, req, access, faults), WithPath(h, req.staging);
      || h' == h
      || h' == ready
      || (access.Filesystem? && (req.staging in h.paths ==> req.staging !in h.mounts)
          && (h', reply) == MountVolume(ready, dev, req, access, faults))
  {
    assert req.staging in h.paths ==> WithPath(h, req.staging) == h;
  }

  // A failure-free stage, in closed form.
  lemma CleanStageDevice(h: Host, dev: int, req: StageRequest, access: Access)
    requires h.mounts.Keys <= h.paths
    ensures StageDevice(h, dev, req, access, NO_FAULTS) ==
      if req.staging in h.mounts then (h, Success) else Staged(WithPath(h, req.staging), dev, req, access, NO_FAULTS)
  {
    assert req.staging in h.paths ==> WithPath(h, req.staging) == h;
  }

  lemma RetryStageDevice(h: Host, dev: int, req: StageRequest, access: Access, faults: FaultPlan)
    requires Sound(h)
    requires AsksForLuks(req) && MapperName(req) in h.mappers ==> h.mappers[MapperName(req)] == dev
    ensures var h1 := StageDevice(h, dev, req, access, faults).0;
      !(h.On(dev) == BLANK && h1.On(dev) == Luks(None, Empty)) ==>
        StageDevice(h1, dev, req, access, NO_FAULTS) == StageDevice(h, dev, req, access, NO_FAULTS)
  {
    var h1, ready := StageDevice(h, dev, req, access, faults).0, WithPath(h, req.staging);
    StageDeviceShape(h, dev, req, access, faults);
    CleanStageDevice(h, dev, req, access);
    if h1 != h {
      assert WithPath(ready, req.staging) == ready;
      assert ready.On(dev) == h.On(dev);
      CleanStageDevice(ready, dev, req, access);
      if h1 != ready {
        MountVolumeKeeps(ready, dev, req, access, faults);
        assert WithPath(h1, req.staging) == h1;
        CleanStageDevice(h1, dev, req, access);
        RetryMountVolume(ready, dev, req, access, faults);
      }
    }
  }

  // How a stage attempt comes to leave a header without a keyslot, and what a clean call
  // would have made of the same host.
  lemma HowHalfFormatted(h: Host, dev: int, req: StageRequest, access: Access, faults: FaultPlan)
    requires Sound(h)
    requires AsksForLuks(req) && MapperName(req) in h.mappers ==> h.mappers[MapperName(req)] == dev
    requires h.On(dev) == BLANK
    ensures var h1 := StageDevice(h, dev, req, access, faults).0;
      h1.On(dev) == Luks(None, Empty) ==>
        && AsksForLuks(req) && access.Filesystem? && MapperName(req) !in h.mappers && req.staging !in h.mounts
        && h1 == WithHeader(WithPath(h, req.staging), dev, None)
        && StageDevice(h, dev, req, access, NO_FAULTS).1 == Success
  {
    var h1, ready := StageDevice(h, dev, req, access, faults).0, WithPath(h, req.staging);
    if h1.On(dev) == Luks(None, Empty) {
      StageDeviceShape(h, dev, req, access, faults);
      CleanStageDevice(h, dev, req, access);
      assert ready.On(dev) == h.On(dev);
      HowMountHalfFormats(ready, dev, req, access, faults);
    }
  }

  lemma HowMountHalfFormats(h: Host, dev: int, req: StageRequest, access: Access, faults: FaultPlan)
    requires h.On(dev) == BLANK
    requires AsksForLuks(req) ==> MapperName(req) !in h.mappers
    ensures var h1 := MountVolume(h, dev, req, access, faults).0;
      h1.On(dev) == Luks(None, Empty) ==>
        && AsksForLuks(req) && h1 == WithHeader(h, dev, None)
        && MountVolume(h, dev, req, access, NO_FAULTS).1 == Success
  {
    var luks := LuksContextOf(req.secrets, req.volumeContext);
    if !luks.enabled {
      MountKeepsHeader(h, Device(dev), req.staging, FsType(access), MountOptions(access), faults, dev);
    } else {
      LuksFormatEnds(h, luks, dev, faults);
      var (h1, source) := FormatLuksVolume(h, luks, dev, faults);
      if source.Good? {
        MountKeepsHeader(h1, source.value, req.staging, FsType(access), MountOptions(access), faults, dev);
      } else if h1.On(dev) == Luks(None, Empty) {
        CleanLuksStageOfBlank(h, luks, dev, req, access);
      }
    }
  }

  lemma MountKeepsHeader(
    h: Host, source: Source, target: string, fsType: string, options: seq<string>, faults: FaultPlan, dev: int)
    ensures var h' := FormatAndMount(h, source, target, fsType, options, faults).0;
      && h'.On(dev).Luks? == h.On(dev).Luks?
      && (h.On(dev).Luks? ==> h'.On(dev).key == h.On(dev).key)
  {
    FormatAndMountShape(h, source, target, fsType, options, faults);
    if Exposed(h, source) == Some(Empty) {
      MkfsedKeeps(h, source, fsType);
    }
  }

  // Formatting a blank device: with its keyslot when it succeeds, and otherwise without a
  // keyslot only after a fault.
  lemma LuksFormatEnds(h: Host, luks: LuksContext, dev: int, faults: FaultPlan)
    requires h.On(dev) == BLANK
    ensures var (h1, source) := FormatLuksVolume(h, luks, dev, faults);
      && (source.Good? ==> h1.On(dev) == Luks(Some(luks.key), Empty) && source.value == Mapper(luks.volumeName))
      && (h1.On(dev) == Luks(None, Empty) ==> h1 == WithHeader(h, dev, None) && Usable(luks))
  {
    LuksFormatShape(h, luks, dev, faults);
    assert WithHeader(h, dev, Some(luks.key)).On(dev) == Luks(Some(luks.key), Empty);
  }

  // A clean LUKS request on a blank device goes through whenever its settings can be used.
  lemma CleanLuksStageOfBlank(h: Host, luks: LuksContext, dev: int, req: StageRequest, access: Access)
    requires luks == LuksContextOf(req.secrets, req.volumeContext) && luks.enabled && Complete(luks)
    requires Atoi(luks.keySize).Some? && Cut(luks.cipher).Some?
    requires h.On(dev) == BLANK && luks.volumeName !in h.mappers
    ensures var (h', reply), name := MountVolume(h, dev, req, access, NO_FAULTS), luks.volumeName;
      && reply == Success
      && h'.mappers == h.mappers[name := dev] && h'.paths == h.paths
      && h'.mounts == h.mounts[req.staging := Mount(Mapper(name), FsType(access), MountOptions(access))]
      && h'.On(dev) == Luks(Some(luks.key), Formatted(FsType(access)))
      && forall d :: d != dev ==> h'.On(d) == h.On(d)
  {
    CleanLuksFormat(h, luks, dev);
    var open := WithMapper(WithHeader(h, dev, Some(luks.key)), luks.volumeName, dev);
    assert open.On(dev) == Luks(Some(luks.key), Empty);
    assert Exposed(open, Mapper(luks.volumeName)) == Some(Empty);
    MkfsedKeeps(open, Mapper(luks.volumeName), FsType(access));
  }

  // The faults that stop luksFormat between the header and the keyslot.
  ghost predicate StopsBeforeKeyslot(luks: LuksContext, faults: FaultPlan) {
    && Usable(luks)
    && At(faults, Blkid) == Fine && At(faults, CryptInit) == Fine
    && (At(faults, CryptFormat) == Late || (At(faults, CryptFormat) == Fine && At(faults, KeyslotAdd) == Lost))
  }

  lemma LuksHalfFormatsExactly(h: Host, luks: LuksContext, dev: int, faults: FaultPlan)
    requires h.On(dev) == BLANK
    ensures FormatLuksVolume(h, luks, dev, faults).0.On(dev) == Luks(None, Empty) <==> StopsBeforeKeyslot(luks, faults)
  {
    KeyAddedIsHeader(h, dev, luks.key);
    assert WithHeader(h, dev, Some(luks.key)).On(dev) == Luks(Some(luks.key), Empty);
    assert LuksFormatted(h, dev).On(dev) == Luks(None, Empty);
  }

  lemma MountHalfFormatsExactly(h: Host, dev: int, req: StageRequest, access: Access, faults: FaultPlan)
    requires h.On(dev) == BLANK
    ensures MountVolume(h, dev, req, access, faults).0.On(dev) == Luks(None, Empty) <==>
      AsksForLuks(req) && StopsBeforeKeyslot(LuksContextOf(req.secrets, req.volumeContext), faults)
  {
    var luks := LuksContextOf(req.secrets, req.volumeContext);
    if luks.enabled {
      LuksHalfFormatsExactly(h, luks, dev, faults);
      LuksFormatEnds(h, luks, dev, faults);
      var (h1, source) := FormatLuksVolume(h, luks, dev, faults);
      if source.Good? {
        MountKeepsHeader(h1, source.value, req.staging, FsType(access), MountOptions(access), faults, dev);
      }
    } else {
      MountKeepsHeader(h, Device(dev), req.staging, FsType(access), MountOptions(access), faults, dev);
    }
  }

  // The staging path turns out, or is made, a directory with nothing mounted on it.
  ghost predicate ReachesDevice(h: Host, path: string, faults: FaultPlan) {
    path !in h.mounts && At(faults, MountCheck) == Fine && (path in h.paths || At(faults, MakeDir) == Fine)
  }

  lemma ReachedDevice(h: Host, dev: int, req: StageRequest, access: Access, faults: FaultPlan)
    requires Sound(h)
    ensures ReachesDevice(h, req.staging, faults) ==>
      StageDevice(h, dev, req, access, faults) == Staged(WithPath(h, req.staging), dev, req, access, faults)
    ensures !ReachesDevice(h, req.staging, faults) ==>
      && StageDevice(h, dev, req, access, faults).0 in {h, WithPath(h, req.staging)}
      && StageDevice(h, dev, req, access, faults).1 in {Success, Failure(Internal)}
  {
    assert req.staging in h.paths ==> WithPath(h, req.staging) == h;
  }

  // A stage attempt leaves the device with a header and no keyslot exactly when it asks for
  // LUKS on a file system, gets as far as the device, and the header is written but the
  // keyslot is not.
  lemma StageHalfFormatsExactly(h: Host, devices: Devices, req: StageRequest, faults: FaultPlan)
    requires Sound(h) && Target(devices, req).Some? && h.On(Target(devices, req).value) == BLANK
    ensures HalfFormatted(h, Stage(h, devices, req, faults).0, devices, req) <==>
      && StageTarget(devices, req, faults).Good? && StagesMapper(req)
      && ReachesDevice(h, req.staging, faults)
      && StopsBeforeKeyslot(LuksContextOf(req.secrets, req.volumeContext), faults)
  {
    TargetWithFaults(devices, req, faults);
    if StageTarget(devices, req, faults).Good? {
      var dev, ready := Target(devices, req).value, WithPath(h, req.staging);
      ReachedDevice(h, dev, req, req.access.value, faults);
      assert ready.On(dev) == h.On(dev);
      MountHalfFormatsExactly(ready, dev, req, req.access.value, faults);
    }
  }

  // So every blank device on which a clean LUKS stage would succeed can be left that way.
  lemma HalfFormattingHappens(h: Host, devices: Devices, req: StageRequest)
    requires Sound(h) && StagesMapper(req) && Target(devices, req).Some?
    requires h.On(Target(devices, req).value) == BLANK
    requires MapperName(req) !in h.mappers && req.staging !in h.mounts
    requires Usable(LuksContextOf(req.secrets, req.volumeContext))
    ensures HalfFormatted(h, Stage(h, devices, req, map[KeyslotAdd := Lost]).0, devices, req)
  {
    KeyslotFaultKeepsTarget(devices, req);
    StageHalfFormatsExactly(h, devices, req, map[KeyslotAdd := Lost]);
  }

  lemma KeyslotFaultKeepsTarget(devices: Devices, req: StageRequest)
    ensures StageTarget(devices, req, map[KeyslotAdd := Lost]) == StageTarget(devices, req, NO_FAULTS)
  {
    if Parse(req.volumeId).Some? {
      var paths := DevicePaths.ByIdPaths(Parse(req.volumeId).value.NormalizedLabel(), Partition(req));
      var faulty, clean := StatOf(devices, map[KeyslotAdd := Lost]), StatOf(devices, NO_FAULTS);
      assert forall path :: faulty(path) == clean(path);
      DevicePaths.FirstExistingIsSearch(paths, faulty);
      DevicePaths.FirstExistingIsSearch(paths, clean);
      DevicePaths.SearchIsUnique(paths, clean, DevicePaths.FirstExisting(paths, faulty), DevicePaths.FirstExisting(paths, clean));
    }
  }

  // A device left that way is refused by every later attempt, and left as it is.
  lemma HalfFormattedIsStuck(h: Host, dev: int, req: StageRequest, access: Access, faults: FaultPlan)
    requires AsksForLuks(req) && access.Filesystem? && MapperName(req) !in h.mappers && req.staging !in h.mounts
    requires h.On(dev) == Luks(None, Empty)
    ensures var (h', reply) := StageDevice(h, dev, req, access, faults);
      && reply.Failure? && h' in {h, WithPath(h, req.staging)}
  {
    StageDeviceShape(h, dev, req, access, faults);
    var ready, luks := WithPath(h, req.staging), LuksContextOf(req.secrets, req.volumeContext);
    assert ready.On(dev) == h.On(dev);
    LuksOpenShape(ready, luks, dev, faults);
  }

  ghost function AfterAttempts(h: Host, devices: Devices, req: StageRequest, attempts: seq<FaultPlan>): Host
    decreases |attempts|
  {
    if attempts == [] then h
    else AfterAttempts(Stage(h, devices, req, attempts[0]).0, devices, req, attempts[1..])
  }

  // One attempt leaves what the next one needs: a sound host whose mapper, if any, is the
  // request's own.
  lemma AttemptKeepsPremises(h: Host, devices: Devices, req: StageRequest, faults: FaultPlan)
    requires Sound(h) && MapperIsOwn(h, devices, req)
    ensures var h1 := Stage(h, devices, req, faults).0; Sound(h1) && MapperIsOwn(h1, devices, req)
  {
    StageKeeps(h, devices, req, faults);
    TargetWithFaults(devices, req, faults);
    StageMappers(h, devices, req, faults);
  }

  // The only mapper a stage request opens is its own name over its own device.
  lemma StageMappers(h: Host, devices: Devices, req: StageRequest, faults: FaultPlan)
    ensures var h1 := Stage(h, devices, req, faults).0;
      || h1.mappers == h.mappers
      || (AsksForLuks(req) && MapperName(req) !in h.mappers && Target(devices, req).Some?
          && h1.mappers == h.mappers[MapperName(req) := Target(devices, req).value])
  {
    TargetWithFaults(devices, req, faults);
    var target := StageTarget(devices, req, faults);
    if target.Good? {
      StageDeviceShape(h, target.value, req, req.access.value, faults);
      MountVolumeMappers(WithPath(h, req.staging), target.value, req, req.access.value, faults);
    }
  }

  lemma FormatLuksMappers(h: Host, luks: LuksContext, dev: int, faults: FaultPlan)
    ensures var h1 := FormatLuksVolume(h, luks, dev, faults).0;
      h1.mappers == h.mappers
      || (luks.volumeName !in h.mappers && h1.mappers == h.mappers[luks.volumeName := dev])
  {
    if h.On(dev) == BLANK {
      LuksFormatShape(h, luks, dev, faults);
    } else {
      LuksOpenShape(h, luks, dev, faults);
    }
  }

  lemma MountVolumeMappers(h: Host, dev: int, req: StageRequest, access: Access, faults: FaultPlan)
    ensures var h1 := MountVolume(h, dev, req, access, faults).0;
      || h1.mappers == h.mappers
      || (AsksForLuks(req) && MapperName(req) !in h.mappers && h1.mappers == h.mappers[MapperName(req) := dev])
  {
    var luks := LuksContextOf(req.secrets, req.volumeContext);
    var (h1, source) := if luks.enabled then FormatLuksVolume(h, luks, dev, faults) else (h, Good(Device(dev)));
    FormatLuksMappers(h, luks, dev, faults);
    if source.Good? {
      FormatAndMountShape(h1, source.value, req.staging, FsType(access), MountOptions(access), faults);
      if Exposed(h1, source.value) == Some(Empty) {
        MkfsedKeeps(h1, source.value, FsType(access));
      }
    }
  }

  lemma StuckAfterAttempts(h: Host, devices: Devices, req: StageRequest, attempts: seq<FaultPlan>)
    requires Target(devices, req).Some? && req.access.value.Filesystem?
    requires AsksForLuks(req) && MapperName(req) !in h.mappers && req.staging !in h.mounts
    requires h.On(Target(devices, req).value) == Luks(None, Empty)
    ensures var hn := AfterAttempts(h, devices, req, attempts);
      && hn.On(Target(devices, req).value) == Luks(None, Empty)
      && Stage(hn, devices, req, NO_FAULTS).1.Failure?
    decreases |attempts|
  {
    var dev := Target(devices, req).value;
    if attempts == [] {
      HalfFormattedIsStuck(h, dev, req, req.access.value, NO_FAULTS);
    } else {
      TargetWithFaults(devices, req, attempts[0]);
      var h1 := Stage(h, devices, req, attempts[0]).0;
      if h1 != h {
        HalfFormattedIsStuck(h, dev, req, req.access.value, attempts[0]);
      }
      assert h1.On(dev) == h.On(dev);
      StuckAfterAttempts(h1, devices, req, attempts[1..]);
    }
  }

  // NodeStage retries: after any attempts at a request, however each failed, a clean call
  // ends in the host and with the answer of one clean call exactly when no attempt stopped
  // between writing the LUKS header and adding its keyslot.
  lemma {:induction false} StageRetriesConverge(h: Host, devices: Devices, req: StageRequest, attempts: seq<FaultPlan>)
    requires Sound(h) && MapperIsOwn(h, devices, req)
    ensures var hn := AfterAttempts(h, devices, req, attempts);
      Stage(hn, devices, req, NO_FAULTS) == Stage(h, devices, req, NO_FAULTS) <==> !HalfFormatted(h, hn, devices, req)
    decreases |attempts|
  {
    if attempts != [] {
      var h1 := Stage(h, devices, req, attempts[0]).0;
      var hn := AfterAttempts(h, devices, req, attempts);
      AttemptKeepsPremises(h, devices, req, attempts[0]);
      StageRetriesConverge(h1, devices, req, attempts[1..]);
      if Target(devices, req).Some? {
        var dev := Target(devices, req).value;
        StageKeeps(h, devices, req, attempts[0]);
        assert Grows(h.On(dev), h1.On(dev));
        AttemptsGrow(h1, devices, req, attempts[1..], dev);
        if h1 != h {
          TargetWithFaults(devices, req, attempts[0]);
          if HalfFormatted(h, h1, devices, req) {
            HowHalfFormatted(h, dev, req, req.access.value, attempts[0]);
            assert WithPath(h, req.staging).On(dev) == h.On(dev);
            StuckAfterAttempts(h1, devices, req, attempts[1..]);
          } else {
            RetryStageDevice(h, dev, req, req.access.value, attempts[0]);
          }
        }
      } else {
        NoTargetNoChange(h, devices, req, attempts[0]);
      }
    }
  }

  lemma NoTargetNoChange(h: Host, devices: Devices, req: StageRequest, faults: FaultPlan)
    requires Target(devices, req).None?
    ensures Stage(h, devices, req, faults).0 == h
  {
    TargetWithFaults(devices, req, faults);
  }

  lemma {:induction false} AttemptsGrow(h: Host, devices: Devices, req: StageRequest, attempts: seq<FaultPlan>, dev: int)
    ensures Grows(h.On(dev), AfterAttempts(h, devices, req, attempts).On(dev))
    decreases |attempts|
  {
    if attempts != [] {
      StageKeeps(h, devices, req, attempts[0]);
      var h1 := Stage(h, devices, req, attempts[0]).0;
      assert Grows(h.On(dev), h1.On(dev));
      AttemptsGrow(h1, devices, req, attempts[1..], dev);
    }
  }

  // A header without a keyslot is for ever: over any run of any operations no mapper is
  // ever open over that device.
  lemma HalfFormattedStaysUnusable(trace: seq<Host>, calls: seq<NodeRuns.Call>, dev: int, i: nat, j: nat)
    requires Run(trace, calls) && i <= j < |trace| && Sound(trace[0])
    requires trace[i].On(dev).Luks? && trace[i].On(dev).key.None?
    ensures trace[j].On(dev).Luks? && trace[j].On(dev).key.None?
    ensures forall name :: name in trace[j].mappers ==> trace[j].mappers[name] != dev
  {
    DataIsNeverOverwritten(trace, calls, dev, i, j);
    SoundnessStays(trace, calls, j);
  }

  // ----- NodeUnstageVolume

  lemma RetryCleanup(h: Host, path: string, faults: FaultPlan)
    requires Sound(h)
    ensures var h1 := Cleanup(h, path, faults).0;
      Cleanup(h1, path, NO_FAULTS) == Cleanup(h, path, NO_FAULTS)
    ensures Cleanup(h, path, faults).1 ==> Cleanup(h, path, NO_FAULTS) == Cleanup(h, path, faults)
  {
    assert path !in h.mounts ==> h.mounts - {path} == h.mounts;
    assert h.mounts - {path} - {path} == h.mounts - {path};
    assert h.paths - {path} - {path} == h.paths - {path};
  }

  lemma RetryUnstageOnce(h: Host, volumeId: string, staging: string, faults: FaultPlan)
    requires Sound(h)
    ensures Unstage(Unstage(h, volumeId, staging, faults).0, volumeId, staging, NO_FAULTS)
         == Unstage(h, volumeId, staging, NO_FAULTS)
  {
    RetryCleanup(h, staging, faults);
    var (h1, cleaned) := Cleanup(h, staging, faults);
    if cleaned && MountSource(volumeId).Some? {
      CleanupKeeps(h, staging, faults);
      RetryLuksClose(h1, MountSource(volumeId).value, staging, faults);
    }
  }

  lemma RetryLuksClose(h: Host, name: string, staging: string, faults: FaultPlan)
    requires staging !in h.paths
    ensures var h1 := LuksClose(h, name, faults).0;
      && Cleanup(h1, staging, NO_FAULTS) == (h1, true)
      && LuksClose(h1, name, NO_FAULTS) == LuksClose(h, name, NO_FAULTS)
  {
  }

  ghost function AfterUnstages(h: Host, volumeId: string, staging: string, attempts: seq<FaultPlan>): Host
    decreases |attempts|
  {
    if attempts == [] then h
    else AfterUnstages(Unstage(h, volumeId, staging, attempts[0]).0, volumeId, staging, attempts[1..])
  }

  // NodeUnstage converges unconditionally, whatever happened to earlier attempts.
  lemma {:induction false} UnstageRetriesConverge(h: Host, volumeId: string, staging: string, attempts: seq<FaultPlan>)
    requires Sound(h)
    ensures Unstage(AfterUnstages(h, volumeId, staging, attempts), volumeId, staging, NO_FAULTS)
         == Unstage(h, volumeId, staging, NO_FAULTS)
    decreases |attempts|
  {
    if attempts != [] {
      RetryUnstageOnce(h, volumeId, staging, attempts[0]);
      UnstageKeeps(h, volumeId, staging, attempts[0]);
      UnstageRetriesConverge(Unstage(h, volumeId, staging, attempts[0]).0, volumeId, staging, attempts[1..]);
    }
  }

  // A successful unstage leaves no mount and no directory; the mapper of that name is gone
  // too, exactly unless its lookup failed while it was active.
  lemma UnstagedMeans(h: Host, volumeId: string, staging: string, faults: FaultPlan)
    requires Sound(h) && Unstage(h, volumeId, staging, faults).1.Success?
    ensures var h' := Unstage(h, volumeId, staging, faults).0;
      && staging !in h'.mounts && staging !in h'.paths
      && MountSource(volumeId).Some?
      && var name := MountSource(volumeId).value;
        (name in h'.mappers <==> name in h.mappers && At(faults, InitByName) != Fine)
  {
    CleanupKeeps(h, staging, faults);
    LuksCloseKeeps(Cleanup(h, staging, faults).0, MountSource(volumeId).value, faults);
  }

  lemma CleanupTables(h: Host, path: string, faults: FaultPlan)
    ensures var h' := Cleanup(h, path, faults).0;
      h'.mappers == h.mappers && (h'.mounts == h.mounts || h'.mounts == h.mounts - {path})
  {
  }

  lemma LuksCloseTables(h: Host, name: string, faults: FaultPlan)
    ensures var h' := LuksClose(h, name, faults).0;
      && h'.mounts == h.mounts
      && (h'.mappers == h.mappers || (h'.mappers == h.mappers - {name} && !h'.Busy(name)))
  {
  }

  // Unstaging only takes away: the mount at its path, and the mapper of its name once
  // nothing is mounted over it.
  lemma UnstageTables(h: Host, volumeId: string, staging: string, faults: FaultPlan)
    ensures var h' := Unstage(h, volumeId, staging, faults).0;
      && (h'.mounts == h.mounts || h'.mounts == h.mounts - {staging})
      && (h'.mappers == h.mappers
          || (MountSource(volumeId).Some? && h'.mappers == h.mappers - {MountSource(volumeId).value}
              && !h'.Busy(MountSource(volumeId).value)))
  {
    CleanupTables(h, staging, faults);
    if MountSource(volumeId).Some? {
      LuksCloseTables(Cleanup(h, staging, faults).0, MountSource(volumeId).value, faults);
    }
  }

  // Publishing and unpublishing leave every mount but the target's, and every mapper.
  lemma TargetTables(h: Host, call: NodeRuns.Call, target: string)
    requires call.op.PublishOp? || call.op.UnpublishOp?
    requires target == if call.op.PublishOp? then call.op.publish.target else call.op.target
    ensures var h' := Exec(h, call).0;
      && h'.mappers == h.mappers
      && forall path :: path != target && path in h'.mounts ==> path in h.mounts && h'.mounts[path] == h.mounts[path]
  {
    match call.op
    case UnpublishOp(volumeId, _) => CleanupTables(h, target, call.faults);
    case PublishOp(req) => PublishShape(h, req, call.faults);
  }

  // ----- NodePublishVolume and NodeUnpublishVolume

  ghost function AfterOps(h: Host, op: Op, attempts: seq<FaultPlan>): Host
    decreases |attempts|
  {
    if attempts == [] then h else AfterOps(Exec(h, NodeRuns.Call(op, attempts[0])).0, op, attempts[1..])
  }

  lemma RetryTargetOnce(h: Host, op: Op, faults: FaultPlan)
    requires Sound(h) && (op.PublishOp? || op.UnpublishOp?)
    ensures Exec(Exec(h, NodeRuns.Call(op, faults)).0, NodeRuns.Call(op, NO_FAULTS)) == Exec(h, NodeRuns.Call(op, NO_FAULTS))
  {
    match op
    case UnpublishOp(_, target) => RetryCleanup(h, target, faults);
    case PublishOp(req) => RetryPublish(h, req, faults);
  }

  lemma RetryPublish(h: Host, req: PublishRequest, faults: FaultPlan)
    requires Sound(h)
    ensures Publish(Publish(h, req, faults).0, req, NO_FAULTS) == Publish(h, req, NO_FAULTS)
  {
    assert req.target in h.paths ==> WithPath(h, req.target) == h;
    assert WithPath(WithPath(h, req.target), req.target) == WithPath(h, req.target);
  }

  // Publishing and unpublishing converge too, whatever happened to earlier attempts.
  lemma {:induction false} TargetRetriesConverge(h: Host, op: Op, attempts: seq<FaultPlan>)
    requires Sound(h) && (op.PublishOp? || op.UnpublishOp?)
    ensures Exec(AfterOps(h, op, attempts), NodeRuns.Call(op, NO_FAULTS)) == Exec(h, NodeRuns.Call(op, NO_FAULTS))
    decreases |attempts|
  {
    if attempts != [] {
      var call := NodeRuns.Call(op, attempts[0]);
      RetryTargetOnce(h, op, attempts[0]);
      StepKeeps(h, call);
      TargetRetriesConverge(Exec(h, call).0, op, attempts[1..]);
    }
  }

  // A published target shows what its staging path shows, read-only exactly when asked,
  // and unpublishing it takes that one mount away again.
  lemma PublishThenUnpublish(h: Host, req: PublishRequest, faults: FaultPlan)
    requires Sound(h) && req.target !in h.mounts && Publish(h, req, faults).1.Success?
    ensures var h1 := Publish(h, req, faults).0;
      && req.target in h1.mounts
      && DeviceOf(h1, h1.mounts[req.target].source)
        == (if req.staging in h.mounts then DeviceOf(h, h.mounts[req.staging].source) else None)
      && ("ro" in h1.mounts[req.target].options <==> req.readonly)
      && Unpublish(h1, req.volumeId, req.target, NO_FAULTS)
        == (h.(paths := h.paths - {req.target}), Success)
  {
    var h1 := Publish(h, req, faults).0;
    var options := h1.mounts[req.target].options;
    assert options == if req.readonly then ["bind", "ro"] else ["bind"];
    assert "bind" != "ro" by {
      assert |"bind"| != |"ro"|;
    }
    assert h1.mounts - {req.target} == h.mounts;
    assert h1.paths - {req.target} == h.paths - {req.target};
  }

  // ----- Stage, then unstage

  ghost predicate Unstaged(h: Host, req: StageRequest) {
    && req.staging !in h.mounts
    && MapperName(req) !in h.mappers
    && (MountSource(req.volumeId).Some? ==> MountSource(req.volumeId).value !in h.mappers)
  }

  ghost predicate StagesMapper(req: StageRequest) {
    req.access.Some? && req.access.value.Filesystem? && AsksForLuks(req)
  }

  // A successful stage of an unmounted path went all the way to its device.
  lemma SuccessfulStage(h: Host, devices: Devices, req: StageRequest, faults: FaultPlan)
    requires Sound(h) && req.staging !in h.mounts && Stage(h, devices, req, faults).1.Success?
    ensures Target(devices, req).Some? && req.access.Some?
    ensures Stage(h, devices, req, faults)
      == Staged(WithPath(h, req.staging), Target(devices, req).value, req, req.access.value, faults)
  {
    TargetWithFaults(devices, req, faults);
    SuccessfulDevice(h, Target(devices, req).value, req, req.access.value, faults);
  }

  lemma SuccessfulDevice(h: Host, dev: int, req: StageRequest, access: Access, faults: FaultPlan)
    requires Sound(h) && req.staging !in h.mounts
    ensures StageDevice(h, dev, req, access, faults).1.Success? ==>
      StageDevice(h, dev, req, access, faults) == Staged(WithPath(h, req.staging), dev, req, access, faults)
  {
    assert req.staging in h.paths ==> WithPath(h, req.staging) == h;
  }

  lemma SuccessfulLuks(h: Host, luks: LuksContext, dev: int, faults: FaultPlan)
    requires FormatLuksVolume(h, luks, dev, faults).1.Good?
    ensures var (h1, source), name := FormatLuksVolume(h, luks, dev, faults), luks.volumeName;
      && source == Good(Mapper(name)) && h1.mounts == h.mounts && h1.paths == h.paths
      && h1.mappers == if name in h.mappers then h.mappers else h.mappers[name := dev]
  {
    if h.On(dev) == BLANK {
      LuksFormatShape(h, luks, dev, faults);
    } else {
      LuksOpenShape(h, luks, dev, faults);
    }
  }

  function MountedSource(req: StageRequest, dev: int): Source {
    var luks := LuksContextOf(req.secrets, req.volumeContext);
    if luks.enabled then Mapper(luks.volumeName) else Device(dev)
  }

  // The tables after a successful mountVolume.
  lemma SuccessfulMount(h: Host, dev: int, req: StageRequest, access: Access, faults: FaultPlan)
    requires MountVolume(h, dev, req, access, faults).1.Success?
    ensures var h', name := MountVolume(h, dev, req, access, faults).0, MapperName(req);
      && h'.paths == h.paths
      && h'.mounts == h.mounts[req.staging := Mount(MountedSource(req, dev), FsType(access), MountOptions(access))]
      && h'.mappers == if AsksForLuks(req) && name !in h.mappers then h.mappers[name := dev] else h.mappers
  {
    var luks := LuksContextOf(req.secrets, req.volumeContext);
    var (h1, source) := if luks.enabled then FormatLuksVolume(h, luks, dev, faults) else (h, Good(Device(dev)));
    if luks.enabled {
      SuccessfulLuks(h, luks, dev, faults);
    }
    FormatAndMountShape(h1, source.value, req.staging, FsType(access), MountOptions(access), faults);
    if Exposed(h1, source.value) == Some(Empty) {
      MkfsedKeeps(h1, source.value, FsType(access));
    }
  }

  // The tables after a successful stage of an unstaged volume.
  lemma StagedTables(h: Host, devices: Devices, req: StageRequest, faults: FaultPlan)
    requires Sound(h) && Unstaged(h, req) && Stage(h, devices, req, faults).1.Success?
    ensures var h1 := Stage(h, devices, req, faults).0;
      && h1.paths == h.paths + {req.staging} && Target(devices, req).Some? && req.access.Some?
      && h1.mappers == (if StagesMapper(req) then h.mappers[MapperName(req) := Target(devices, req).value] else h.mappers)
      && h1.mounts == if req.access.value.Block? then h.mounts else h.mounts[req.staging :=
           Mount(MountedSource(req, Target(devices, req).value), FsType(req.access.value), MountOptions(req.access.value))]
  {
    SuccessfulStage(h, devices, req, faults);
    if req.access.value.Filesystem? {
      SuccessfulMount(WithPath(h, req.staging), Target(devices, req).value, req, req.access.value, faults);
    }
  }

  // A failure-free unstage of a path that exists, under a mapper nothing else is using.
  lemma CleanUnstage(h: Host, volumeId: string, staging: string)
    requires volumeId != "" && staging != "" && staging in h.paths && MountSource(volumeId).Some?
    requires forall path :: path in h.mounts && path != staging ==> h.mounts[path].source != Mapper(MountSource(volumeId).value)
    ensures var (h', reply), name := Unstage(h, volumeId, staging, NO_FAULTS), MountSource(volumeId).value;
      && reply == Success
      && h'.mounts == h.mounts - {staging} && h'.mappers == h.mappers - {name}
  {
    var name := MountSource(volumeId).value;
    assert staging !in h.mounts ==> h.mounts - {staging} == h.mounts;
    assert name !in h.mappers ==> h.mappers - {name} == h.mappers;
    var h1 := Cleanup(h, staging, NO_FAULTS).0;
    assert h1.mounts == h.mounts - {staging};
    assert !h1.Busy(name);
  }

  // Unstaging a volume staged from an unstaged host gives back the mount table, and the
  // mapper table exactly when no mapper was opened or the mapper's name is the label at
  // the end of the volume id.
  lemma StageThenUnstage(h: Host, devices: Devices, req: StageRequest, faults: FaultPlan)
    requires Sound(h) && Unstaged(h, req) && Stage(h, devices, req, faults).1.Success?
    ensures var h1 := Stage(h, devices, req, faults).0;
      var (h2, reply) := Unstage(h1, req.volumeId, req.staging, NO_FAULTS);
      && reply == Success
      && h2.mounts == h.mounts
      && (h2.mappers == h.mappers <==> !StagesMapper(req) || MountSource(req.volumeId) == Some(MapperName(req)))
  {
    StagedTables(h, devices, req, faults);
    MountSourceAgrees(req.volumeId);
    var h1 := Stage(h, devices, req, faults).0;
    CleanUnstage(h1, req.volumeId, req.staging);
    BackToTables(h, h1, req.staging, MountSource(req.volumeId).value, MapperName(req), StagesMapper(req),
      Mount(MountedSource(req, Target(devices, req).value), FsType(req.access.value), MountOptions(req.access.value)),
      Target(devices, req).value);
  }

  lemma BackToTables(h: Host, h1: Host, staging: string, suffix: string, name: string, mapped: bool,
    mount: Mount, dev: int)
    requires staging !in h.mounts && suffix !in h.mappers && name !in h.mappers
    requires h1.mounts == h.mounts || h1.mounts == h.mounts[staging := mount]
    requires h1.mappers == if mapped then h.mappers[name := dev] else h.mappers
    ensures h1.mounts - {staging} == h.mounts
    ensures h1.mappers - {suffix} == h.mappers <==> !mapped || suffix == name
  {
    if mapped && suffix != name {
      assert name in h1.mappers - {suffix};
    }
  }

  // The same for a volume of this driver, in terms of the request that made it: with
  // encryption, the mapper is closed exactly when prefix and name leave the label equal to
  // the name.
  lemma StageThenUnstageOfCreated(
    h: Host, devices: Devices, req: StageRequest, faults: FaultPlan,
    prefix: string, name: string, parameters: map<string, string>, region: string, v: int)
    requires 0 <= v <= MAX_INT
    requires req.volumeId == VolumeKey(v, LabelFor(prefix, name)).Print()
    requires req.volumeContext == ContextFor(name, parameters, region)
    requires Sound(h) && Unstaged(h, req) && Stage(h, devices, req, faults).1.Success?
    ensures var h1 := Stage(h, devices, req, faults).0;
      var (h2, reply) := Unstage(h1, req.volumeId, req.staging, NO_FAULTS);
      && reply == Success && h2.mounts == h.mounts
      && (h2.mappers == h.mappers <==>
          || req.access.value.Block?
          || Lookup(parameters, LUKS_ENCRYPTED) != TRUE
          || (|name| <= LABEL_LENGTH && (prefix == "" || (|name| == LABEL_LENGTH && name <= prefix + name))))
  {
    StageThenUnstage(h, devices, req, faults);
    StagedTables(h, devices, req, faults);
    CreatedNames(req, prefix, name, parameters, region, v);
    LabelEqualsName(prefix, name);
  }

  // The two names a created volume goes by on a node.
  lemma CreatedNames(
    req: StageRequest, prefix: string, name: string, parameters: map<string, string>, region: string, v: int)
    requires 0 <= v <= MAX_INT
    requires req.volumeId == VolumeKey(v, LabelFor(prefix, name)).Print()
    requires req.volumeContext == ContextFor(name, parameters, region)
    ensures MountSource(req.volumeId) == Some(LabelFor(prefix, name))
    ensures Parse(req.volumeId) == Some(VolumeKey(v, LabelFor(prefix, name)))
    ensures AsksForLuks(req) <==> Lookup(parameters, LUKS_ENCRYPTED) == TRUE
    ensures AsksForLuks(req) ==> MapperName(req) == name
    ensures Partition(req) == ""
  {
    KeyRoundTrip(VolumeKey(v, LabelFor(prefix, name)));
    MountSourceAgrees(req.volumeId);
    LuksContextRoundTrip(name, parameters, region, req.secrets);
  }

  // End to end: the device a created volume is staged from is looked for under exactly the
  // two by-id paths of the label it was created under.
  lemma CreatedVolumeIsSoughtByLabel(
    req: StageRequest, prefix: string, name: string, parameters: map<string, string>, region: string, v: int,
    devices: Devices, faults: FaultPlan)
    requires 0 <= v <= MAX_INT && req.staging != "" && req.access.Some?
    requires req.volumeId == VolumeKey(v, LabelFor(prefix, name)).Print()
    requires req.volumeContext == ContextFor(name, parameters, region)
    ensures var paths := DevicePaths.ByIdPaths(LabelFor(prefix, name), "");
      match DevicePaths.FirstExisting(paths, StatOf(devices, faults))
      case Found(path) => path in paths && path in devices && StageTarget(devices, req, faults) == Good(devices[path])
      case NoneExists => StageTarget(devices, req, faults) == Stop(Internal)
        && paths[0] !in devices && paths[1] !in devices
      case SearchFailed => StageTarget(devices, req, faults) == Stop(Internal)
  {
    CreatedNames(req, prefix, name, parameters, region, v);
    DevicePaths.FirstExistingIsSearch(DevicePaths.ByIdPaths(LabelFor(prefix, name), ""), StatOf(devices, faults));
  }

  // The mount table after a stage attempt, successful or not.
  lemma StageMounts(h: Host, devices: Devices, req: StageRequest, faults: FaultPlan)
    ensures var h' := Stage(h, devices, req, faults).0;
      || h'.mounts == h.mounts
      || (Target(devices, req).Some? && req.access.Some?
          && var dev := Target(devices, req).value;
          && h'.mounts == h.mounts[req.staging := Mount(MountedSource(req, dev),
               FsType(req.access.value), MountOptions(req.access.value))]
          && (AsksForLuks(req) ==> MapperName(req) in h'.mappers))
  {
    TargetWithFaults(devices, req, faults);
    var target := StageTarget(devices, req, faults);
    if target.Good? {
      StageDeviceShape(h, target.value, req, req.access.value, faults);
      MountVolumeMounts(WithPath(h, req.staging), target.value, req, req.access.value, faults);
    }
  }

  lemma MountVolumeMounts(
    h: Host, dev: int, req: StageRequest, access: Access, faults: FaultPlan)
    ensures var h' := MountVolume(h, dev, req, access, faults).0;
      || h'.mounts == h.mounts
      || (h'.mounts == h.mounts[req.staging := Mount(MountedSource(req, dev),
               FsType(access), MountOptions(access))]
          && (AsksForLuks(req) ==> MapperName(req) in h'.mappers))
  {
    var luks := LuksContextOf(req.secrets, req.volumeContext);
    var (h1, source) :=
      if luks.enabled then FormatLuksVolume(h, luks, dev, faults) else (h, Good(Device(dev)));
    FormatLuksVolumeKeeps(h, luks, dev, faults);
    if source.Good? {
      if luks.enabled {
        SuccessfulLuks(h, luks, dev, faults);
      }
      FormatAndMountShape(h1, source.value, req.staging, FsType(access), MountOptions(access), faults);
      if Exposed(h1, source.value) == Some(Empty) {
        MkfsedKeeps(h1, source.value, FsType(access));
      }
    }
  }

  // ----- What a successful stage means

  // A LUKS request never mounts the bare device: what it mounts is its mapper, and that
  // mapper lies over the device that was found exactly when no other mapper had the name.
  lemma LuksStageMeans(h: Host, devices: Devices, req: StageRequest, faults: FaultPlan)
    requires Sound(h) && req.staging !in h.mounts && StagesMapper(req)
    ensures var (h', reply), name := Stage(h, devices, req, faults), MapperName(req);
      reply.Success? ==>
        && Target(devices, req).Some?
        && req.staging in h'.mounts && h'.mounts[req.staging].source == Mapper(name)
        && name in h'.mappers && h'.On(h'.mappers[name]).Luks?
        && (h'.mappers[name] == Target(devices, req).value <==> MapperIsOwn(h, devices, req))
  {
    if Stage(h, devices, req, faults).1.Success? {
      SuccessfulStage(h, devices, req, faults);
      SuccessfulMount(WithPath(h, req.staging), Target(devices, req).value, req, req.access.value, faults);
      StageKeeps(h, devices, req, faults);
    }
  }

  // A LUKS request on a device that carries a plain file system fails, and every device
  // stays as it was.
  lemma LuksRefusesPlainFileSystem(h: Host, devices: Devices, req: StageRequest, faults: FaultPlan)
    requires req.staging !in h.mounts && StagesMapper(req) && Target(devices, req).Some?
    requires h.On(Target(devices, req).value).Clear? && h.On(Target(devices, req).value) != BLANK
    ensures var (h', reply) := Stage(h, devices, req, faults);
      reply.Failure? && h'.disks == h.disks && h'.mappers == h.mappers && h'.mounts == h.mounts
  {
    TargetWithFaults(devices, req, faults);
    if StageTarget(devices, req, faults).Good? {
      LuksRefusesAt(h, Target(devices, req).value, req, req.access.value, faults);
    }
  }

  lemma LuksRefusesAt(h: Host, dev: int, req: StageRequest, access: Access, faults: FaultPlan)
    requires req.staging !in h.mounts && access.Filesystem? && AsksForLuks(req)
    requires h.On(dev).Clear? && h.On(dev) != BLANK
    ensures var (h', reply) := StageDevice(h, dev, req, access, faults);
      reply.Failure? && h' in {h, WithPath(h, req.staging)}
  {
    var ready := WithPath(h, req.staging);
    StageDeviceShape(h, dev, req, access, faults);
    assert ready.On(dev) == h.On(dev);
    LuksRefusesToFormat(ready, LuksContextOf(req.secrets, req.volumeContext), dev, faults);
  }

  lemma LuksRefusesToFormat(h: Host, luks: LuksContext, dev: int, faults: FaultPlan)
    requires h.On(dev).Clear? && h.On(dev) != BLANK
    ensures FormatLuksVolume(h, luks, dev, faults).0 == h && FormatLuksVolume(h, luks, dev, faults).1.Stop?
  {
  }

  // A cipher that validation lets through and luksFormat cannot split.
  ghost predicate Unsplittable(luks: LuksContext) {
    Complete(luks) && Atoi(luks.keySize).Some? && '-' !in luks.cipher
  }

  lemma LuksPanicsExactly(h: Host, luks: LuksContext, dev: int, faults: FaultPlan)
    ensures FormatLuksVolume(h, luks, dev, faults).1 == Stop(Panicked) <==>
      At(faults, Blkid) == Fine && h.On(dev) == BLANK && Unsplittable(luks)
  {
  }

  lemma MountPanicsExactly(h: Host, dev: int, req: StageRequest, access: Access, faults: FaultPlan)
    ensures MountVolume(h, dev, req, access, faults).1 == Failure(Panicked) <==>
      && AsksForLuks(req) && At(faults, Blkid) == Fine && h.On(dev) == BLANK
      && Unsplittable(LuksContextOf(req.secrets, req.volumeContext))
  {
    var luks := LuksContextOf(req.secrets, req.volumeContext);
    LuksPanicsExactly(h, luks, dev, faults);
    var (h1, source) := if luks.enabled then FormatLuksVolume(h, luks, dev, faults) else (h, Good(Device(dev)));
    if source.Good? {
      MountNeverPanics(h1, source.value, req.staging, FsType(access), MountOptions(access), faults);
    }
  }

  lemma MountNeverPanics(
    h: Host, source: Source, target: string, fsType: string, options: seq<string>, faults: FaultPlan)
    ensures FormatAndMount(h, source, target, fsType, options, faults).1 in {Success, Failure(Internal)}
  {
  }

  // The panic in luksFormat is reached exactly when a LUKS request gets as far as a blank
  // device, blkid says so, and the settings pass validation with a usable key size and a
  // cipher without a '-'. That holds under every fault plan.
  lemma StagePanicsExactly(h: Host, devices: Devices, req: StageRequest, faults: FaultPlan)
    requires Sound(h)
    ensures Stage(h, devices, req, faults).1 == Failure(Panicked) <==>
      && StageTarget(devices, req, faults).Good? && StagesMapper(req)
      && ReachesDevice(h, req.staging, faults) && At(faults, Blkid) == Fine
      && h.On(StageTarget(devices, req, faults).value) == BLANK
      && Unsplittable(LuksContextOf(req.secrets, req.volumeContext))
  {
    var target := StageTarget(devices, req, faults);
    if target.Good? {
      var dev, ready := target.value, WithPath(h, req.staging);
      ReachedDevice(h, dev, req, req.access.value, faults);
      assert ready.On(dev) == h.On(dev);
      MountPanicsExactly(ready, dev, req, req.access.value, faults);
    } else {
      NoPanicWithoutTarget(devices, req, faults);
    }
  }

  lemma NoPanicWithoutTarget(devices: Devices, req: StageRequest, faults: FaultPlan)
    ensures StageTarget(devices, req, faults) != Stop(Panicked)
  {
  }
}
