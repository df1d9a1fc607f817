/**
 What node operations keep, over whole runs and any faults: data is never overwritten,
 LUKS Format happens at most once per device, mounts rest on live mappers.
 */
module NodeRuns {
  import opened GoText
  import opened Faults
  import opened VolumeKeys
  import opened LuksContexts
  import opened NodeSpec

  datatype Op =
    | StageOp(devices: Devices, stage: StageRequest)
    | UnstageOp(volumeId: string, staging: string)
    | PublishOp(publish: PublishRequest)
    | UnpublishOp(volumeId: string, target: string)

  datatype Call = Call(op: Op, faults: FaultPlan)

  function Exec(h: Host, call: Call): (Host, Reply) {
    match call.op
    case StageOp(devices, req) => Stage(h, devices, req, call.faults)
    case UnstageOp(volumeId, staging) => Unstage(h, volumeId, staging, call.faults)
    case PublishOp(req) => Publish(h, req, call.faults)
    case UnpublishOp(volumeId, target) => Unpublish(h, volumeId, target, call.faults)
  }

  ghost predicate Run(trace: seq<Host>, calls: seq<Call>) {
    && |trace| == |calls| + 1
    && forall i :: 0 <= i < |calls| ==> trace[i + 1] == Exec(trace[i], calls[i]).0
  }

  // A blank device may become anything; after that its header and its file system stay.
  ghost predicate Grows(before: Content, after: Content) {
    || before == BLANK
    || before == after
    || (before.Luks? && after.Luks? && after.key == before.key && before.plain == Empty)
  }

  ghost predicate DisksGrow(h: Host, h': Host) {
    forall dev :: Grows(h.On(dev), h'.On(dev))
  }

  // One more LUKS Format at most, of a device that was blank and now carries a header.
  ghost predicate FormatsOne(h: Host, h': Host) {
    || h'.formats == h.formats
    || exists dev :: h'.formats == h.formats + [dev] && h.On(dev) == BLANK && h'.On(dev).Luks?
  }

  // A new mapper is opened only under a free name and over a device with a keyslot.
  ghost predicate MappersGrow(h: Host, h': Host) {
    forall name :: name in h'.mappers ==>
      if name in h.mappers then h'.mappers[name] == h.mappers[name]
      else h'.On(h'.mappers[name]).Luks? && h'.On(h'.mappers[name]).key.Some?
  }

  // Mount points exist, mounted mappers are active, and active mappers have a keyslot.
  ghost predicate Sound(h: Host) {
    && h.mounts.Keys <= h.paths
    && (forall path :: path in h.mounts && h.mounts[path].source.Mapper? ==> h.mounts[path].source.name in h.mappers)
    && forall name :: name in h.mappers ==> h.On(h.mappers[name]).Luks? && h.On(h.mappers[name]).key.Some?
  }

  ghost predicate Keeps(h: Host, h': Host) {
    && DisksGrow(h, h') && FormatsOne(h, h') && MappersGrow(h, h')
    && (Sound(h) ==> Sound(h'))
  }

  lemma EnsureMountPointKeeps(h: Host, path: string, faults: FaultPlan)
    ensures Keeps(h, EnsureMountPoint(h, path, faults).0)
    ensures EnsureMountPoint(h, path, faults).1.Good? ==> path in EnsureMountPoint(h, path, faults).0.paths
    ensures EnsureMountPoint(h, path, faults).0 in {h, h.(paths := h.paths + {path})}
  {
  }

  // A blank device with a fresh header, with or without its keyslot.
  function WithHeader(h: Host, dev: int, key: Option<string>): Host {
    h.(disks := h.disks[dev := Luks(key, Empty)], formats := h.formats + [dev])
  }

  function WithMapper(h: Host, name: string, dev: int): Host {
    h.(mappers := h.mappers[name := dev])
  }

  lemma WithHeaderKeeps(h: Host, dev: int, key: Option<string>)
    requires h.On(dev) == BLANK
    ensures Keeps(h, WithHeader(h, dev, key))
  {
    var h' := WithHeader(h, dev, key);
    assert h'.formats == h.formats + [dev] && h'.On(dev).Luks?;
    forall d
      ensures h'.On(d) == if d == dev then Luks(key, Empty) else h.On(d)
    {
    }
  }

  lemma WithMapperKeeps(h: Host, name: string, dev: int)
    requires name !in h.mappers && h.On(dev).Luks? && h.On(dev).key.Some?
    ensures Keeps(h, WithMapper(h, name, dev))
  {
    var h' := WithMapper(h, name, dev);
    forall d
      ensures h'.On(d) == h.On(d)
    {
    }
  }

  lemma HeaderThenMapperKeeps(h: Host, dev: int, key: string, name: string)
    requires h.On(dev) == BLANK && name !in h.mappers
    ensures Keeps(h, WithMapper(WithHeader(h, dev, Some(key)), name, dev))
  {
    var h1 := WithHeader(h, dev, Some(key));
    var h' := WithMapper(h1, name, dev);
    WithHeaderKeeps(h, dev, Some(key));
    WithMapperKeeps(h1, name, dev);
    forall d
      ensures h'.On(d) == h1.On(d)
    {
    }
    assert h'.formats == h.formats + [dev] && h'.On(dev).Luks?;
  }

  // The hosts luksFormat can leave behind, and what each of them means for the caller.
  lemma LuksFormatShape(h: Host, luks: LuksContext, dev: int, faults: FaultPlan)
    ensures var (h', source), name := LuksFormat(h, luks, dev, faults), luks.volumeName;
      var open := WithMapper(WithHeader(h, dev, Some(luks.key)), name, dev);
      && (h' == h || h' == WithHeader(h, dev, None) || h' == WithHeader(h, dev, Some(luks.key))
          || (h' == open && name !in h.mappers))
      && (source.Good? ==> h' == open && name !in h.mappers && source.value == Mapper(name))
      && (h' != h ==> Atoi(luks.keySize).Some? && Cut(luks.cipher).Some?)
  {
    KeyAddedIsHeader(h, dev, luks.key);
    if At(faults, CryptFormat) != Fine || At(faults, KeyslotAdd) != Fine {
      return;
    }
    ActivateShape(WithHeader(h, dev, Some(luks.key)), luks.volumeName, dev, luks.key, At(faults, Activation));
  }

  lemma KeyAddedIsHeader(h: Host, dev: int, key: string)
    ensures LuksFormatted(h, dev) == WithHeader(h, dev, None)
    ensures KeyAdded(LuksFormatted(h, dev), dev, key) == WithHeader(h, dev, Some(key))
  {
    var h1 := LuksFormatted(h, dev);
    assert h1.disks[dev := Luks(Some(key), Empty)] == h.disks[dev := Luks(Some(key), Empty)];
  }

  lemma ActivateShape(h: Host, name: string, dev: int, passphrase: string, fault: Fault)
    ensures var (h', r) := Activate(h, name, dev, passphrase, fault);
      && (h' == h || (h' == WithMapper(h, name, dev) && name !in h.mappers && h.On(dev).Luks? && h.On(dev).key == Some(passphrase)))
      && (r.Active? ==> h' == WithMapper(h, name, dev) && name !in h.mappers)
      && (r.NameTaken? ==> h' == h && name in h.mappers)
  {
  }

  lemma LuksOpenShape(h: Host, luks: LuksContext, dev: int, faults: FaultPlan)
    ensures var (h', source), name := LuksOpen(h, luks, dev, faults), luks.volumeName;
      && (h' == h || (h' == WithMapper(h, name, dev) && name !in h.mappers
          && h.On(dev).Luks? && h.On(dev).key == Some(luks.key)))
      && (source.Good? ==> source.value == Mapper(name) && name in h'.mappers && h.On(dev).Luks?)
  {
    ActivateShape(h, luks.volumeName, dev, luks.key, At(faults, Activation));
  }

  lemma FormatLuksVolumeKeeps(h: Host, luks: LuksContext, dev: int, faults: FaultPlan)
    ensures var (h', source) := FormatLuksVolume(h, luks, dev, faults);
      && Keeps(h, h') && h'.paths == h.paths && h'.mounts == h.mounts
      && (source.Good? ==> source.value == Mapper(luks.volumeName) && luks.volumeName in h'.mappers)
  {
    var h' := FormatLuksVolume(h, luks, dev, faults).0;
    if h' != h {
      if h.On(dev) == BLANK {
        LuksFormatKeeps(h, luks, dev, faults);
      } else {
        LuksOpenShape(h, luks, dev, faults);
        WithMapperKeeps(h, luks.volumeName, dev);
      }
    }
  }

  lemma LuksFormatKeeps(h: Host, luks: LuksContext, dev: int, faults: FaultPlan)
    requires h.On(dev) == BLANK
    ensures var (h', source) := LuksFormat(h, luks, dev, faults);
      && (h' == h || Keeps(h, h')) && h'.paths == h.paths && h'.mounts == h.mounts
      && (source.Good? ==> source.value == Mapper(luks.volumeName) && luks.volumeName in h'.mappers)
  {
    LuksFormatShape(h, luks, dev, faults);
    WithHeaderKeeps(h, dev, None);
    WithHeaderKeeps(h, dev, Some(luks.key));
    if luks.volumeName !in h.mappers {
      HeaderThenMapperKeeps(h, dev, luks.key, luks.volumeName);
    }
  }

  lemma MkfsedKeeps(h: Host, source: Source, fsType: string)
    requires Exposed(h, source) == Some(Empty)
    ensures var h' := Mkfsed(h, source, fsType);
      && h'.paths == h.paths && h'.mounts == h.mounts && h'.mappers == h.mappers && h'.formats == h.formats
      && DisksGrow(h, h')
      && (forall d :: h'.On(d).Luks? == h.On(d).Luks? && (h.On(d).Luks? ==> h'.On(d).key == h.On(d).key))
      && Exposed(h', source) == Some(Formatted(fsType))
  {
    var dev := DeviceOf(h, source).value;
    forall d
      ensures Mkfsed(h, source, fsType).On(d) == if d == dev then h.On(d).(plain := Formatted(fsType)) else h.On(d)
    {
    }
  }

  lemma FormatAndMountShape(
    h: Host, source: Source, target: string, fsType: string, options: seq<string>, faults: FaultPlan)
    ensures var (h', reply) := FormatAndMount(h, source, target, fsType, options, faults);
      var made := if Exposed(h, source) == Some(Empty) then Mkfsed(h, source, fsType) else h;
      var mounted := made.(mounts := made.mounts[target := Mount(source, fsType, options)]);
      && (h' == h || h' == made
          || (h' == mounted && Exposed(made, source) == Some(Formatted(fsType)) && DeviceOf(h, source).Some?))
      && (reply.Success? ==> h' == mounted && Exposed(made, source) == Some(Formatted(fsType)))
  {
    if Exposed(h, source) == Some(Empty) {
      MkfsedKeeps(h, source, fsType);
    }
  }

  lemma FormatAndMountKeeps(
    h: Host, source: Source, target: string, fsType: string, options: seq<string>, faults: FaultPlan)
    requires target in h.paths && !source.Directory?
    ensures var h' := FormatAndMount(h, source, target, fsType, options, faults).0;
      && Keeps(h, h') && h'.formats == h.formats && h'.mappers == h.mappers && h'.paths == h.paths
      && h.mounts.Keys <= h'.mounts.Keys <= h.mounts.Keys + {target}
  {
    FormatAndMountShape(h, source, target, fsType, options, faults);
    if Exposed(h, source) == Some(Empty) {
      MkfsedKeeps(h, source, fsType);
    }
  }

  lemma MountVolumeKeeps(h: Host, dev: int, req: StageRequest, access: Access, faults: FaultPlan)
    requires req.staging in h.paths
    ensures var h' := MountVolume(h, dev, req, access, faults).0;
      Keeps(h, h') && h'.paths == h.paths && h'.mounts.Keys <= h.mounts.Keys + {req.staging}
  {
    var luks := LuksContextOf(req.secrets, req.volumeContext);
    var (h1, source) := if luks.enabled then FormatLuksVolume(h, luks, dev, faults) else (h, Good(Device(dev)));
    if luks.enabled {
      FormatLuksVolumeKeeps(h, luks, dev, faults);
    }
    if source.Good? {
      FormatAndMountKeeps(h1, source.value, req.staging, FsType(access), MountOptions(access), faults);
      var h' := MountVolume(h, dev, req, access, faults).0;
      KeepsThen(h, h1, h');
    }
  }

  // A step that keeps everything, then one that also formats nothing.
  lemma KeepsThen(a: Host, b: Host, c: Host)
    requires Keeps(a, b) && Keeps(b, c) && c.formats == b.formats && c.mappers == b.mappers
    ensures Keeps(a, c)
  {
    forall dev
      ensures Grows(a.On(dev), c.On(dev))
    {
      assert Grows(a.On(dev), b.On(dev)) && Grows(b.On(dev), c.On(dev));
    }
    if b.formats != a.formats {
      var dev :| b.formats == a.formats + [dev] && a.On(dev) == BLANK && b.On(dev).Luks?;
      assert Grows(b.On(dev), c.On(dev));
      assert c.formats == a.formats + [dev] && c.On(dev).Luks?;
    }
    forall name | name in c.mappers
      ensures if name in a.mappers then c.mappers[name] == a.mappers[name]
              else c.On(c.mappers[name]).Luks? && c.On(c.mappers[name]).key.Some?
    {
      assert Grows(b.On(b.mappers[name]), c.On(b.mappers[name]));
    }
  }

  // Staging as a whole: nothing is overwritten, at most one blank device gets a header.
  lemma StageKeeps(h: Host, devices: Devices, req: StageRequest, faults: FaultPlan)
    ensures var h' := Stage(h, devices, req, faults).0;
      Keeps(h, h') && h.paths <= h'.paths && h'.mounts.Keys <= h.mounts.Keys + {req.staging}
  {
    var target := StageTarget(devices, req, faults);
    if target.Good? {
      EnsureMountPointKeeps(h, req.staging, faults);
      var (h1, notMount) := EnsureMountPoint(h, req.staging, faults);
      if notMount == Good(true) && req.access.value.Filesystem? {
        MountVolumeKeeps(h1, target.value, req, req.access.value, faults);
        PathThenKeeps(h, h1, MountVolume(h1, target.value, req, req.access.value, faults).0);
      }
    }
  }

  lemma PathThenKeeps(a: Host, b: Host, c: Host)
    requires Keeps(a, b) && Keeps(b, c) && b.formats == a.formats && b.mappers == a.mappers && b.disks == a.disks
    ensures Keeps(a, c)
  {
    forall dev
      ensures b.On(dev) == a.On(dev)
    {
    }
  }

  lemma CleanupKeeps(h: Host, path: string, faults: FaultPlan)
    ensures var (h', ok) := Cleanup(h, path, faults);
      && Keeps(h, h') && h'.mounts.Keys <= h.mounts.Keys && h'.mappers == h.mappers && h'.disks == h.disks
      && (Sound(h) && ok ==> path !in h'.mounts && path !in h'.paths)
  {
    CleanupShape(h, path, faults);
    SameDisks(h, Cleanup(h, path, faults).0);
  }

  lemma CleanupShape(h: Host, path: string, faults: FaultPlan)
    ensures var (h', ok) := Cleanup(h, path, faults);
      var unmounted := h.(mounts := h.mounts - {path});
      var removed := unmounted.(paths := unmounted.paths - {path});
      && (h' == h || h' == unmounted || h' == removed || (path !in h.mounts && h' == h.(paths := h.paths - {path})))
      && (ok && path in h.paths ==> path !in h'.paths && path !in h'.mounts)
      && (ok && path !in h.paths ==> h' == h)
  {
  }

  lemma SameDisks(h: Host, h': Host)
    requires h'.disks == h.disks
    ensures forall d :: h'.On(d) == h.On(d)
    ensures DisksGrow(h, h')
  {
  }

  lemma LuksCloseKeeps(h: Host, name: string, faults: FaultPlan)
    ensures var h' := LuksClose(h, name, faults).0;
      && Keeps(h, h') && h'.mounts == h.mounts && h'.paths == h.paths && h'.disks == h.disks
  {
    SameDisks(h, LuksClose(h, name, faults).0);
  }

  lemma UnstageKeeps(h: Host, volumeId: string, staging: string, faults: FaultPlan)
    ensures var h' := Unstage(h, volumeId, staging, faults).0;
      Keeps(h, h') && h'.mounts.Keys <= h.mounts.Keys && h'.disks == h.disks && h'.formats == h.formats
  {
    CleanupKeeps(h, staging, faults);
    var h1 := Cleanup(h, staging, faults).0;
    if MountSource(volumeId).Some? {
      LuksCloseKeeps(h1, MountSource(volumeId).value, faults);
      var h2 := LuksClose(h1, MountSource(volumeId).value, faults).0;
      assert h2.mappers.Keys <= h1.mappers.Keys;
      forall d
        ensures h2.On(d) == h1.On(d) == h.On(d)
      {
      }
    }
  }

  lemma PublishKeeps(h: Host, req: PublishRequest, faults: FaultPlan)
    ensures var h' := Publish(h, req, faults).0;
      Keeps(h, h') && h'.mappers == h.mappers && h'.disks == h.disks && h'.formats == h.formats
  {
    PublishShape(h, req, faults);
    SameDisks(h, Publish(h, req, faults).0);
  }

  lemma PublishShape(h: Host, req: PublishRequest, faults: FaultPlan)
    ensures var h', ready := Publish(h, req, faults).0, h.(paths := h.paths + {req.target});
      || h' == h
      || h' == ready
      || exists m :: h' == ready.(mounts := ready.mounts[req.target := m])
           && (m.source.Directory? || (req.staging in h.mounts && m.source == h.mounts[req.staging].source))
  {
    assert req.target in h.paths ==> h.paths + {req.target} == h.paths;
  }

  lemma StepKeeps(h: Host, call: Call)
    ensures Keeps(h, Exec(h, call).0)
  {
    match call.op
    case StageOp(devices, req) => StageKeeps(h, devices, req, call.faults);
    case UnstageOp(volumeId, staging) => UnstageKeeps(h, volumeId, staging, call.faults);
    case PublishOp(req) => PublishKeeps(h, req, call.faults);
    case UnpublishOp(volumeId, target) => CleanupKeeps(h, target, call.faults);
  }

  // ----- Over runs

  lemma {:induction false} SoundnessStays(trace: seq<Host>, calls: seq<Call>, i: nat)
    requires Run(trace, calls) && i < |trace| && Sound(trace[0])
    ensures Sound(trace[i])
  {
    if i > 0 {
      SoundnessStays(trace, calls, i - 1);
      StepKeeps(trace[i - 1], calls[i - 1]);
    }
  }

  // Nothing a device carries is ever lost: once it has a header or a file system, every
  // later content extends it.
  lemma {:induction false} DataIsNeverOverwritten(trace: seq<Host>, calls: seq<Call>, dev: int, i: nat, j: nat)
    requires Run(trace, calls) && i <= j < |trace|
    ensures Grows(trace[i].On(dev), trace[j].On(dev))
  {
    RunKeeps(trace, calls);
    KeptDataGrows(trace, dev, i, j);
  }

  ghost predicate Kept(trace: seq<Host>) {
    forall i :: 0 <= i < |trace| - 1 ==> Keeps(trace[i], trace[i + 1])
  }

  lemma RunKeeps(trace: seq<Host>, calls: seq<Call>)
    requires Run(trace, calls)
    ensures Kept(trace)
  {
    forall i | 0 <= i < |trace| - 1
      ensures Keeps(trace[i], trace[i + 1])
    {
      StepKeeps(trace[i], calls[i]);
    }
  }

  lemma {:induction false} KeptDataGrows(trace: seq<Host>, dev: int, i: nat, j: nat)
    requires Kept(trace) && i <= j < |trace|
    ensures Grows(trace[i].On(dev), trace[j].On(dev))
  {
    if i < j {
      KeptDataGrows(trace, dev, i, j - 1);
      assert Keeps(trace[j - 1], trace[j - 1 + 1]);
      assert Grows(trace[j - 1].On(dev), trace[j].On(dev));
    }
  }

  ghost predicate Distinct(s: seq<int>) {
    forall i, j :: 0 <= i < j < |s| ==> s[i] != s[j]
  }

  // LUKS Format reaches a device at most once over any run, and never one that carried
  // any signature when the run began.
  lemma {:induction false} FormatAtMostOnce(trace: seq<Host>, calls: seq<Call>, i: nat)
    requires Run(trace, calls) && i < |trace| && trace[0].formats == []
    ensures Distinct(trace[i].formats)
    ensures forall dev :: dev in trace[i].formats ==> trace[0].On(dev) == BLANK && trace[i].On(dev).Luks?
  {
    if i > 0 {
      FormatAtMostOnce(trace, calls, i - 1);
      var before, after := trace[i - 1], trace[i];
      StepKeeps(before, calls[i - 1]);
      forall dev | dev in after.formats
        ensures trace[0].On(dev) == BLANK && after.On(dev).Luks?
      {
        assert Grows(before.On(dev), after.On(dev));
        DataIsNeverOverwritten(trace, calls, dev, 0, i - 1);
        if dev !in before.formats {
          assert after.formats != before.formats;
        }
      }
    }
  }
}
