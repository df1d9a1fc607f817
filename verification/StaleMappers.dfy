/**
 What a mapper left open by NodeUnstage does to the next volume of the same name. The
 discipline under which staged data is a volume's own asks for equal names; this module
 shows that nothing less will do.
 */
module StaleMappers {
  import opened GoText
  import opened Faults
  import opened VolumeKeys
  import opened LuksContexts
  import opened NodeSpec
  import opened NodeRuns
  import opened NodeRetry
  import DevicePaths

  function LuksOf(req: StageRequest): LuksContext {
    LuksContextOf(req.secrets, req.volumeContext)
  }

  ghost predicate Ready(h: Host, devices: Devices, req: StageRequest, dev: int) {
    && Sound(h) && StagesMapper(req) && Usable(LuksOf(req))
    && Target(devices, req) == Some(dev) && req.staging !in h.mounts
  }

  lemma MountIsStage(h: Host, devices: Devices, req: StageRequest, dev: int)
    requires Ready(h, devices, req, dev)
    ensures Stage(h, devices, req, NO_FAULTS)
      == MountVolume(WithPath(h, req.staging), dev, req, req.access.value, NO_FAULTS)
    ensures WithPath(h, req.staging).On(dev) == h.On(dev)
  {
    CleanStageDevice(h, dev, req, req.access.value);
  }

  // A blank device under a free name.
  lemma FirstStage(h: Host, devices: Devices, req: StageRequest, dev: int)
    requires Ready(h, devices, req, dev) && h.On(dev) == BLANK && MapperName(req) !in h.mappers
    ensures var (h', reply), fsType := Stage(h, devices, req, NO_FAULTS), FsType(req.access.value);
      && reply == Success
      && h'.mappers == h.mappers[MapperName(req) := dev]
      && h'.mounts == h.mounts[req.staging := Mount(Mapper(MapperName(req)), fsType, MountOptions(req.access.value))]
      && h'.On(dev) == Luks(Some(LuksOf(req).key), Formatted(fsType))
      && forall d :: d != dev ==> h'.On(d) == h.On(d)
  {
    MountIsStage(h, devices, req, dev);
    CleanLuksStageOfBlank(WithPath(h, req.staging), LuksOf(req), dev, req, req.access.value);
  }

  // A blank device under a taken name is formatted all the same, and then fails.
  lemma TakenNameFails(h: Host, devices: Devices, req: StageRequest, dev: int)
    requires Ready(h, devices, req, dev) && h.On(dev) == BLANK && MapperName(req) in h.mappers
    ensures Stage(h, devices, req, NO_FAULTS)
      == (WithHeader(WithPath(h, req.staging), dev, Some(LuksOf(req).key)), Failure(Internal))
  {
    MountIsStage(h, devices, req, dev);
    KeyAddedIsHeader(WithPath(h, req.staging), dev, LuksOf(req).key);
  }

  // The retry finds a header, takes the name for its own mapper, and mounts whatever file
  // system of the right type lies behind it.
  lemma TakenNameIsTrusted(h: Host, devices: Devices, req: StageRequest, dev: int)
    requires Ready(h, devices, req, dev) && h.On(dev).Luks? && MapperName(req) in h.mappers
    requires h.On(h.mappers[MapperName(req)]).plain == Formatted(FsType(req.access.value))
    ensures var (h', reply) := Stage(h, devices, req, NO_FAULTS);
      && reply == Success
      && h'.mappers == h.mappers && h'.disks == h.disks
      && h'.mounts == h.mounts[req.staging :=
           Mount(Mapper(MapperName(req)), FsType(req.access.value), MountOptions(req.access.value))]
  {
    MountIsStage(h, devices, req, dev);
    var ready, name := WithPath(h, req.staging), MapperName(req);
    assert FormatLuksVolume(ready, LuksOf(req), dev, NO_FAULTS) == (ready, Good(Mapper(name)));
    assert ready.On(ready.mappers[name]) == h.On(h.mappers[name]);
  }

  // A node that sees one volume of a label, by the first of its two paths.
  function Sees(prefix: string, name: string, v: int): Devices {
    map[DevicePaths.ByIdPaths(LabelFor(prefix, name), "")[0] := v]
  }

  // The stage request for a volume created under a name.
  function RequestFor(
    prefix: string, name: string, parameters: map<string, string>, region: string, secrets: map<string, string>,
    access: Access, v: int, staging: string): StageRequest
  {
    StageRequest(VolumeKey(v, LabelFor(prefix, name)).Print(), staging, Some(access),
      ContextFor(name, parameters, region), secrets)
  }

  lemma TargetOfCreated(
    prefix: string, name: string, parameters: map<string, string>, region: string, secrets: map<string, string>,
    access: Access, v: int, staging: string)
    requires 0 <= v <= MAX_INT && staging != ""
    ensures Target(Sees(prefix, name, v), RequestFor(prefix, name, parameters, region, secrets, access, v, staging)) == Some(v)
  {
    var req := RequestFor(prefix, name, parameters, region, secrets, access, v, staging);
    CreatedVolumeIsSoughtByLabel(req, prefix, name, parameters, region, v, Sees(prefix, name, v), NO_FAULTS);
    var paths := DevicePaths.ByIdPaths(LabelFor(prefix, name), "");
    assert StatOf(Sees(prefix, name, v), NO_FAULTS)(paths[0]) == DevicePaths.Present;
  }

  const NEW_HOST: Host := Host({}, map[], map[], map[], [])

  lemma StageAndUnstage(devices: Devices, req: StageRequest, u: int, suffix: string) returns (h2: Host)
    requires Ready(NEW_HOST, devices, req, u) && req.staging != "" && MountSource(req.volumeId) == Some(suffix)
    ensures var (h1, r1) := Stage(NEW_HOST, devices, req, NO_FAULTS);
      r1 == Success && Unstage(h1, req.volumeId, req.staging, NO_FAULTS) == (h2, Success)
    ensures Sound(h2) && h2.mounts == map[]
    ensures h2.mappers == if suffix == MapperName(req) then map[] else map[MapperName(req) := u]
    ensures h2.On(u).plain == Formatted(FsType(req.access.value))
    ensures forall d :: d != u ==> h2.On(d) == BLANK
  {
    FirstStage(NEW_HOST, devices, req, u);
    StageKeeps(NEW_HOST, devices, req, NO_FAULTS);
    var h1 := Stage(NEW_HOST, devices, req, NO_FAULTS).0;
    h2 := UnstageStaged(h1, req, u, suffix);
  }

  lemma UnstageStaged(h: Host, req: StageRequest, u: int, suffix: string) returns (h': Host)
    requires Sound(h) && req.staging != "" && MountSource(req.volumeId) == Some(suffix)
    requires h.mappers == map[MapperName(req) := u] && h.mounts.Keys == {req.staging}
    ensures Unstage(h, req.volumeId, req.staging, NO_FAULTS) == (h', Success)
    ensures Sound(h') && h'.mounts == map[]
    ensures h'.mappers == if suffix == MapperName(req) then map[] else map[MapperName(req) := u]
    ensures forall d :: h'.On(d) == h.On(d)
  {
    MountSourceAgrees(req.volumeId);
    CleanUnstage(h, req.volumeId, req.staging);
    UnstageKeeps(h, req.volumeId, req.staging, NO_FAULTS);
    h' := Unstage(h, req.volumeId, req.staging, NO_FAULTS).0;
    SameDisks(h, h');
  }

  // The four calls, and what their answers and the last host are.
  ghost predicate EndsOn(devicesU: Devices, reqU: StageRequest, devicesV: Devices, reqV: StageRequest, h: Host, again: bool) {
    var (h1, r1) := Stage(NEW_HOST, devicesU, reqU, NO_FAULTS);
    var (h2, r2) := Unstage(h1, reqU.volumeId, reqU.staging, NO_FAULTS);
    var (h3, r3) := Stage(h2, devicesV, reqV, NO_FAULTS);
    && r1 == Success && r2 == Success && (r3 == Success <==> !again)
    && Stage(h3, devicesV, reqV, NO_FAULTS) == (h, Success)
  }

  // Stage u and unstage it; delete it, create v under the same name, stage v and retry.
  // Every call is free of faults. What ends up mounted for v is v's own device exactly when
  // the label equals the name; otherwise it is u's, under a success.
  lemma OldVolumeUnderNewName(
    prefix: string, name: string, parameters: map<string, string>, region: string, secrets: map<string, string>,
    access: Access, u: int, v: int, stagingU: string, stagingV: string)
    returns (h: Host)
    requires 0 <= u <= MAX_INT && 0 <= v <= MAX_INT && u != v && stagingU != "" && stagingV != ""
    requires Lookup(parameters, LUKS_ENCRYPTED) == TRUE && access.Filesystem?
    requires Usable(LuksContextOf(secrets, ContextFor(name, parameters, region)))
    ensures EndsOn(
      Sees(prefix, name, u), RequestFor(prefix, name, parameters, region, secrets, access, u, stagingU),
      Sees(prefix, name, v), RequestFor(prefix, name, parameters, region, secrets, access, v, stagingV),
      h, LabelFor(prefix, name) != name)
    ensures stagingV in h.mounts
    ensures DeviceOf(h, h.mounts[stagingV].source) == Some(if LabelFor(prefix, name) == name then v else u)
  {
    var reqU := RequestFor(prefix, name, parameters, region, secrets, access, u, stagingU);
    var reqV := RequestFor(prefix, name, parameters, region, secrets, access, v, stagingV);
    TargetOfCreated(prefix, name, parameters, region, secrets, access, u, stagingU);
    TargetOfCreated(prefix, name, parameters, region, secrets, access, v, stagingV);
    CreatedNames(reqU, prefix, name, parameters, region, u);
    CreatedNames(reqV, prefix, name, parameters, region, v);
    h := OldUnderNew(Sees(prefix, name, u), reqU, Sees(prefix, name, v), reqV, u, v, LabelFor(prefix, name), name);
  }

  lemma OldUnderNew(
    devicesU: Devices, reqU: StageRequest, devicesV: Devices, reqV: StageRequest, u: int, v: int, suffix: string, name: string)
    returns (h: Host)
    requires Ready(NEW_HOST, devicesU, reqU, u) && Ready(NEW_HOST, devicesV, reqV, v) && u != v
    requires reqU.staging != "" && MountSource(reqU.volumeId) == Some(suffix)
    requires MapperName(reqU) == name && MapperName(reqV) == name
    requires FsType(reqU.access.value) == FsType(reqV.access.value)
    ensures EndsOn(devicesU, reqU, devicesV, reqV, h, suffix != name)
    ensures reqV.staging in h.mounts
    ensures DeviceOf(h, h.mounts[reqV.staging].source) == Some(if suffix == name then v else u)
  {
    var h2 := StageAndUnstage(devicesU, reqU, u, suffix);
    h := StageTwice(h2, devicesV, reqV, u, v);
  }

  lemma StageTwice(h: Host, devices: Devices, req: StageRequest, u: int, v: int) returns (h': Host)
    requires Ready(h, devices, req, v) && u != v && h.On(v) == BLANK && h.mounts == map[]
    requires h.mappers == map[] || h.mappers == map[MapperName(req) := u]
    requires h.On(u).plain == Formatted(FsType(req.access.value))
    ensures
      var (h1, r1) := Stage(h, devices, req, NO_FAULTS);
      && Stage(h1, devices, req, NO_FAULTS) == (h', Success)
      && (r1 == Success <==> h.mappers == map[])
    ensures req.staging in h'.mounts
    ensures DeviceOf(h', h'.mounts[req.staging].source) == Some(if h.mappers == map[] then v else u)
  {
    var h1 := Stage(h, devices, req, NO_FAULTS).0;
    StageKeeps(h, devices, req, NO_FAULTS);
    if h.mappers == map[] {
      FirstStage(h, devices, req, v);
      CleanStageDevice(h1, v, req, req.access.value);
      h' := h1;
    } else {
      assert MapperName(req) in h.mappers;
      TakenNameFails(h, devices, req, v);
      assert h1.On(u) == h.On(u);
      TakenNameIsTrusted(h1, devices, req, v);
      h' := Stage(h1, devices, req, NO_FAULTS).0;
    }
  }
}
