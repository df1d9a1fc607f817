/**
 From a create on the controller to a stage on a node: what the answer to a create makes
 the node agent do, whatever faults the create went through.
 */
module EndToEnd {
  import opened GoText
  import opened VolumeKeys
  import opened LuksContexts
  import Cloud
  import Spec = ControllerSpec
  import ControllerRuns
  import ControllerRetry
  import opened NodeSpec
  import opened NodeRuns
  import opened NodeRetry
  import DevicePaths

  // The stage request carries the id and the context a create answered with.
  ghost predicate Carries(req: StageRequest, response: Spec.CreateResponse) {
    req.volumeId == response.volumeId && req.volumeContext == response.volumeContext
  }

  ghost predicate Answers(
    cfg: Spec.Config, s: Cloud.Store, create: Spec.CreateRequest, newId: int, faults: Cloud.FaultPlan,
    response: Spec.CreateResponse)
  {
    && ControllerRuns.Legal(s, Spec.CreateVolume(create, newId)) && ControllerRetry.IdsInRange(s)
    && Spec.CreateEffect(cfg, s, create, newId, faults).1 == Spec.Created(response)
  }

  // The answer in the terms the node agent's lemmas use.
  lemma AnswerIsNamed(
    cfg: Spec.Config, s: Cloud.Store, create: Spec.CreateRequest, newId: int, faults: Cloud.FaultPlan,
    response: Spec.CreateResponse)
    returns (v: int)
    requires Answers(cfg, s, create, newId, faults, response)
    ensures 0 <= v <= MAX_INT
    ensures v in Spec.CreateEffect(cfg, s, create, newId, faults).0.volumes
    ensures response.volumeId == VolumeKey(v, LabelFor(cfg.prefix, create.name)).Print()
    ensures response.volumeContext == ContextFor(create.name, create.parameters, response.region)
  {
    v := ControllerRetry.CreatedIsNamed(cfg, s, create, newId, faults, response);
    ControllerRuns.ParamsAreSound(cfg, s, create, faults);
  }

  // Stage, then unstage, a volume of this driver: the mount table comes back, and the
  // mapper table exactly when no encryption was asked for, access is raw, or prefix and
  // name leave the label equal to the name.
  lemma CreatedThenStagedThenUnstaged(
    cfg: Spec.Config, s: Cloud.Store, create: Spec.CreateRequest, newId: int, createFaults: Cloud.FaultPlan,
    response: Spec.CreateResponse, h: Host, devices: Devices, req: StageRequest, faults: FaultPlan)
    requires Answers(cfg, s, create, newId, createFaults, response) && Carries(req, response)
    requires Sound(h) && Unstaged(h, req)
    ensures var (h1, staged) := Stage(h, devices, req, faults);
      var (h2, unstaged) := Unstage(h1, req.volumeId, req.staging, NO_FAULTS);
      staged == Success ==>
        && unstaged == Success && h2.mounts == h.mounts && req.access.Some?
        && (h2.mappers == h.mappers <==>
            || req.access.value.Block?
            || Lookup(create.parameters, LUKS_ENCRYPTED) != TRUE
            || (|create.name| <= LABEL_LENGTH
                && (cfg.prefix == "" || (|create.name| == LABEL_LENGTH && create.name <= cfg.prefix + create.name))))
  {
    var v := AnswerIsNamed(cfg, s, create, newId, createFaults, response);
    if Stage(h, devices, req, faults).1.Success? {
      StageThenUnstageOfCreated(h, devices, req, faults, cfg.prefix, create.name, create.parameters, response.region, v);
    }
  }

  // The device is looked for under exactly the two by-id paths of the label the volume was
  // created under.
  lemma CreatedIsSoughtByLabel(
    cfg: Spec.Config, s: Cloud.Store, create: Spec.CreateRequest, newId: int, createFaults: Cloud.FaultPlan,
    response: Spec.CreateResponse, devices: Devices, req: StageRequest, faults: FaultPlan)
    requires Answers(cfg, s, create, newId, createFaults, response) && Carries(req, response)
    requires req.staging != "" && req.access.Some?
    ensures var paths := DevicePaths.ByIdPaths(LabelFor(cfg.prefix, create.name), "");
      match DevicePaths.FirstExisting(paths, StatOf(devices, faults))
      case Found(path) => path in paths && path in devices && StageTarget(devices, req, faults) == Good(devices[path])
      case NoneExists => StageTarget(devices, req, faults) == Stop(Internal)
        && paths[0] !in devices && paths[1] !in devices
      case SearchFailed => StageTarget(devices, req, faults) == Stop(Internal)
  {
    var v := AnswerIsNamed(cfg, s, create, newId, createFaults, response);
    CreatedVolumeIsSoughtByLabel(req, cfg.prefix, create.name, create.parameters, response.region, v, devices, faults);
  }

  // A stage of it asks for LUKS exactly when the create did, under the requested name.
  lemma CreatedIsStagedEncrypted(
    cfg: Spec.Config, s: Cloud.Store, create: Spec.CreateRequest, newId: int, createFaults: Cloud.FaultPlan,
    response: Spec.CreateResponse, h: Host, devices: Devices, req: StageRequest, faults: FaultPlan)
    requires Answers(cfg, s, create, newId, createFaults, response) && Carries(req, response)
    requires Sound(h) && Unstaged(h, req) && req.access.Some? && req.access.value.Filesystem?
    ensures var (h1, staged) := Stage(h, devices, req, faults);
      staged == Success ==>
        && Target(devices, req).Some?
        && req.staging in h1.mounts
        && h1.mounts[req.staging].source ==
          if Lookup(create.parameters, LUKS_ENCRYPTED) == TRUE then Mapper(create.name)
          else Device(Target(devices, req).value)
  {
    var v := AnswerIsNamed(cfg, s, create, newId, createFaults, response);
    if Stage(h, devices, req, faults).1.Success? {
      CreatedNames(req, cfg.prefix, create.name, create.parameters, response.region, v);
      StagedTables(h, devices, req, faults);
    }
  }
}
