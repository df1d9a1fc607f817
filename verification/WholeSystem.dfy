/**
 Controller, nodes and orchestrator together. The orchestrator keeps one rule: it asks
 for an Unpublish of a volume from a node only when no NodeStage of it there is
 outstanding, that is, after a NodeUnstage that succeeded. A by-id path is present on a
 node only for a volume attached to that node. Everything else is arbitrary: the order of
 calls, which of them fail, and where.
 */
module WholeSystem {
  import opened GoText
  import opened Faults
  import opened VolumeKeys
  import opened LuksContexts
  import Cloud
  import C = ControllerRuns
  import Spec = ControllerSpec
  import N = NodeRuns
  import NodeSpec
  import NodeRetry
  import DevicePaths

  // The tables of one node; disks follow their volumes and are shared.
  datatype Local = Local(paths: set<string>, mounts: map<string, NodeSpec.Mount>, mappers: map<string, int>)

  const EMPTY_LOCAL := Local({}, map[], map[])

  datatype System = System(
    store: Cloud.Store,
    locals: map<int, Local>,
    disks: map<int, NodeSpec.Content>,
    formats: seq<int>,
    claims: set<(int, int)>) // (volume, node) pairs with an outstanding NodeStage
  {
    function LocalAt(n: int): Local {
      if n in locals then locals[n] else EMPTY_LOCAL
    }

    function HostAt(n: int): NodeSpec.Host {
      NodeSpec.Host(LocalAt(n).paths, LocalAt(n).mounts, LocalAt(n).mappers, disks, formats)
    }

    function WithHost(n: int, h: NodeSpec.Host): System {
      this.(locals := locals[n := Local(h.paths, h.mounts, h.mappers)], disks := h.disks, formats := h.formats)
    }
  }

  datatype Event =
    | Controller(call: C.Call)
    | NodeStage(node: int, volume: int, devices: NodeSpec.Devices, req: NodeSpec.StageRequest, faults: NodeSpec.FaultPlan)
    | NodeUnstage(node: int, volume: int, volumeId: string, faults: NodeSpec.FaultPlan)
    | NodeOther(node: int, nodeCall: N.Call)

  // The orchestrator's choice of a staging path for each volume.
  ghost predicate Injective(staging: int -> string) {
    forall u, v :: staging(u) == staging(v) ==> u == v
  }

  ghost predicate AttachedAt(s: Cloud.Store, v: int, n: int) {
    v in s.volumes && s.volumes[v].node == Some(n)
  }

  // Every by-id path on a node belongs to a volume attached to it.
  ghost predicate Backed(s: Cloud.Store, n: int, devices: NodeSpec.Devices) {
    forall path :: path in devices ==>
      AttachedAt(s, devices[path], n)
      && path in DevicePaths.ByIdPaths(s.volumes[devices[path]].volumeLabel, "")
  }

  function KeyOf(s: Cloud.Store, v: int): string
    requires v in s.volumes
  {
    VolumeKey(v, s.volumes[v].volumeLabel).Print()
  }

  ghost predicate Next(cfg: Spec.Config, staging: int -> string, sys: System, e: Event, sys': System) {
    match e
    case Controller(call) =>
      && C.Step(cfg, sys.store, call, sys'.store) && sys' == sys.(store := sys'.store)
      && (forall v, n :: C.Unpublishes(cfg, call.rpc, v, n) ==> (v, n) !in sys.claims)
      && (call.rpc.CreateVolume? ==> DevicePaths.SurvivesCleaning(LabelFor(cfg.prefix, call.rpc.create.name)))
    case NodeStage(n, v, devices, req, faults) =>
      && v in sys.store.volumes && Backed(sys.store, n, devices)
      && req.volumeId == KeyOf(sys.store, v) && req.staging == staging(v) && NodeSpec.Partition(req) == ""
      && sys' == sys.(claims := sys.claims + {(v, n)}).WithHost(n, NodeSpec.Stage(sys.HostAt(n), devices, req, faults).0)
    case NodeUnstage(n, v, volumeId, faults) =>
      && var (h, reply) := NodeSpec.Unstage(sys.HostAt(n), volumeId, staging(v), faults);
        sys' == sys.(claims := if reply.Success? then sys.claims - {(v, n)} else sys.claims).WithHost(n, h)
    case NodeOther(n, nodeCall) =>
      && (nodeCall.op.PublishOp? || nodeCall.op.UnpublishOp?)
      && (forall v :: staging(v) != if nodeCall.op.PublishOp? then nodeCall.op.publish.target else nodeCall.op.target)
      && sys' == sys.WithHost(n, N.Exec(sys.HostAt(n), nodeCall).0)
  }

  ghost predicate History(cfg: Spec.Config, staging: int -> string, trace: seq<System>, events: seq<Event>) {
    && |trace| == |events| + 1
    && forall i :: 0 <= i < |events| ==> Next(cfg, staging, trace[i], events[i], trace[i + 1])
  }

  // ----- The invariant

  ghost predicate StoreOrdered(s: Cloud.Store) {
    && C.LabelsUnique(s)
    && forall v :: v in s.volumes ==>
      0 <= v <= MAX_INT && |s.volumes[v].volumeLabel| <= LABEL_LENGTH && DevicePaths.SurvivesCleaning(s.volumes[v].volumeLabel)
  }

  ghost predicate Staged(staging: int -> string, sys: System, v: int, n: int) {
    staging(v) in sys.LocalAt(n).mounts
  }

  ghost predicate StagedIsAttached(staging: int -> string, sys: System) {
    forall v, n :: Staged(staging, sys, v, n) ==> (v, n) in sys.claims && AttachedAt(sys.store, v, n)
  }

  ghost predicate HostsSound(sys: System) {
    forall n :: N.Sound(sys.HostAt(n))
  }

  ghost predicate FormatsOnce(sys: System) {
    N.Distinct(sys.formats) && forall n, dev :: dev in sys.formats ==> sys.HostAt(n).On(dev).Luks?
  }

  ghost predicate Inv(staging: int -> string, sys: System) {
    StoreOrdered(sys.store) && StagedIsAttached(staging, sys) && HostsSound(sys) && FormatsOnce(sys)
  }

  lemma StoreStaysOrdered(cfg: Spec.Config, s: Cloud.Store, call: C.Call, s': Cloud.Store)
    requires StoreOrdered(s) && C.Step(cfg, s, call, s')
    requires call.rpc.CreateVolume? ==> DevicePaths.SurvivesCleaning(LabelFor(cfg.prefix, call.rpc.create.name))
    ensures StoreOrdered(s')
  {
    C.LabelsStayUnique(cfg, [s, s'], [call], 1);
    C.StepEffect(cfg, s, call, s');
    forall v | v in s'.volumes
      ensures 0 <= v <= MAX_INT && |s'.volumes[v].volumeLabel| <= LABEL_LENGTH
      ensures DevicePaths.SurvivesCleaning(s'.volumes[v].volumeLabel)
    {
      C.KeepsOrFresh(cfg, s, call.rpc, s', v);
    }
  }

  lemma ControllerStep(cfg: Spec.Config, staging: int -> string, sys: System, e: Event, sys': System)
    requires e.Controller? && Next(cfg, staging, sys, e, sys') && Inv(staging, sys)
    ensures Inv(staging, sys')
  {
    StoreStaysOrdered(cfg, sys.store, e.call, sys'.store);
    C.StepEffect(cfg, sys.store, e.call, sys'.store);
    forall v, n | Staged(staging, sys', v, n)
      ensures (v, n) in sys'.claims && AttachedAt(sys'.store, v, n)
    {
      assert Staged(staging, sys, v, n);
      assert v != C.Touched(cfg, sys.store, e.call.rpc) ==> C.Get(sys'.store, v) == C.Get(sys.store, v);
      assert C.Get(sys.store, v) == Some(sys.store.volumes[v]);
    }
    forall n
      ensures sys'.HostAt(n) == sys.HostAt(n)
    {
    }
  }

  // A node step that keeps data leaves every other node's tables as sound as they were.
  lemma HostStep(sys: System, n: int, h: NodeSpec.Host, sys': System)
    requires HostsSound(sys) && FormatsOnce(sys) && N.Keeps(sys.HostAt(n), h)
    requires sys'.locals == sys.locals[n := Local(h.paths, h.mounts, h.mappers)]
    requires sys'.disks == h.disks && sys'.formats == h.formats
    ensures HostsSound(sys') && FormatsOnce(sys')
    ensures sys'.HostAt(n) == h
    ensures forall m :: m != n ==> sys'.LocalAt(m) == sys.LocalAt(m)
  {
    forall m
      ensures N.Sound(sys'.HostAt(m))
    {
      if m != n {
        SoundUnderGrowth(sys.HostAt(m), sys'.HostAt(m), sys.HostAt(n), h);
      }
    }
    var before := sys.HostAt(n);
    forall dev | dev in h.formats
      ensures h.On(dev).Luks?
    {
      assert N.Grows(before.On(dev), h.On(dev));
    }
    forall m, dev
      ensures sys'.HostAt(m).On(dev) == h.On(dev)
    {
    }
    if h.formats != sys.formats {
      var dev :| h.formats == sys.formats + [dev] && before.On(dev) == NodeSpec.BLANK;
      assert dev !in sys.formats;
    }
  }

  lemma SoundUnderGrowth(a: NodeSpec.Host, a': NodeSpec.Host, b: NodeSpec.Host, b': NodeSpec.Host)
    requires N.Sound(a) && a.disks == b.disks && a'.disks == b'.disks && N.DisksGrow(b, b')
    requires a'.paths == a.paths && a'.mounts == a.mounts && a'.mappers == a.mappers
    ensures N.Sound(a')
  {
    forall name | name in a'.mappers
      ensures a'.On(a'.mappers[name]).Luks? && a'.On(a'.mappers[name]).key.Some?
    {
      assert N.Grows(b.On(a.mappers[name]), b'.On(a.mappers[name]));
    }
  }

  // A device the search finds for a volume's id is that volume's, and is attached here.
  lemma FoundDeviceIsOwn(
    s: Cloud.Store, v: int, n: int, devices: NodeSpec.Devices, req: NodeSpec.StageRequest, faults: NodeSpec.FaultPlan)
    requires StoreOrdered(s) && v in s.volumes && Backed(s, n, devices)
    requires req.volumeId == KeyOf(s, v) && NodeSpec.Partition(req) == ""
    requires NodeSpec.StageTarget(devices, req, faults).Good?
    ensures NodeSpec.StageTarget(devices, req, faults).value == v && AttachedAt(s, v, n)
  {
    var key := VolumeKey(v, s.volumes[v].volumeLabel);
    KeyRoundTrip(key);
    var path := NodeSpec.FindDevicePath(devices, Parse(req.volumeId).value, "", faults).value;
    var w := devices[path];
    DevicePaths.LabelsHaveDisjointPaths(s.volumes[v].volumeLabel, s.volumes[w].volumeLabel, "", path);
  }

  lemma StageStep(cfg: Spec.Config, staging: int -> string, sys: System, e: Event, sys': System)
    requires Injective(staging)
    requires e.NodeStage? && Next(cfg, staging, sys, e, sys') && Inv(staging, sys)
    ensures Inv(staging, sys')
  {
    var h := sys.HostAt(e.node);
    var h' := NodeSpec.Stage(h, e.devices, e.req, e.faults).0;
    N.StageKeeps(h, e.devices, e.req, e.faults);
    HostStep(sys, e.node, h', sys');
    forall v, n | Staged(staging, sys', v, n)
      ensures (v, n) in sys'.claims && AttachedAt(sys'.store, v, n)
    {
      if !Staged(staging, sys, v, n) {
        assert n == e.node && staging(v) == e.req.staging && v == e.volume;
        assert h' != h;
        FoundDeviceIsOwn(sys.store, v, n, e.devices, e.req, e.faults);
      }
    }
  }

  lemma UnstageStep(cfg: Spec.Config, staging: int -> string, sys: System, e: Event, sys': System)
    requires Injective(staging)
    requires e.NodeUnstage? && Next(cfg, staging, sys, e, sys') && Inv(staging, sys)
    ensures Inv(staging, sys')
  {
    var h := sys.HostAt(e.node);
    var (h', reply) := NodeSpec.Unstage(h, e.volumeId, staging(e.volume), e.faults);
    N.UnstageKeeps(h, e.volumeId, staging(e.volume), e.faults);
    HostStep(sys, e.node, h', sys');
    if reply.Success? {
      NodeRetry.UnstagedMeans(h, e.volumeId, staging(e.volume), e.faults);
    }
    forall v, n | Staged(staging, sys', v, n)
      ensures (v, n) in sys'.claims && AttachedAt(sys'.store, v, n)
    {
      assert Staged(staging, sys, v, n);
    }
  }

  lemma OtherStep(cfg: Spec.Config, staging: int -> string, sys: System, e: Event, sys': System)
    requires e.NodeOther? && Next(cfg, staging, sys, e, sys') && Inv(staging, sys)
    ensures Inv(staging, sys')
  {
    var h := sys.HostAt(e.node);
    var target := if e.nodeCall.op.PublishOp? then e.nodeCall.op.publish.target else e.nodeCall.op.target;
    N.StepKeeps(h, e.nodeCall);
    NodeRetry.TargetTables(h, e.nodeCall, target);
    ElsewhereStep(staging, sys, e.node, N.Exec(h, e.nodeCall).0, sys', target);
  }

  lemma ElsewhereStep(staging: int -> string, sys: System, n: int, h: NodeSpec.Host, sys': System, target: string)
    requires Inv(staging, sys) && N.Keeps(sys.HostAt(n), h) && sys' == sys.WithHost(n, h)
    requires forall v :: staging(v) != target
    requires forall path :: path != target && path in h.mounts ==> path in sys.HostAt(n).mounts
    ensures Inv(staging, sys')
  {
    HostStep(sys, n, h, sys');
    forall v, m | Staged(staging, sys', v, m)
      ensures (v, m) in sys'.claims && AttachedAt(sys'.store, v, m)
    {
      assert Staged(staging, sys, v, m);
    }
  }

  lemma {:induction false} InvHolds(cfg: Spec.Config, staging: int -> string, trace: seq<System>, events: seq<Event>, i: nat)
    requires Injective(staging)
    requires History(cfg, staging, trace, events) && Inv(staging, trace[0]) && i < |trace|
    ensures Inv(staging, trace[i])
  {
    if i > 0 {
      InvHolds(cfg, staging, trace, events, i - 1);
      var sys, e, sys' := trace[i - 1], events[i - 1], trace[i];
      match e
      case Controller(_) => ControllerStep(cfg, staging, sys, e, sys');
      case NodeStage(_, _, _, _, _) => StageStep(cfg, staging, sys, e, sys');
      case NodeUnstage(_, _, _, _) => UnstageStep(cfg, staging, sys, e, sys');
      case NodeOther(_, _) => OtherStep(cfg, staging, sys, e, sys');
    }
  }

  // In every reachable state a volume staged as a file system on a node exists and is
  // attached to that node, so it is staged on no other; and over all nodes together, LUKS
  // Format reached no device twice.
  lemma StagedVolumesAreAttached(
    cfg: Spec.Config, staging: int -> string, trace: seq<System>, events: seq<Event>, i: nat, v: int, n: int)
    requires Injective(staging)
    requires History(cfg, staging, trace, events) && Inv(staging, trace[0]) && i < |trace|
    requires Staged(staging, trace[i], v, n)
    ensures AttachedAt(trace[i].store, v, n)
    ensures forall m :: Staged(staging, trace[i], v, m) ==> m == n
    ensures N.Distinct(trace[i].formats)
  {
    InvHolds(cfg, staging, trace, events, i);
  }
}
