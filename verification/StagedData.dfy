/**
 Which data a staged volume exposes. When every LUKS volume goes by its own label on the
 node (the label then equals the requested name) and mapper lookups do not fail
 spuriously during NodeUnstage, a staging path always rests on its own volume's device.
 */
module StagedData {
  import opened GoText
  import opened Faults
  import opened VolumeKeys
  import opened WholeSystem
  import Cloud
  import C = ControllerRuns
  import Spec = ControllerSpec
  import N = NodeRuns
  import NodeSpec
  import NodeRetry

  ghost predicate Disciplined(sys: System, e: Event) {
    match e
    case Controller(_) => true
    case NodeStage(_, v, _, req, _) =>
      NodeRetry.AsksForLuks(req) && v in sys.store.volumes ==>
        NodeRetry.MapperName(req) == sys.store.volumes[v].volumeLabel
    case NodeUnstage(_, v, volumeId, faults) =>
      && NodeSpec.At(faults, NodeSpec.InitByName) == Fine
      && (v in sys.store.volumes ==> volumeId == KeyOf(sys.store, v))
    case NodeOther(_, _) => true
  }

  // Every open mapper is named after a volume that is attached here and still claimed.
  ghost predicate MappersOwned(sys: System) {
    forall n, name :: name in sys.LocalAt(n).mappers ==>
      var w := sys.LocalAt(n).mappers[name];
      (w, n) in sys.claims && AttachedAt(sys.store, w, n) && sys.store.volumes[w].volumeLabel == name
  }

  ghost predicate MountIsOwn(staging: int -> string, h: NodeSpec.Host, v: int) {
    staging(v) in h.mounts ==> NodeSpec.DeviceOf(h, h.mounts[staging(v)].source) == Some(v)
  }

  ghost predicate MountsOwn(staging: int -> string, sys: System) {
    forall n, v :: MountIsOwn(staging, sys.HostAt(n), v)
  }

  ghost predicate DataInv(staging: int -> string, sys: System) {
    Inv(staging, sys) && MappersOwned(sys) && MountsOwn(staging, sys)
  }

  lemma ControllerKeepsData(cfg: Spec.Config, staging: int -> string, sys: System, e: Event, sys': System)
    requires e.Controller? && Next(cfg, staging, sys, e, sys') && DataInv(staging, sys)
    ensures MappersOwned(sys') && MountsOwn(staging, sys')
  {
    C.StepEffect(cfg, sys.store, e.call, sys'.store);
    forall n, name | name in sys'.LocalAt(n).mappers
      ensures var w := sys'.LocalAt(n).mappers[name];
        (w, n) in sys'.claims && AttachedAt(sys'.store, w, n) && sys'.store.volumes[w].volumeLabel == name
    {
      var w := sys.LocalAt(n).mappers[name];
      assert (w, n) in sys.claims && AttachedAt(sys.store, w, n);
      assert w != C.Touched(cfg, sys.store, e.call.rpc) ==> C.Get(sys'.store, w) == C.Get(sys.store, w);
      assert C.Get(sys.store, w) == Some(sys.store.volumes[w]);
    }
    forall n, v
      ensures MountIsOwn(staging, sys'.HostAt(n), v)
    {
      assert sys'.HostAt(n) == sys.HostAt(n) && MountIsOwn(staging, sys.HostAt(n), v);
    }
  }

  // What a node step has to show about its own node; the others are untouched.
  lemma NodeKeepsData(staging: int -> string, sys: System, n: int, h: NodeSpec.Host, sys': System)
    requires MappersOwned(sys) && MountsOwn(staging, sys) && sys'.store == sys.store
    requires sys'.HostAt(n) == h && forall m :: m != n ==> sys'.LocalAt(m) == sys.LocalAt(m)
    requires forall w, m :: m != n && (w, m) in sys.claims ==> (w, m) in sys'.claims
    requires forall name :: name in h.mappers ==> OwnMapper(sys', n, name, h.mappers[name])
    requires forall v :: MountIsOwn(staging, h, v)
    ensures MappersOwned(sys') && MountsOwn(staging, sys')
  {
    forall m, name | name in sys'.LocalAt(m).mappers
      ensures OwnMapper(sys', m, name, sys'.LocalAt(m).mappers[name])
    {
      if m != n {
        assert name in sys.LocalAt(m).mappers;
      } else {
        assert sys'.LocalAt(m).mappers == h.mappers;
      }
    }
    forall m, v
      ensures MountIsOwn(staging, sys'.HostAt(m), v)
    {
      assert MountIsOwn(staging, sys.HostAt(m), v);
    }
  }

  ghost predicate OwnMapper(sys: System, n: int, name: string, w: int) {
    (w, n) in sys.claims && AttachedAt(sys.store, w, n) && sys.store.volumes[w].volumeLabel == name
  }

  // After a stage attempt every staging path still rests on its own volume.
  lemma StageMountsOwn(
    staging: int -> string, h: NodeSpec.Host, devices: NodeSpec.Devices, req: NodeSpec.StageRequest,
    faults: NodeSpec.FaultPlan, v: int, u: int)
    requires Injective(staging) && N.Sound(h) && MountIsOwn(staging, h, u) && req.staging == staging(v)
    requires NodeRetry.Target(devices, req) in {None, Some(v)}
    requires var h', name := NodeSpec.Stage(h, devices, req, faults).0, NodeRetry.MapperName(req);
      NodeRetry.AsksForLuks(req) && name in h'.mappers ==> h'.mappers[name] == v
    ensures MountIsOwn(staging, NodeSpec.Stage(h, devices, req, faults).0, u)
  {
    var h' := NodeSpec.Stage(h, devices, req, faults).0;
    NodeRetry.StageMappers(h, devices, req, faults);
    NodeRetry.StageMounts(h, devices, req, faults);
    if h'.mounts == h.mounts || u != v {
      SameDevice(h, h', u, staging);
    }
  }

  lemma StageKeepsData(cfg: Spec.Config, staging: int -> string, sys: System, e: Event, sys': System)
    requires Injective(staging)
    requires e.NodeStage? && Next(cfg, staging, sys, e, sys') && DataInv(staging, sys) && Disciplined(sys, e)
    ensures MappersOwned(sys') && MountsOwn(staging, sys')
  {
    var n, v, req := e.node, e.volume, e.req;
    var h := sys.HostAt(n);
    var h' := NodeSpec.Stage(h, e.devices, req, e.faults).0;
    StageMappersOwn(cfg, staging, sys, e, sys');
    forall u
      ensures MountIsOwn(staging, h', u)
    {
      assert MountIsOwn(staging, h, u);
      if NodeRetry.AsksForLuks(req) && NodeRetry.MapperName(req) in h'.mappers {
        assert OwnMapper(sys', n, NodeRetry.MapperName(req), h'.mappers[NodeRetry.MapperName(req)]);
      }
      StageMountsOwn(staging, h, e.devices, req, e.faults, v, u);
    }
    NodeKeepsData(staging, sys, n, h', sys');
  }

  lemma StageMappersOwn(cfg: Spec.Config, staging: int -> string, sys: System, e: Event, sys': System)
    requires e.NodeStage? && Next(cfg, staging, sys, e, sys') && DataInv(staging, sys) && Disciplined(sys, e)
    ensures NodeRetry.Target(e.devices, e.req) in {None, Some(e.volume)}
    ensures var h' := NodeSpec.Stage(sys.HostAt(e.node), e.devices, e.req, e.faults).0;
      forall name :: name in h'.mappers ==> OwnMapper(sys', e.node, name, h'.mappers[name])
  {
    var h := sys.HostAt(e.node);
    var h' := NodeSpec.Stage(h, e.devices, e.req, e.faults).0;
    NodeRetry.StageMappers(h, e.devices, e.req, e.faults);
    if NodeRetry.Target(e.devices, e.req).Some? {
      FoundDeviceIsOwn(sys.store, e.volume, e.node, e.devices, e.req, NodeSpec.NO_FAULTS);
    }
    forall name | name in h'.mappers
      ensures OwnMapper(sys', e.node, name, h'.mappers[name])
    {
      if name in h.mappers {
        assert h'.mappers[name] == h.mappers[name] && name in sys.LocalAt(e.node).mappers;
      }
    }
  }

  // A mount that stays, over mappers that stay, keeps its device.
  lemma SameDevice(h: NodeSpec.Host, h': NodeSpec.Host, u: int, staging: int -> string)
    requires N.Sound(h) && MountIsOwn(staging, h, u)
    requires forall name :: name in h.mappers && name in h'.mappers ==> h'.mappers[name] == h.mappers[name]
    ensures staging(u) in h.mounts && staging(u) in h'.mounts && h'.mounts[staging(u)] == h.mounts[staging(u)]
      && (h'.mounts[staging(u)].source.Mapper? ==> h'.mounts[staging(u)].source.name in h'.mappers)
      ==> MountIsOwn(staging, h', u)
  {
  }

  lemma UnstageKeepsData(cfg: Spec.Config, staging: int -> string, sys: System, e: Event, sys': System)
    requires e.NodeUnstage? && Next(cfg, staging, sys, e, sys') && DataInv(staging, sys) && Disciplined(sys, e)
    ensures MappersOwned(sys') && MountsOwn(staging, sys')
  {
    var n, v := e.node, e.volume;
    var h := sys.HostAt(n);
    var (h', reply) := NodeSpec.Unstage(h, e.volumeId, staging(v), e.faults);
    N.UnstageKeeps(h, e.volumeId, staging(v), e.faults);
    NodeRetry.UnstageTables(h, e.volumeId, staging(v), e.faults);
    forall name | name in h'.mappers
      ensures OwnMapper(sys', n, name, h'.mappers[name])
    {
      assert name in sys.LocalAt(n).mappers;
      if h.mappers[name] == v && reply.Success? {
        NodeRetry.UnstagedMeans(h, e.volumeId, staging(v), e.faults);
        KeyRoundTrip(VolumeKey(v, name));
        MountSourceAgrees(e.volumeId);
        assert false;
      }
    }
    forall u
      ensures MountIsOwn(staging, h', u)
    {
      assert MountIsOwn(staging, h, u);
      SameDevice(h, h', u, staging);
    }
    NodeKeepsData(staging, sys, n, h', sys');
  }

  lemma OtherKeepsData(cfg: Spec.Config, staging: int -> string, sys: System, e: Event, sys': System)
    requires e.NodeOther? && Next(cfg, staging, sys, e, sys') && DataInv(staging, sys)
    ensures MappersOwned(sys') && MountsOwn(staging, sys')
  {
    var n := e.node;
    var h := sys.HostAt(n);
    var h' := N.Exec(h, e.nodeCall).0;
    NodeRetry.TargetTables(h, e.nodeCall,
      if e.nodeCall.op.PublishOp? then e.nodeCall.op.publish.target else e.nodeCall.op.target);
    forall name | name in h'.mappers
      ensures OwnMapper(sys', n, name, h'.mappers[name])
    {
      assert name in sys.LocalAt(n).mappers;
    }
    forall u
      ensures MountIsOwn(staging, h', u)
    {
      assert MountIsOwn(staging, h, u);
      SameDevice(h, h', u, staging);
    }
    NodeKeepsData(staging, sys, n, h', sys');
  }

  lemma {:induction false} DataInvHolds(
    cfg: Spec.Config, staging: int -> string, trace: seq<System>, events: seq<Event>, i: nat)
    requires Injective(staging)
    requires History(cfg, staging, trace, events) && DataInv(staging, trace[0]) && i < |trace|
    requires forall k :: 0 <= k < |events| ==> Disciplined(trace[k], events[k])
    ensures DataInv(staging, trace[i])
  {
    if i > 0 {
      DataInvHolds(cfg, staging, trace, events, i - 1);
      InvHolds(cfg, staging, trace, events, i);
      var sys, e, sys' := trace[i - 1], events[i - 1], trace[i];
      match e
      case Controller(_) => ControllerKeepsData(cfg, staging, sys, e, sys');
      case NodeStage(_, _, _, _, _) => StageKeepsData(cfg, staging, sys, e, sys');
      case NodeUnstage(_, _, _, _) => UnstageKeepsData(cfg, staging, sys, e, sys');
      case NodeOther(_, _) => OtherKeepsData(cfg, staging, sys, e, sys');
    }
  }

  // In every reachable state of a disciplined system, what is mounted at a volume's staging
  // path is that volume's device, and every open mapper belongs to a volume attached here.
  lemma StagedDataIsOwn(
    cfg: Spec.Config, staging: int -> string, trace: seq<System>, events: seq<Event>, i: nat, v: int, n: int)
    requires Injective(staging)
    requires History(cfg, staging, trace, events) && DataInv(staging, trace[0]) && i < |trace|
    requires forall k :: 0 <= k < |events| ==> Disciplined(trace[k], events[k])
    requires Staged(staging, trace[i], v, n)
    ensures var h := trace[i].HostAt(n); NodeSpec.DeviceOf(h, h.mounts[staging(v)].source) == Some(v)
    ensures AttachedAt(trace[i].store, v, n)
    ensures forall name :: name in trace[i].LocalAt(n).mappers ==>
      AttachedAt(trace[i].store, trace[i].LocalAt(n).mappers[name], n)
  {
    DataInvHolds(cfg, staging, trace, events, i);
    assert MountIsOwn(staging, trace[i].HostAt(n), v);
  }
}
