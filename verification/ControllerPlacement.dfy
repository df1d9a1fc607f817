/**
 The limit a node reports and the limit the controller enforces are computed in two
 places; an orchestrator that respects the first never runs into the second.
 */
module ControllerPlacement {
  import opened GoText
  import opened Cloud
  import opened Faults
  import opened VolumeKeys
  import opened ControllerSpec
  import opened ControllerRuns
  import Limits
  import NodeSpec

  // What NodeGetInfo answers for an instance (nodeserver.go:388-397).
  function MaxVolumesPerNode(instance: Instance): int {
    Limits.ReportedLimit(instance.memory, instance.disks)
  }

  // The controller understands what a node says of itself: the id decodes to the instance,
  // the limit is the one it enforces, and a request for the node's topology is placed in
  // the node's region.
  lemma NodeInfoIsUnderstood(cfg: Config, id: int, instance: Instance)
    requires IsInt(id) && 0 <= instance.memory <= MAX_INT && instance.region != ""
    ensures var info := NodeSpec.InfoOf(id, instance.memory, instance.region, instance.disks);
      && DecodeNode(cfg.hash, info.nodeId) == Some(id)
      && info.maxVolumesPerNode == Limits.EnforcedLimit(instance.memory, instance.disks)
      && RegionFor(cfg, Some(Topology([info.segments], []))) == instance.region
      && RegionFor(cfg, Some(Topology([], [info.segments]))) == instance.region
  {
    AtoiOfItoa(id);
    Limits.LimitsAgree(instance.memory, instance.disks);
  }

  // A clean publish is turned away for want of room exactly when the volume is detached
  // and the node already holds what it reports it can hold; a volume that is already on
  // the node is published again however full the node is.
  lemma ExhaustedExactly(cfg: Config, s: Store, rpc: Rpc, v: int, n: int)
    requires Publishes(cfg, rpc, v, n) && rpc.capability == SingleNodeWriter
    requires v in s.volumes && PathsSet(s)
    requires n in s.instances && 0 <= s.instances[n].memory <= MAX_INT
    ensures Exec(cfg, s, rpc, NO_FAULTS).1 == Failed(ResourceExhausted)
      <==> s.volumes[v].node.None? && |s.AttachedTo(n)| >= MaxVolumesPerNode(s.instances[n])
    ensures s.volumes[v].node == Some(n) ==> Exec(cfg, s, rpc, NO_FAULTS) == (s, Published(s.volumes[v].path))
  {
    Limits.LimitsAgree(s.instances[n].memory, s.instances[n].disks);
  }

  // Attached volumes have a device path: an empty one is read as "not attached".
  ghost predicate PathsSet(s: Store) {
    forall v :: v in s.volumes && s.volumes[v].node.Some? ==> s.volumes[v].path != ""
  }

  lemma PathsStaySet(cfg: Config, s: Store, call: Call, s': Store)
    requires Step(cfg, s, call, s') && PathsSet(s)
    ensures PathsSet(s')
  {
    StepEffect(cfg, s, call, s');
    forall v | v in s'.volumes && s'.volumes[v].node.Some?
      ensures s'.volumes[v].path != ""
    {
      AcrossStep(cfg, s, call.rpc, s', v);
    }
  }

  // The orchestrator's own books for a node: volumes it asked to be placed there and has
  // not been told are gone.
  ghost function Placed(cfg: Config, trace: seq<Store>, calls: seq<Call>, n: int, k: nat): set<int>
    requires |trace| == |calls| + 1 && k <= |calls|
  {
    if k == 0 then trace[0].AttachedTo(n)
    else
      var placed, call := Placed(cfg, trace, calls, n, k - 1), calls[k - 1];
      PlacedAfter(cfg, placed, call.rpc, ReplyTo(cfg, trace[k - 1], call), n)
  }

  function PlacedAfter(cfg: Config, placed: set<int>, rpc: Rpc, reply: Reply, n: int): set<int> {
    if rpc.Publish? && DecodeNode(cfg.hash, rpc.nodeId) == Some(n) && DecodeVolume(cfg.hash, rpc.volumeId).Some? then
      placed + {DecodeVolume(cfg.hash, rpc.volumeId).value}
    else if rpc.Unpublish? && DecodeNode(cfg.hash, rpc.nodeId) == Some(n) && DecodeVolume(cfg.hash, rpc.volumeId).Some?
      && reply == Unpublished then
      placed - {DecodeVolume(cfg.hash, rpc.volumeId).value}
    else placed
  }

  ghost predicate BooksHold(cfg: Config, trace: seq<Store>, calls: seq<Call>, n: int, k: nat) {
    && |trace| == |calls| + 1 && k <= |calls|
    && trace[k].AttachedTo(n) <= Placed(cfg, trace, calls, n, k)
    && PathsSet(trace[k]) && trace[k].instances == trace[0].instances
  }

  // What is attached to a node is within the books for it, at every moment of a run.
  lemma AttachedArePlaced(cfg: Config, trace: seq<Store>, calls: seq<Call>, n: int, k: nat)
    requires Run(cfg, trace, calls) && k <= |calls| && PathsSet(trace[0])
    ensures BooksHold(cfg, trace, calls, n, k)
  {
    for i := 0 to k
      invariant BooksHold(cfg, trace, calls, n, i)
    {
      BooksStillHold(cfg, trace, calls, n, i);
    }
  }

  lemma BooksStillHold(cfg: Config, trace: seq<Store>, calls: seq<Call>, n: int, k: nat)
    requires Run(cfg, trace, calls) && k < |calls| && BooksHold(cfg, trace, calls, n, k)
    ensures BooksHold(cfg, trace, calls, n, k + 1)
  {
    PathsStaySet(cfg, trace[k], calls[k], trace[k + 1]);
    PlacedAcrossStep(cfg, trace[k], calls[k], trace[k + 1], n, Placed(cfg, trace, calls, n, k));
  }

  lemma PlacedAcrossStep(cfg: Config, s: Store, call: Call, s': Store, n: int, placed: set<int>)
    requires Step(cfg, s, call, s') && s.AttachedTo(n) <= placed
    ensures s'.AttachedTo(n) <= PlacedAfter(cfg, placed, call.rpc, ReplyTo(cfg, s, call), n)
    ensures s'.instances == s.instances
  {
    StepEffect(cfg, s, call, s');
    forall v | v in s'.AttachedTo(n)
      ensures v in PlacedAfter(cfg, placed, call.rpc, ReplyTo(cfg, s, call), n)
    {
      AttachedAcrossEffect(cfg, s, call.rpc, s', n, v);
      if call.rpc.Unpublish? && ReplyTo(cfg, s, call) == Unpublished && Targets(cfg, call.rpc, v) {
        UnpublishedFrom(cfg, s, call, s', v);
      }
    }
  }

  lemma AttachedAcrossEffect(cfg: Config, s: Store, rpc: Rpc, s': Store, n: int, v: int)
    requires Effect(cfg, s, rpc, s') && v in s'.AttachedTo(n)
    ensures v in s.AttachedTo(n) || Publishes(cfg, rpc, v, n)
  {
    AcrossStep(cfg, s, rpc, s', v);
  }

  lemma UnpublishedFrom(cfg: Config, s: Store, call: Call, s': Store, v: int)
    requires Step(cfg, s, call, s') && call.rpc.Unpublish? && ReplyTo(cfg, s, call) == Unpublished
    requires Targets(cfg, call.rpc, v)
    ensures v in s'.volumes ==> s'.volumes[v].node != DecodeNode(cfg.hash, call.rpc.nodeId)
  {
  }

  lemma ExhaustedMeans(cfg: Config, s: Store, call: Call)
    requires call.rpc.Publish? && ReplyTo(cfg, s, call) == Failed(ResourceExhausted)
    ensures var v, n := Touched(cfg, s, call.rpc), DecodeNode(cfg.hash, call.rpc.nodeId);
      && DecodeVolume(cfg.hash, call.rpc.volumeId) == Some(v) && n.Some?
      && v in s.volumes && n.value in s.instances && !HasRoom(s, n.value)
      && (s.volumes[v].node.None? || s.volumes[v].path == "")
  {
  }

  // As long as its books never exceed what the node reports, no publish to that node is
  // refused for want of room, whatever faults happen along the way.
  lemma NeverExhausted(cfg: Config, trace: seq<Store>, calls: seq<Call>, n: int, i: nat)
    requires Run(cfg, trace, calls) && PathsSet(trace[0])
    requires n in trace[0].instances && 0 <= trace[0].instances[n].memory <= MAX_INT
    requires forall k: nat :: k <= |calls| ==>
      |Placed(cfg, trace, calls, n, k)| <= MaxVolumesPerNode(trace[0].instances[n])
    requires i < |calls| && calls[i].rpc.Publish? && DecodeNode(cfg.hash, calls[i].rpc.nodeId) == Some(n)
    ensures ReplyTo(cfg, trace[i], calls[i]) != Failed(ResourceExhausted)
  {
    AttachedArePlaced(cfg, trace, calls, n, i);
    Limits.LimitsAgree(trace[0].instances[n].memory, trace[0].instances[n].disks);
    if ReplyTo(cfg, trace[i], calls[i]) == Failed(ResourceExhausted) {
      ExhaustedMeans(cfg, trace[i], calls[i]);
      var s, v := trace[i], Touched(cfg, trace[i], calls[i].rpc);
      assert v !in s.AttachedTo(n);
      assert |s.AttachedTo(n) + {v}| == |s.AttachedTo(n)| + 1;
      SubsetIsSmaller(s.AttachedTo(n) + {v}, Placed(cfg, trace, calls, n, i + 1));
      assert false;
    }
  }
}
