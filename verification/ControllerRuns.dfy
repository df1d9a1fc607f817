/**
 What holds over whole runs of controller RPCs, each meeting any faults: identities
 never change, volumes never shrink, labels stay unique, an attachment stays until it is
 asked to go, and every volume is where its request wanted it.
 */
module ControllerRuns {
  import opened GoText
  import opened Cloud
  import opened Faults
  import opened VolumeKeys
  import opened ControllerSpec
  import Sizes
  import Limits
  import LuksContexts

  datatype Call = Call(rpc: Rpc, faults: FaultPlan)

  // The API hands out non-negative ids that no volume carries.
  ghost predicate Legal(s: Store, rpc: Rpc) {
    rpc.CreateVolume? ==> 0 <= rpc.newId <= MAX_INT && rpc.newId !in s.volumes
  }

  ghost predicate Step(cfg: Config, s: Store, call: Call, s': Store) {
    Legal(s, call.rpc) && s' == Exec(cfg, s, call.rpc, call.faults).0
  }

  ghost function ReplyTo(cfg: Config, s: Store, call: Call): Reply {
    Exec(cfg, s, call.rpc, call.faults).1
  }

  ghost predicate Run(cfg: Config, trace: seq<Store>, calls: seq<Call>) {
    && |trace| == |calls| + 1
    && forall i :: 0 <= i < |calls| ==> Step(cfg, trace[i], calls[i], trace[i + 1])
  }

  ghost predicate Targets(cfg: Config, rpc: Rpc, v: int) {
    match rpc
    case CreateVolume(_, newId) => newId == v
    case DeleteVolume(volumeId) => DecodeVolume(cfg.hash, volumeId) == Some(v)
    case Publish(volumeId, _, _) => DecodeVolume(cfg.hash, volumeId) == Some(v)
    case Unpublish(volumeId, _) => DecodeVolume(cfg.hash, volumeId) == Some(v)
    case Expand(volumeId, _) => DecodeVolume(cfg.hash, volumeId) == Some(v)
  }

  ghost predicate Unpublishes(cfg: Config, rpc: Rpc, v: int, n: int) {
    rpc.Unpublish? && Targets(cfg, rpc, v) && DecodeNode(cfg.hash, rpc.nodeId) == Some(n)
  }

  ghost predicate Publishes(cfg: Config, rpc: Rpc, v: int, n: int) {
    rpc.Publish? && Targets(cfg, rpc, v) && DecodeNode(cfg.hash, rpc.nodeId) == Some(n)
  }

  function Get(s: Store, v: int): Option<Volume> {
    if v in s.volumes then Some(s.volumes[v]) else None
  }

  // What a volume that was not there before looks like.
  ghost predicate Birth(cfg: Config, s: Store, rpc: Rpc, v: int, volume: Volume) {
    && rpc.CreateVolume? && rpc.newId == v
    && volume.volumeLabel == LabelFor(cfg.prefix, rpc.create.name)
    && s.WithLabel(volume.volumeLabel) == {}
    && volume.node == None
    && volume.region == RegionFor(cfg, rpc.create.topology)
    && if rpc.create.source.NoSource? then
         && volume.size >= 10
         && Sizes.RequestedCapacity(rpc.create.range).Bytes?
         && volume.size == Sizes.BytesToGB(Sizes.RequestedCapacity(rpc.create.range).size)
         && (volume.encryption == "enabled" <==> AsksForEncryption(rpc.create))
         && (volume.encryption == "enabled" ==> Encrypts(s, volume.region))
       else
         rpc.create.source.FromVolume? && CopyOf(s, rpc.create.source.volumeId, volume)
  }

  ghost predicate AsksForEncryption(req: CreateRequest) {
    Lookup(req.parameters, ENCRYPTION_PARAMETER) == LuksContexts.TRUE
  }

  ghost predicate Encrypts(s: Store, region: string) {
    region in s.regions && ENCRYPTION_CAPABILITY in s.regions[region]
  }

  ghost predicate CopyOf(s: Store, sourceId: string, volume: Volume) {
    && Parse(sourceId).Some?
    && var from := Parse(sourceId).value.id;
      && from in s.volumes
      && volume.size == s.volumes[from].size
      && volume.region == s.volumes[from].region
      && volume.encryption == s.volumes[from].encryption
  }

  // Only a detached volume is ever deleted, and only by name.
  ghost predicate Death(cfg: Config, rpc: Rpc, v: int, volume: Volume) {
    rpc.DeleteVolume? && Targets(cfg, rpc, v) && volume.node == None
  }

  // A surviving volume keeps its identity, does not shrink, and changes its attachment
  // only when the matching RPC names both ends.
  ghost predicate Change(cfg: Config, s: Store, rpc: Rpc, v: int, before: Volume, after: Volume) {
    && after.volumeLabel == before.volumeLabel
    && after.region == before.region
    && after.encryption == before.encryption
    && before.size <= after.size
    && (before.size < after.size ==> rpc.Expand? && Targets(cfg, rpc, v))
    && (before.path != "" ==> after.path == before.path)
    && (after.node != before.node ==>
      if before.node.None? then
        Publishes(cfg, rpc, v, after.node.value) && after.node.value in s.instances && HasRoom(s, after.node.value)
      else
        after.node.None? && Unpublishes(cfg, rpc, v, before.node.value))
    && (after.node != before.node && after.node.Some? ==> after.path != "")
  }

  ghost predicate VolumeStep(cfg: Config, s: Store, rpc: Rpc, v: int, before: Option<Volume>, after: Option<Volume>) {
    match (before, after)
    case (None, None) => true
    case (None, Some(volume)) => Birth(cfg, s, rpc, v, volume)
    case (Some(volume), None) => Death(cfg, rpc, v, volume)
    case (Some(a), Some(b)) => Change(cfg, s, rpc, v, a, b)
  }

  ghost predicate OnlyAt(s: Store, s': Store, v: int) {
    && s'.instances == s.instances && s'.regions == s.regions
    && forall u :: u != v ==> Get(s', u) == Get(s, u)
  }

  // The one volume an RPC may touch.
  ghost function Touched(cfg: Config, s: Store, rpc: Rpc): int {
    match rpc
    case CreateVolume(req, newId) =>
      var existing := s.WithLabel(LabelFor(cfg.prefix, req.name));
      if |existing| == 1 then The(existing) else newId
    case DeleteVolume(volumeId) => DecodeVolume(cfg.hash, volumeId).GetOr(0)
    case Publish(volumeId, _, _) => DecodeVolume(cfg.hash, volumeId).GetOr(0)
    case Unpublish(volumeId, _) => DecodeVolume(cfg.hash, volumeId).GetOr(0)
    case Expand(volumeId, _) => DecodeVolume(cfg.hash, volumeId).GetOr(0)
  }

  ghost predicate Effect(cfg: Config, s: Store, rpc: Rpc, s': Store) {
    var v := Touched(cfg, s, rpc);
    OnlyAt(s, s', v) && VolumeStep(cfg, s, rpc, v, Get(s, v), Get(s', v))
  }

  lemma ParamsAreSound(cfg: Config, s: Store, req: CreateRequest, faults: FaultPlan)
    ensures Params(cfg, s, req, faults).Good? ==>
      var params := Params(cfg, s, req, faults).value;
      && params.name == LabelFor(cfg.prefix, req.name)
      && params.region == RegionFor(cfg, req.topology)
      && params.targetSizeGB == Sizes.BytesToGB(params.size)
      && params.targetSizeGB >= 10
      && (params.encryption == "enabled" <==> AsksForEncryption(req))
      && (params.encryption == "enabled" ==> Encrypts(s, params.region))
      && Sizes.RequestedCapacity(req.range) == Sizes.Bytes(params.size)
  {
    match req.range
    case None =>
    case Some(CapacityRange(required, limit)) => Sizes.CapacityClosedForm(required, limit);
  }

  lemma NoEffect(cfg: Config, s: Store, rpc: Rpc)
    ensures Effect(cfg, s, rpc, s)
  {
  }

  lemma PutEffect(cfg: Config, s: Store, rpc: Rpc, v: int, volume: Volume)
    requires v == Touched(cfg, s, rpc)
    requires VolumeStep(cfg, s, rpc, v, Get(s, v), Some(volume))
    ensures Effect(cfg, s, rpc, s.Put(v, volume))
  {
  }

  lemma PutTwice(s: Store, v: int, a: Volume, b: Volume)
    ensures s.Put(v, a).Put(v, b) == s.Put(v, b)
  {
    assert s.volumes[v := a][v := b] == s.volumes[v := b];
  }

  // The store a creation ends in: unchanged, or with one volume put in place.
  lemma CreateAndWaitShape(s: Store, params: VolumeParams, source: Option<int>, newId: int, faults: FaultPlan)
    requires newId !in s.volumes
    requires source.Some? ==> source.value in s.volumes
    ensures var existing, s' := s.WithLabel(params.name), CreateAndWait(s, params, source, newId, faults).0;
      || s' == s
      || (|existing| == 1 && s' == s.Put(The(existing), s.volumes[The(existing)].(active := true))
          && (source.Some? || s.volumes[The(existing)].size == params.targetSizeGB))
      || (existing == {} && exists active :: s' == s.Put(newId, Made(s, params, source).(active := active)))
  {
    var existing := s.WithLabel(params.name);
    var (s1, attempt) := Attempt(s, params, source, newId, faults);
    var made := Made(s, params, source);
    if |existing| == 0 {
      assert s1 == s || s1 == s.Put(newId, made);
      assert made == made.(active := false);
      PutTwice(s, newId, made, made.(active := true));
    }
  }

  // The volume a request without a match is given.
  function Made(s: Store, params: VolumeParams, source: Option<int>): Volume
    requires source.Some? ==> source.value in s.volumes
  {
    match source
    case None => Cloud.Created(params.name, params.targetSizeGB, params.region, params.encryption)
    case Some(from) =>
      Cloud.Created(params.name, s.volumes[from].size, s.volumes[from].region, s.volumes[from].encryption)
  }

  lemma CreateEffectIsLocal(cfg: Config, s: Store, rpc: Rpc, faults: FaultPlan)
    requires Legal(s, rpc) && rpc.CreateVolume?
    ensures Effect(cfg, s, rpc, Exec(cfg, s, rpc, faults).0)
  {
    var req, newId := rpc.create, rpc.newId;
    var params, source := Params(cfg, s, req, faults), SourceVolume(cfg, s, req, faults);
    var s' := Exec(cfg, s, rpc, faults).0;
    NoEffect(cfg, s, rpc);
    if s' != s {
      assert params.Good? && source.Good?;
      ParamsAreSound(cfg, s, req, faults);
      CreateAndWaitShape(s, params.value, source.value, newId, faults);
      var existing := s.WithLabel(params.value.name);
      if |existing| == 1 {
        PutEffect(cfg, s, rpc, The(existing), s.volumes[The(existing)].(active := true));
      } else {
        var active :| s' == s.Put(newId, Made(s, params.value, source.value).(active := active));
        PutEffect(cfg, s, rpc, newId, Made(s, params.value, source.value).(active := active));
      }
    }
  }

  lemma DeleteEffectIsLocal(cfg: Config, s: Store, rpc: Rpc, faults: FaultPlan)
    requires rpc.DeleteVolume?
    ensures Effect(cfg, s, rpc, Exec(cfg, s, rpc, faults).0)
  {
    NoEffect(cfg, s, rpc);
    var v := Touched(cfg, s, rpc);
    if Exec(cfg, s, rpc, faults).0 != s {
      assert Exec(cfg, s, rpc, faults).0 == s.Without(v);
      assert Death(cfg, rpc, v, s.volumes[v]);
    }
  }

  lemma PublishEffectIsLocal(cfg: Config, s: Store, rpc: Rpc, faults: FaultPlan)
    requires rpc.Publish?
    ensures Effect(cfg, s, rpc, Exec(cfg, s, rpc, faults).0)
  {
    var s' := Exec(cfg, s, rpc, faults).0;
    NoEffect(cfg, s, rpc);
    if s' != s {
      var v, n := Touched(cfg, s, rpc), DecodeNode(cfg.hash, rpc.nodeId).value;
      AttachEffectShape(s, v, n, faults);
      PutEffect(cfg, s, rpc, v, Attached(s.volumes[v], n));
    }
  }

  lemma AttachEffectShape(s: Store, v: int, n: int, faults: FaultPlan)
    ensures var s' := AttachEffect(s, v, n, faults).0;
      s' == s || (v in s.volumes && s.volumes[v].node.None? && n in s.instances && HasRoom(s, n)
                  && s' == s.Put(v, Attached(s.volumes[v], n)))
  {
  }

  lemma UnpublishEffectIsLocal(cfg: Config, s: Store, rpc: Rpc, faults: FaultPlan)
    requires rpc.Unpublish?
    ensures Effect(cfg, s, rpc, Exec(cfg, s, rpc, faults).0)
  {
    NoEffect(cfg, s, rpc);
    UnpublishShape(cfg, s, rpc, faults);
    if Exec(cfg, s, rpc, faults).0 != s {
      PutEffect(cfg, s, rpc, Touched(cfg, s, rpc), s.volumes[Touched(cfg, s, rpc)].(node := None));
    }
  }

  lemma UnpublishShape(cfg: Config, s: Store, rpc: Rpc, faults: FaultPlan)
    requires rpc.Unpublish?
    ensures var s', v := Exec(cfg, s, rpc, faults).0, Touched(cfg, s, rpc);
      s' == s || (v in s.volumes && Targets(cfg, rpc, v) && s' == s.Put(v, s.volumes[v].(node := None))
                  && (s.volumes[v].node.Some? ==> Unpublishes(cfg, rpc, v, s.volumes[v].node.value)))
  {
  }

  lemma ExpandEffectIsLocal(cfg: Config, s: Store, rpc: Rpc, faults: FaultPlan)
    requires rpc.Expand?
    ensures Effect(cfg, s, rpc, Exec(cfg, s, rpc, faults).0)
  {
    var s' := Exec(cfg, s, rpc, faults).0;
    NoEffect(cfg, s, rpc);
    if s' != s {
      var v := Touched(cfg, s, rpc);
      var resized := s.volumes[v].(size := Sizes.BytesToGB(Sizes.RequestedCapacity(rpc.range).size), active := false);
      PutTwice(s, v, resized, resized.(active := true));
      PutEffect(cfg, s, rpc, v, s'.volumes[v]);
    }
  }

  // Everything one RPC can do to the store, whatever faults it meets.
  lemma StepEffect(cfg: Config, s: Store, call: Call, s': Store)
    requires Step(cfg, s, call, s')
    ensures Effect(cfg, s, call.rpc, s')
  {
    match call.rpc
    case CreateVolume(_, _) => CreateEffectIsLocal(cfg, s, call.rpc, call.faults);
    case DeleteVolume(_) => DeleteEffectIsLocal(cfg, s, call.rpc, call.faults);
    case Publish(_, _, _) => PublishEffectIsLocal(cfg, s, call.rpc, call.faults);
    case Unpublish(_, _) => UnpublishEffectIsLocal(cfg, s, call.rpc, call.faults);
    case Expand(_, _) => ExpandEffectIsLocal(cfg, s, call.rpc, call.faults);
  }

  // One volume across one RPC: as it was, or changed as its transition allows.
  lemma AtVolume(cfg: Config, s: Store, rpc: Rpc, s': Store, v: int)
    requires Effect(cfg, s, rpc, s')
    ensures Get(s', v) == Get(s, v) || (v == Touched(cfg, s, rpc) && VolumeStep(cfg, s, rpc, v, Get(s, v), Get(s', v)))
  {
  }

  // What holds of a volume on both sides of an RPC.
  lemma AcrossStep(cfg: Config, s: Store, rpc: Rpc, s': Store, v: int)
    requires Effect(cfg, s, rpc, s')
    ensures v in s.volumes && v !in s'.volumes ==> Death(cfg, rpc, v, s.volumes[v])
    ensures v in s.volumes && v in s'.volumes ==>
      s'.volumes[v] == s.volumes[v] || Change(cfg, s, rpc, v, s.volumes[v], s'.volumes[v])
    ensures v !in s.volumes && v in s'.volumes ==> Birth(cfg, s, rpc, v, s'.volumes[v])
  {
    AtVolume(cfg, s, rpc, s', v);
  }

  // ----- Sizes

  ghost predicate AtLeastMinimum(s: Store) {
    forall v :: v in s.volumes ==> s.volumes[v].size >= 10
  }

  // No RPC ever leaves a volume under 10 GB, clones included.
  lemma {:induction false} SizesStayAboveMinimum(cfg: Config, trace: seq<Store>, calls: seq<Call>, i: nat)
    requires Run(cfg, trace, calls) && i < |trace|
    requires AtLeastMinimum(trace[0])
    ensures AtLeastMinimum(trace[i])
  {
    if i > 0 {
      SizesStayAboveMinimum(cfg, trace, calls, i - 1);
      MinimumAcrossStep(cfg, trace[i - 1], calls[i - 1], trace[i]);
    }
  }

  lemma MinimumAcrossStep(cfg: Config, s: Store, call: Call, s': Store)
    requires Step(cfg, s, call, s') && AtLeastMinimum(s)
    ensures AtLeastMinimum(s')
  {
    StepEffect(cfg, s, call, s');
    MinimumAcrossEffect(cfg, s, call.rpc, s');
  }

  lemma MinimumAcrossEffect(cfg: Config, s: Store, rpc: Rpc, s': Store)
    requires Effect(cfg, s, rpc, s') && AtLeastMinimum(s)
    ensures AtLeastMinimum(s')
  {
    forall v | v in s'.volumes
      ensures s'.volumes[v].size >= 10
    {
      AcrossStep(cfg, s, rpc, s', v);
    }
  }

  ghost predicate NotDeleted(cfg: Config, calls: seq<Call>, v: int, i: nat, j: nat)
    requires i <= j <= |calls|
  {
    forall k :: i <= k < j ==> !(calls[k].rpc.DeleteVolume? && Targets(cfg, calls[k].rpc, v))
  }

  ghost predicate NotExpanded(cfg: Config, calls: seq<Call>, v: int, i: nat, j: nat)
    requires i <= j <= |calls|
  {
    forall k :: i <= k < j ==> !(calls[k].rpc.Expand? && Targets(cfg, calls[k].rpc, v))
  }

  // A volume nobody deletes survives with its label, region and encryption; it never
  // shrinks, and it only grows by an expansion that names it.
  lemma {:induction false} VolumeSurvives(cfg: Config, trace: seq<Store>, calls: seq<Call>, v: int, i: nat, j: nat)
    requires Run(cfg, trace, calls) && i <= j < |trace|
    requires v in trace[i].volumes && NotDeleted(cfg, calls, v, i, j)
    ensures v in trace[j].volumes
    ensures var a, b := trace[i].volumes[v], trace[j].volumes[v];
      && b.volumeLabel == a.volumeLabel && b.region == a.region && b.encryption == a.encryption
      && a.size <= b.size
      && (NotExpanded(cfg, calls, v, i, j) ==> b.size == a.size)
  {
    if i < j {
      VolumeSurvives(cfg, trace, calls, v, i, j - 1);
      StepEffect(cfg, trace[j - 1], calls[j - 1], trace[j]);
      AcrossStep(cfg, trace[j - 1], calls[j - 1].rpc, trace[j], v);
    }
  }

  // ----- Labels

  ghost predicate LabelsUnique(s: Store) {
    forall u, v :: u in s.volumes && v in s.volumes && s.volumes[u].volumeLabel == s.volumes[v].volumeLabel ==> u == v
  }

  lemma LabelOfOne(s: Store, v: int)
    requires LabelsUnique(s) && v in s.volumes
    ensures s.WithLabel(s.volumes[v].volumeLabel) == {v}
  {
    var found := s.WithLabel(s.volumes[v].volumeLabel);
    forall u | u in found
      ensures u == v
    {
    }
    assert v in found;
  }

  lemma {:induction false} LabelsStayUnique(cfg: Config, trace: seq<Store>, calls: seq<Call>, i: nat)
    requires Run(cfg, trace, calls) && i < |trace|
    requires LabelsUnique(trace[0])
    ensures LabelsUnique(trace[i])
  {
    if i > 0 {
      LabelsStayUnique(cfg, trace, calls, i - 1);
      LabelsAcrossStep(cfg, trace[i - 1], calls[i - 1], trace[i]);
    }
  }

  lemma LabelsAcrossStep(cfg: Config, s: Store, call: Call, s': Store)
    requires Step(cfg, s, call, s') && LabelsUnique(s)
    ensures LabelsUnique(s')
  {
    StepEffect(cfg, s, call, s');
    LabelsAcrossEffect(cfg, s, call.rpc, s');
  }

  lemma LabelsAcrossEffect(cfg: Config, s: Store, rpc: Rpc, s': Store)
    requires Effect(cfg, s, rpc, s') && LabelsUnique(s)
    ensures LabelsUnique(s')
  {
    forall u, v | u in s'.volumes && v in s'.volumes && s'.volumes[u].volumeLabel == s'.volumes[v].volumeLabel
      ensures u == v
    {
      KeepsOrFresh(cfg, s, rpc, s', u);
      KeepsOrFresh(cfg, s, rpc, s', v);
    }
  }

  lemma KeepsOrFresh(cfg: Config, s: Store, rpc: Rpc, s': Store, v: int)
    requires Effect(cfg, s, rpc, s') && v in s'.volumes
    ensures v in s.volumes ==> s'.volumes[v].volumeLabel == s.volumes[v].volumeLabel
    ensures v !in s.volumes ==> v == Touched(cfg, s, rpc) && Birth(cfg, s, rpc, v, s'.volumes[v])
    ensures v !in s.volumes ==> forall u :: u in s.volumes ==> s.volumes[u].volumeLabel != s'.volumes[v].volumeLabel
  {
    forall u | u in s.volumes
      ensures u in s.WithLabel(s.volumes[u].volumeLabel)
    {
    }
    AcrossStep(cfg, s, rpc, s', v);
    AtVolume(cfg, s, rpc, s', v);
  }

  // ----- Attachments

  // Whoever else is asked for an attached volume is refused, and nothing changes.
  lemma AttachedVolumeRefuses(cfg: Config, s: Store, call: Call, v: int, home: int)
    requires v in s.volumes && s.volumes[v].node == Some(home) && Targets(cfg, call.rpc, v)
    ensures call.rpc.DeleteVolume? ==>
      Exec(cfg, s, call.rpc, call.faults).0 == s && ReplyTo(cfg, s, call).Failed?
    ensures call.rpc.Publish? && !Publishes(cfg, call.rpc, v, home) ==>
      Exec(cfg, s, call.rpc, call.faults).0 == s && ReplyTo(cfg, s, call).Failed?
    ensures call.rpc.Unpublish? && !Unpublishes(cfg, call.rpc, v, home) ==>
      Exec(cfg, s, call.rpc, call.faults).0 == s
  {
  }

  // Once attached, a volume stays where it is, whole and undeleted, until an Unpublish
  // names both it and its node; meanwhile every other claim on it is refused.
  lemma {:induction false} AttachmentPersists(cfg: Config, trace: seq<Store>, calls: seq<Call>, v: int, home: int, i: nat)
    requires Run(cfg, trace, calls) && i < |trace|
    requires v in trace[0].volumes && trace[0].volumes[v].node == Some(home)
    requires forall k :: 0 <= k < |calls| ==> !Unpublishes(cfg, calls[k].rpc, v, home)
    ensures v in trace[i].volumes && trace[i].volumes[v].node == Some(home)
    ensures i > 0 ==> v in trace[i - 1].volumes && trace[i - 1].volumes[v].size <= trace[i].volumes[v].size
    ensures i < |calls| && Targets(cfg, calls[i].rpc, v) ==>
      && (calls[i].rpc.DeleteVolume? ==> trace[i + 1] == trace[i] && ReplyTo(cfg, trace[i], calls[i]).Failed?)
      && (calls[i].rpc.Publish? && !Publishes(cfg, calls[i].rpc, v, home) ==>
          trace[i + 1] == trace[i] && ReplyTo(cfg, trace[i], calls[i]).Failed?)
      && (calls[i].rpc.Unpublish? ==> trace[i + 1] == trace[i])
  {
    if i > 0 {
      AttachmentPersists(cfg, trace, calls, v, home, i - 1);
      StepEffect(cfg, trace[i - 1], calls[i - 1], trace[i]);
      AcrossStep(cfg, trace[i - 1], calls[i - 1].rpc, trace[i], v);
    }
    if i < |calls| && Targets(cfg, calls[i].rpc, v) {
      AttachedVolumeRefuses(cfg, trace[i], calls[i], v, home);
    }
  }

  // ----- Provenance

  ghost predicate BornAt(cfg: Config, trace: seq<Store>, calls: seq<Call>, v: int, k: nat)
    requires k < |calls| && |trace| == |calls| + 1
  {
    v !in trace[k].volumes && v in trace[k + 1].volumes && Birth(cfg, trace[k], calls[k].rpc, v, trace[k + 1].volumes[v])
  }

  // Every volume of every reachable store was there at the start or was made by a create
  // call whose topology rule chose its region. A newly made one is encrypted exactly when
  // the request asked for it, and then its region offered encryption.
  lemma {:induction false} EveryVolumeHasAnOrigin(cfg: Config, trace: seq<Store>, calls: seq<Call>, v: int, i: nat)
    requires Run(cfg, trace, calls) && i < |trace| && v in trace[i].volumes
    ensures
      || (v in trace[0].volumes
          && trace[i].volumes[v].region == trace[0].volumes[v].region
          && trace[i].volumes[v].volumeLabel == trace[0].volumes[v].volumeLabel)
      || exists k: nat :: k < i && BornAt(cfg, trace, calls, v, k)
          && trace[i].volumes[v].region == RegionFor(cfg, calls[k].rpc.create.topology)
          && trace[i].volumes[v].volumeLabel == LabelFor(cfg.prefix, calls[k].rpc.create.name)
          && (calls[k].rpc.create.source.NoSource? ==>
              && (trace[i].volumes[v].encryption == "enabled" <==> AsksForEncryption(calls[k].rpc.create))
              && (trace[i].volumes[v].encryption == "enabled" ==> Encrypts(trace[k], trace[i].volumes[v].region)))
  {
    if i > 0 {
      var before, after := trace[i - 1], trace[i];
      StepEffect(cfg, before, calls[i - 1], after);
      KeepsOrFresh(cfg, before, calls[i - 1].rpc, after, v);
      if v in before.volumes {
        EveryVolumeHasAnOrigin(cfg, trace, calls, v, i - 1);
        AcrossStep(cfg, before, calls[i - 1].rpc, after, v);
      } else {
        assert BornAt(cfg, trace, calls, v, i - 1);
      }
    }
  }
}
