/**
 Idempotence and retries: after any number of attempts at a request, each failing
 wherever it may, a clean call ends in the store and with the answer that one clean call
 would have produced in the first place.
 */
module ControllerRetry {
  import opened GoText
  import opened Cloud
  import opened Faults
  import opened VolumeKeys
  import opened ControllerSpec
  import opened ControllerRuns
  import Sizes
  import Limits

  ghost function Clean(cfg: Config, s: Store, rpc: Rpc): (Store, Reply) {
    Exec(cfg, s, rpc, NO_FAULTS)
  }

  ghost function AfterAttempts(cfg: Config, s: Store, rpc: Rpc, attempts: seq<FaultPlan>): Store
    decreases |attempts|
  {
    if attempts == [] then s
    else AfterAttempts(cfg, Exec(cfg, s, rpc, attempts[0]).0, rpc, attempts[1..])
  }

  lemma RetryDelete(cfg: Config, s: Store, rpc: Rpc, faults: FaultPlan)
    requires rpc.DeleteVolume?
    ensures Clean(cfg, Exec(cfg, s, rpc, faults).0, rpc) == Clean(cfg, s, rpc)
  {
  }

  lemma RetryPublish(cfg: Config, s: Store, rpc: Rpc, faults: FaultPlan)
    requires rpc.Publish?
    ensures Clean(cfg, Exec(cfg, s, rpc, faults).0, rpc) == Clean(cfg, s, rpc)
  {
    var s' := Exec(cfg, s, rpc, faults).0;
    if s' != s {
      var v, n := DecodeVolume(cfg.hash, rpc.volumeId).value, DecodeNode(cfg.hash, rpc.nodeId).value;
      assert s' == s.Put(v, Attached(s.volumes[v], n));
      assert Clean(cfg, s, rpc) == (s', Published(s'.volumes[v].path));
    }
  }

  lemma RetryUnpublish(cfg: Config, s: Store, rpc: Rpc, faults: FaultPlan)
    requires rpc.Unpublish?
    ensures Clean(cfg, Exec(cfg, s, rpc, faults).0, rpc) == Clean(cfg, s, rpc)
  {
    var s' := Exec(cfg, s, rpc, faults).0;
    if s' != s {
      var v := DecodeVolume(cfg.hash, rpc.volumeId).value;
      assert s' == s.Put(v, s.volumes[v].(node := None));
      PutTwice(s, v, s.volumes[v].(node := None), s.volumes[v].(node := None));
    }
  }

  lemma RetryExpand(cfg: Config, s: Store, rpc: Rpc, faults: FaultPlan)
    requires rpc.Expand?
    ensures Clean(cfg, Exec(cfg, s, rpc, faults).0, rpc) == Clean(cfg, s, rpc)
  {
    var s' := Exec(cfg, s, rpc, faults).0;
    if s' != s {
      var v := DecodeVolume(cfg.hash, rpc.volumeId).value;
      var resizing := s.volumes[v].(size := Sizes.BytesToGB(Sizes.RequestedCapacity(rpc.range).size), active := false);
      var resized := resizing.(active := true);
      PutTwice(s, v, resizing, resized);
      PutTwice(s, v, resizing, resizing);
      PutTwice(s, v, resized, resizing);
      assert s' == s.Put(v, resizing) || s' == s.Put(v, resized);
      assert Clean(cfg, s, rpc) == (s.Put(v, resized), Expanded(Sizes.RequestedCapacity(rpc.range).size));
    }
  }

  lemma RetryOnce(cfg: Config, s: Store, rpc: Rpc, faults: FaultPlan)
    requires !rpc.CreateVolume?
    ensures Clean(cfg, Exec(cfg, s, rpc, faults).0, rpc) == Clean(cfg, s, rpc)
  {
    match rpc
    case DeleteVolume(_) => RetryDelete(cfg, s, rpc, faults);
    case Publish(_, _, _) => RetryPublish(cfg, s, rpc, faults);
    case Unpublish(_, _) => RetryUnpublish(cfg, s, rpc, faults);
    case Expand(_, _) => RetryExpand(cfg, s, rpc, faults);
  }

  // Delete, Publish, Unpublish and Expand converge.
  lemma {:induction false} RetriesConverge(cfg: Config, s: Store, rpc: Rpc, attempts: seq<FaultPlan>)
    requires !rpc.CreateVolume?
    ensures Clean(cfg, AfterAttempts(cfg, s, rpc, attempts), rpc) == Clean(cfg, s, rpc)
    decreases |attempts|
  {
    if attempts != [] {
      RetryOnce(cfg, s, rpc, attempts[0]);
      RetriesConverge(cfg, Exec(cfg, s, rpc, attempts[0]).0, rpc, attempts[1..]);
    }
  }

  // ----- Create: each attempt is offered its own fresh id

  ghost predicate LegalAttempts(cfg: Config, s: Store, req: CreateRequest, attempts: seq<(int, FaultPlan)>)
    decreases |attempts|
  {
    attempts == []
    || (Legal(s, CreateVolume(req, attempts[0].0))
        && LegalAttempts(cfg, CreateEffect(cfg, s, req, attempts[0].0, attempts[0].1).0, req, attempts[1..]))
  }

  ghost function AfterCreates(cfg: Config, s: Store, req: CreateRequest, attempts: seq<(int, FaultPlan)>): Store
    decreases |attempts|
  {
    if attempts == [] then s
    else AfterCreates(cfg, CreateEffect(cfg, s, req, attempts[0].0, attempts[0].1).0, req, attempts[1..])
  }

  // The volume an attempt left behind is found again and finished.
  lemma RetryAfterMaking(s: Store, params: VolumeParams, source: Option<int>, newId: int, later: int, active: bool)
    requires newId !in s.volumes && s.WithLabel(params.name) == {}
    requires source.Some? ==> source.value in s.volumes
    ensures var s' := s.Put(newId, Made(s, params, source).(active := active));
      CreateAndWait(s', params, source, later, NO_FAULTS) == CreateAndWait(s, params, source, newId, NO_FAULTS)
  {
    var made := Made(s, params, source);
    var s' := s.Put(newId, made.(active := active));
    assert s'.WithLabel(params.name) == {newId} by {
      forall v | v in s.volumes && s.volumes[v].volumeLabel == params.name
        ensures v in s.WithLabel(params.name)
      {
      }
    }
    PutTwice(s, newId, made.(active := active), made.(active := true));
    PutTwice(s, newId, made, made.(active := true));
  }

  lemma RetryAfterWaking(s: Store, params: VolumeParams, source: Option<int>, newId: int, v: int)
    requires s.WithLabel(params.name) == {v}
    requires v in s.volumes && (source.Some? || s.volumes[v].size == params.targetSizeGB)
    ensures var s' := s.Put(v, s.volumes[v].(active := true));
      CreateAndWait(s', params, source, newId, NO_FAULTS) == CreateAndWait(s, params, source, newId, NO_FAULTS)
  {
    var s' := s.Put(v, s.volumes[v].(active := true));
    assert s'.WithLabel(params.name) == s.WithLabel(params.name);
    assert The(s.WithLabel(params.name)) == v && The(s'.WithLabel(params.name)) == v;
    PutTwice(s, v, s.volumes[v].(active := true), s.volumes[v].(active := true));
  }

  // The checks before the creation do not depend on what an attempt changed.
  lemma SameChecks(cfg: Config, s: Store, s': Store, req: CreateRequest)
    requires s'.regions == s.regions
    requires forall v :: v in s.volumes ==> v in s'.volumes && s'.volumes[v].region == s.volumes[v].region
    requires SourceVolume(cfg, s, req, NO_FAULTS).Good?
    ensures Params(cfg, s', req, NO_FAULTS) == Params(cfg, s, req, NO_FAULTS)
    ensures SourceVolume(cfg, s', req, NO_FAULTS) == SourceVolume(cfg, s, req, NO_FAULTS)
  {
  }

  // What a failure-free check would have found, when a faulty one got through.
  lemma FaultyChecksAgree(cfg: Config, s: Store, req: CreateRequest, faults: FaultPlan)
    ensures Params(cfg, s, req, faults).Good? ==> Params(cfg, s, req, NO_FAULTS) == Params(cfg, s, req, faults)
    ensures SourceVolume(cfg, s, req, faults).Good? ==>
      SourceVolume(cfg, s, req, NO_FAULTS) == SourceVolume(cfg, s, req, faults)
  {
  }

  // A clean create is its checks followed by the creation.
  lemma CleanCreate(cfg: Config, s: Store, req: CreateRequest, newId: int, params: VolumeParams, source: Option<int>)
    requires req.name != "" && req.capabilities != [] && ValidCapabilities(req.capabilities)
    requires Params(cfg, s, req, NO_FAULTS) == Good(params) && SourceVolume(cfg, s, req, NO_FAULTS) == Good(source)
    ensures CreateEffect(cfg, s, req, newId, NO_FAULTS)
         == Answered(req, params, CreateAndWait(s, params, source, newId, NO_FAULTS))
  {
  }

  ghost function Answered(req: CreateRequest, params: VolumeParams, r: (Store, Outcome<int>)): (Store, Reply)
    requires r.1.Good? ==> r.1.value in r.0.volumes
  {
    (r.0, match r.1
          case Bad(code) => Failed(code)
          case Good(v) => Created(ResponseFor(req, params.size, v, r.0.volumes[v])))
  }

  // What a faulty attempt that changed the store leaves for the next one.
  lemma AttemptLeaves(cfg: Config, s: Store, req: CreateRequest, newId: int, faults: FaultPlan)
    requires Legal(s, CreateVolume(req, newId))
    requires CreateEffect(cfg, s, req, newId, faults).0 != s
    ensures req.name != "" && req.capabilities != [] && ValidCapabilities(req.capabilities)
    ensures Params(cfg, s, req, faults).Good? && SourceVolume(cfg, s, req, faults).Good?
    ensures CreateEffect(cfg, s, req, newId, faults).0
         == CreateAndWait(s, Params(cfg, s, req, faults).value, SourceVolume(cfg, s, req, faults).value, newId, faults).0
    ensures SourceVolume(cfg, s, req, faults).value.Some? ==> SourceVolume(cfg, s, req, faults).value.value in s.volumes
  {
  }

  lemma RetryCreateOnce(cfg: Config, s: Store, req: CreateRequest, newId: int, faults: FaultPlan, later: int) returns (i: int)
    requires Legal(s, CreateVolume(req, newId))
    ensures i == newId || i == later
    ensures var s' := CreateEffect(cfg, s, req, newId, faults).0;
      CreateEffect(cfg, s', req, later, NO_FAULTS) == CreateEffect(cfg, s, req, i, NO_FAULTS)
  {
    var s' := CreateEffect(cfg, s, req, newId, faults).0;
    i := later;
    if s' != s {
      AttemptLeaves(cfg, s, req, newId, faults);
      var params, source := Params(cfg, s, req, faults).value, SourceVolume(cfg, s, req, faults).value;
      i := RetryMaking(s, params, source, newId, faults, later);
      FaultyChecksAgree(cfg, s, req, faults);
      StepEffect(cfg, s, Call(CreateVolume(req, newId), faults), s');
      RegionsStay(cfg, s, CreateVolume(req, newId), s');
      SameChecks(cfg, s, s', req);
      CleanCreate(cfg, s, req, i, params, source);
      CleanCreate(cfg, s', req, later, params, source);
    }
  }

  lemma RegionsStay(cfg: Config, s: Store, rpc: Rpc, s': Store)
    requires Effect(cfg, s, rpc, s') && !rpc.DeleteVolume?
    ensures s'.regions == s.regions
    ensures forall v :: v in s.volumes ==> v in s'.volumes && s'.volumes[v].region == s.volumes[v].region
  {
    forall v | v in s.volumes
      ensures v in s'.volumes && s'.volumes[v].region == s.volumes[v].region
    {
      assert Get(s, v) == Some(s.volumes[v]);
      assert v != Touched(cfg, s, rpc) ==> Get(s', v) == Get(s, v);
    }
  }

  lemma RetryMaking(s: Store, params: VolumeParams, source: Option<int>, newId: int, faults: FaultPlan, later: int)
    returns (i: int)
    requires newId !in s.volumes && (source.Some? ==> source.value in s.volumes)
    requires CreateAndWait(s, params, source, newId, faults).0 != s
    ensures i == newId || i == later
    ensures CreateAndWait(CreateAndWait(s, params, source, newId, faults).0, params, source, later, NO_FAULTS)
         == CreateAndWait(s, params, source, i, NO_FAULTS)
  {
    var s' := CreateAndWait(s, params, source, newId, faults).0;
    CreateAndWaitShape(s, params, source, newId, faults);
    var existing := s.WithLabel(params.name);
    if |existing| == 1 {
      RetryAfterWaking(s, params, source, later, The(existing));
      i := later;
    } else {
      var active :| s' == s.Put(newId, Made(s, params, source).(active := active));
      RetryAfterMaking(s, params, source, newId, later, active);
      i := newId;
    }
  }

  // However many attempts came before, a clean CreateVolume ends as one clean call would
  // have, under one of the ids the API offered: no second volume is ever made.
  lemma {:induction false} CreateRetriesConverge(
    cfg: Config, s: Store, req: CreateRequest, attempts: seq<(int, FaultPlan)>, last: int)
    returns (i: int)
    requires LegalAttempts(cfg, s, req, attempts)
    ensures i == last || exists k :: 0 <= k < |attempts| && attempts[k].0 == i
    ensures CreateEffect(cfg, AfterCreates(cfg, s, req, attempts), req, last, NO_FAULTS)
         == CreateEffect(cfg, s, req, i, NO_FAULTS)
    decreases |attempts|
  {
    i := last;
    if attempts != [] {
      var s1 := CreateEffect(cfg, s, req, attempts[0].0, attempts[0].1).0;
      var j := CreateRetriesConverge(cfg, s1, req, attempts[1..], last);
      i := RetryCreateOnce(cfg, s, req, attempts[0].0, attempts[0].1, j);
      if i != attempts[0].0 && j != last {
        var k :| 0 <= k < |attempts[1..]| && attempts[1..][k].0 == j;
        assert attempts[k + 1].0 == i;
      }
    }
  }

  // ----- What success means

  // A created volume carries the request's label and is active, and the response names it.
  lemma CreatedIsNamed(cfg: Config, s: Store, req: CreateRequest, newId: int, faults: FaultPlan, response: CreateResponse)
    returns (v: int)
    requires CreateEffect(cfg, s, req, newId, faults).1 == Created(response)
    ensures var s' := CreateEffect(cfg, s, req, newId, faults).0;
      && v in s'.volumes && s'.volumes[v].active && s'.volumes[v].volumeLabel == LabelFor(cfg.prefix, req.name)
      && response.volumeId == VolumeKey(v, LabelFor(cfg.prefix, req.name)).Print()
    ensures v in s.volumes || v == newId
  {
    ParamsAreSound(cfg, s, req, faults);
    var params, source := Params(cfg, s, req, faults).value, SourceVolume(cfg, s, req, faults).value;
    v := WaitedMeans(s, params, source, newId, faults);
  }

  // A created volume carries the request's label, is active, and is identified and sized
  // by the response; the reported capacity exceeds the volume's own by less than one GiB,
  // and matches the figure of a listing exactly when it is a whole number of GiB.
  lemma CreatedMeans(cfg: Config, s: Store, req: CreateRequest, newId: int, faults: FaultPlan, response: CreateResponse)
    returns (v: int)
    requires CreateEffect(cfg, s, req, newId, faults).1 == Created(response)
    requires req.range.Some? ==> IsInt(req.range.value.required) && IsInt(req.range.value.limit)
    ensures var s' := CreateEffect(cfg, s, req, newId, faults).0;
      && v in s'.volumes
      && var volume := s'.volumes[v];
      && response.volumeId == VolumeKey(v, volume.volumeLabel).Print()
      && volume.volumeLabel == LabelFor(cfg.prefix, req.name) && volume.active
      && response.region == volume.region
      && (req.source.NoSource? ==>
        && volume.size == Sizes.BytesToGB(response.capacity)
        && 0 <= response.capacity - Sizes.GbToBytes(volume.size) < Sizes.GIB
        && (response.capacity == Sizes.GbToBytes(volume.size) <==> response.capacity % Sizes.GIB == 0))
    ensures v in s.volumes || v == newId
  {
    ParamsAreSound(cfg, s, req, faults);
    var params, source := Params(cfg, s, req, faults).value, SourceVolume(cfg, s, req, faults).value;
    v := WaitedMeans(s, params, source, newId, faults);
    CapacityIsInt(req.range);
    Sizes.TruncationLoss(params.size);
  }

  lemma CapacityIsInt(range: Option<Sizes.CapacityRange>)
    requires range.Some? ==> IsInt(range.value.required) && IsInt(range.value.limit)
    ensures Sizes.RequestedCapacity(range).Bytes? ==> IsInt(Sizes.RequestedCapacity(range).size)
  {
    if range.Some? && Sizes.RequestedCapacity(range).Bytes? {
      Sizes.CapacityBounds(range.value.required, range.value.limit);
    }
  }

  lemma WaitedMeans(s: Store, params: VolumeParams, source: Option<int>, newId: int, faults: FaultPlan) returns (v: int)
    requires CreateAndWait(s, params, source, newId, faults).1.Good?
    ensures CreateAndWait(s, params, source, newId, faults).1 == Good(v)
    ensures v in s.volumes || v == newId
    ensures var volume := CreateAndWait(s, params, source, newId, faults).0.volumes[v];
      volume.volumeLabel == params.name && volume.active && (source.None? ==> volume.size == params.targetSizeGB)
  {
    v := CreateAndWait(s, params, source, newId, faults).1.value;
    var s1 := Attempt(s, params, source, newId, faults).0;
    assert s1.volumes[v].volumeLabel == params.name by {
      if |s.WithLabel(params.name)| == 1 {
        assert v in s.WithLabel(params.name);
      }
    }
  }

  // The volume a creation answers with: a new one as asked for or copied, when no volume
  // had the label, and otherwise the one that had it, as it was.
  lemma WaitedFrom(s: Store, params: VolumeParams, source: Option<int>, newId: int, faults: FaultPlan) returns (v: int)
    requires newId !in s.volumes
    requires CreateAndWait(s, params, source, newId, faults).1.Good?
    ensures CreateAndWait(s, params, source, newId, faults).1 == Good(v)
    ensures var found, volume := s.WithLabel(params.name), CreateAndWait(s, params, source, newId, faults).0.volumes[v];
      || (found == {v} && volume == s.volumes[v].(active := true))
      || (found == {} && v == newId && (source.Some? ==> source.value in s.volumes)
          && volume == Made(s, params, source).(active := true))
  {
    v := CreateAndWait(s, params, source, newId, faults).1.value;
    var found, s1 := s.WithLabel(params.name), Attempt(s, params, source, newId, faults).0;
    if found != {} {
      assert |found| == 1;
      assert found == {The(found)} && v == The(found);
    }
  }

  ghost function AskedEncryption(req: CreateRequest): string {
    if AsksForEncryption(req) then "enabled" else "disabled"
  }

  // When a successful create gives what was asked for. Its volume lies in the region of the
  // topology rule exactly when no volume carried the label or the one that did lies there;
  // without a source the same goes for the encryption; a clone has the capacity reported
  // exactly when the source, or the volume that carried the label, already had it.
  lemma CreatedFitsExactly(
    cfg: Config, s: Store, req: CreateRequest, newId: int, faults: FaultPlan, response: CreateResponse)
    returns (v: int)
    requires Legal(s, CreateVolume(req, newId))
    requires CreateEffect(cfg, s, req, newId, faults).1 == Created(response)
    ensures v in CreateEffect(cfg, s, req, newId, faults).0.volumes
    ensures var found, volume := s.WithLabel(LabelFor(cfg.prefix, req.name)), CreateEffect(cfg, s, req, newId, faults).0.volumes[v];
      && response.volumeId == VolumeKey(v, volume.volumeLabel).Print()
      && (found == {} ==> v == newId) && (found != {} ==> found == {v})
      && (volume.region == RegionFor(cfg, req.topology) <==>
          v !in found || s.volumes[v].region == RegionFor(cfg, req.topology))
      && (req.source.NoSource? ==> (volume.encryption == AskedEncryption(req) <==>
          v !in found || s.volumes[v].encryption == AskedEncryption(req)))
      && (req.source.FromVolume? ==>
        && Parse(req.source.volumeId).Some?
        && var from := Parse(req.source.volumeId).value.id;
        && from in s.volumes
        && (volume.size == Sizes.BytesToGB(response.capacity) <==>
            s.volumes[if v in found then v else from].size == Sizes.BytesToGB(response.capacity))
        && (v !in found ==> volume.encryption == s.volumes[from].encryption))
  {
    ParamsAreSound(cfg, s, req, faults);
    var params, source := Params(cfg, s, req, faults).value, SourceVolume(cfg, s, req, faults).value;
    v := WaitedFrom(s, params, source, newId, faults);
  }

  // A published volume is on the node, at the path returned, and nothing else moved.
  lemma PublishedMeans(cfg: Config, s: Store, rpc: Rpc, faults: FaultPlan, path: string)
    requires rpc.Publish? && Exec(cfg, s, rpc, faults).1 == Published(path)
    ensures var s', v, n := Exec(cfg, s, rpc, faults).0, Touched(cfg, s, rpc), DecodeNode(cfg.hash, rpc.nodeId);
      && n.Some? && n.value in s.instances
      && v in s'.volumes && s'.volumes[v].node == n && s'.volumes[v].path == path && path != ""
      && OnlyAt(s, s', v)
      && (s.volumes[v].node.None? ==> HasRoom(s, n.value))
  {
    StepEffect(cfg, s, Call(rpc, faults), Exec(cfg, s, rpc, faults).0);
  }

  lemma UnpublishedMeans(cfg: Config, s: Store, rpc: Rpc, faults: FaultPlan)
    requires rpc.Unpublish? && Exec(cfg, s, rpc, faults).1 == Unpublished
    ensures var s', v := Exec(cfg, s, rpc, faults).0, Touched(cfg, s, rpc);
      && OnlyAt(s, s', v)
      && (v in s'.volumes ==> s'.volumes[v].node != DecodeNode(cfg.hash, rpc.nodeId))
      && (v in s.volumes <==> v in s'.volumes)
  {
  }

  lemma DeletedMeans(cfg: Config, s: Store, rpc: Rpc, faults: FaultPlan)
    requires rpc.DeleteVolume? && Exec(cfg, s, rpc, faults).1 == Deleted
    ensures Exec(cfg, s, rpc, faults).0 == s.Without(Touched(cfg, s, rpc))
  {
    assert Touched(cfg, s, rpc) !in s.volumes ==> s.volumes - {Touched(cfg, s, rpc)} == s.volumes;
  }

  // An expanded volume has the size answered for, again short by less than one GiB.
  lemma ExpandedMeans(cfg: Config, s: Store, rpc: Rpc, faults: FaultPlan, capacity: int)
    requires rpc.Expand? && Exec(cfg, s, rpc, faults).1 == Expanded(capacity)
    requires rpc.range.Some? ==> IsInt(rpc.range.value.required) && IsInt(rpc.range.value.limit)
    ensures var s', v := Exec(cfg, s, rpc, faults).0, Touched(cfg, s, rpc);
      && v in s.volumes && OnlyAt(s, s', v)
      && s'.volumes[v] == s.volumes[v].(size := Sizes.BytesToGB(capacity), active := true)
      && s.volumes[v].size <= s'.volumes[v].size
      && 0 <= capacity - Sizes.GbToBytes(s'.volumes[v].size) < Sizes.GIB
      && (capacity == Sizes.GbToBytes(s'.volumes[v].size) <==> capacity % Sizes.GIB == 0)
  {
    if rpc.range.Some? {
      Sizes.CapacityBounds(rpc.range.value.required, rpc.range.value.limit);
    }
    Sizes.TruncationLoss(capacity);
  }

  // ----- Repeating a create later in a run

  // A later create under the same label that succeeds answers with the same volume, as
  // long as nobody deleted it in between.
  lemma RepeatedCreateFindsVolume(
    cfg: Config, trace: seq<Store>, calls: seq<Call>, i: nat, j: nat, v: int, req: CreateRequest, newId: int, faults: FaultPlan,
    response: CreateResponse)
    requires Run(cfg, trace, calls) && i <= j < |trace|
    requires v in trace[i].volumes && NotDeleted(cfg, calls, v, i, j)
    requires trace[i].volumes[v].volumeLabel == LabelFor(cfg.prefix, req.name)
    requires CreateEffect(cfg, trace[j], req, newId, faults).1 == Created(response)
    ensures response.volumeId == VolumeKey(v, trace[i].volumes[v].volumeLabel).Print()
    ensures CreateEffect(cfg, trace[j], req, newId, faults).0.volumes.Keys == trace[j].volumes.Keys
  {
    VolumeSurvives(cfg, trace, calls, v, i, j);
    var s := trace[j];
    ParamsAreSound(cfg, s, req, faults);
    var existing := s.WithLabel(LabelFor(cfg.prefix, req.name));
    assert v in existing;
    assert |existing| == 1;
    assert The(existing) == v;
  }

  // A clean repeat of a successful request without a source gives the same answer exactly
  // when the volume still has the size it had then.
  lemma RepeatedCreateSameAnswer(
    cfg: Config, trace: seq<Store>, calls: seq<Call>, i: nat, j: nat, v: int, newId: int)
    requires Run(cfg, trace, calls) && i < j < |trace| && LabelsUnique(trace[0])
    requires calls[i].rpc.CreateVolume? && calls[i].rpc.create.source.NoSource?
    requires ReplyTo(cfg, trace[i], calls[i]).Created?
    requires v in trace[i + 1].volumes
    requires trace[i + 1].volumes[v].volumeLabel == LabelFor(cfg.prefix, calls[i].rpc.create.name)
    requires NotDeleted(cfg, calls, v, i + 1, j)
    ensures v in trace[j].volumes
    ensures CreateEffect(cfg, trace[j], calls[i].rpc.create, newId, NO_FAULTS).1 == ReplyTo(cfg, trace[i], calls[i])
      <==> trace[j].volumes[v].size == trace[i + 1].volumes[v].size
  {
    var req, s := calls[i].rpc.create, trace[j];
    var text := LabelFor(cfg.prefix, req.name);
    VolumeSurvives(cfg, trace, calls, v, i + 1, j);
    LabelsStayUnique(cfg, trace, calls, i + 1);
    LabelsStayUnique(cfg, trace, calls, j);
    InstancesAndRegionsStay(cfg, trace, calls, i, j);
    StepEffect(cfg, trace[i], calls[i], trace[i + 1]);
    FaultyChecksAgree(cfg, trace[i], req, calls[i].faults);
    ParamsAreSound(cfg, trace[i], req, calls[i].faults);
    assert Params(cfg, s, req, NO_FAULTS) == Params(cfg, trace[i], req, calls[i].faults);
    LabelOfOne(trace[i + 1], v);
    LabelOfOne(s, v);
    CreatedUnderLabel(cfg, trace[i], req, calls[i].rpc.newId, calls[i].faults, v);
  }

  lemma CreatedUnderLabel(cfg: Config, s: Store, req: CreateRequest, newId: int, faults: FaultPlan, v: int)
    requires Legal(s, CreateVolume(req, newId)) && req.source.NoSource?
    requires CreateEffect(cfg, s, req, newId, faults).1.Created?
    requires CreateEffect(cfg, s, req, newId, faults).0.WithLabel(LabelFor(cfg.prefix, req.name)) == {v}
    ensures var (s', reply) := CreateEffect(cfg, s, req, newId, faults); var params := Params(cfg, s, req, faults).value;
      && v in s'.volumes && s'.volumes[v].size == params.targetSizeGB
      && reply == Created(ResponseFor(req, params.size, v, s'.volumes[v]))
  {
    ParamsAreSound(cfg, s, req, faults);
    var s' := CreateEffect(cfg, s, req, newId, faults).0;
    var params := Params(cfg, s, req, faults).value;
    var made := CreateAndWait(s, params, None, newId, faults).1.value;
    assert made in s'.volumes && s'.volumes[made].volumeLabel == params.name by {
      if |s.WithLabel(params.name)| == 1 {
        assert made in s.WithLabel(params.name);
      }
    }
    assert made in s'.WithLabel(params.name);
  }

  // ----- Different names

  ghost predicate IdsInRange(s: Store) {
    forall v :: v in s.volumes ==> 0 <= v <= MAX_INT
  }

  lemma {:induction false} IdsStayInRange(cfg: Config, trace: seq<Store>, calls: seq<Call>, i: nat)
    requires Run(cfg, trace, calls) && i < |trace| && IdsInRange(trace[0])
    ensures IdsInRange(trace[i])
  {
    if i > 0 {
      IdsStayInRange(cfg, trace, calls, i - 1);
      IdsAcrossStep(cfg, trace[i - 1], calls[i - 1], trace[i]);
    }
  }

  lemma IdsAcrossStep(cfg: Config, s: Store, call: Call, s': Store)
    requires Step(cfg, s, call, s') && IdsInRange(s)
    ensures IdsInRange(s')
  {
    StepEffect(cfg, s, call, s');
    forall v | v in s'.volumes
      ensures 0 <= v <= MAX_INT
    {
      AcrossStep(cfg, s, call.rpc, s', v);
    }
  }

  // A create that succeeds anywhere in a run answers with an id that decodes to the label
  // of its request.
  lemma AnswerDecodesToLabel(cfg: Config, trace: seq<Store>, calls: seq<Call>, i: nat, response: CreateResponse)
    requires Run(cfg, trace, calls) && IdsInRange(trace[0]) && i < |calls|
    requires calls[i].rpc.CreateVolume? && ReplyTo(cfg, trace[i], calls[i]) == Created(response)
    ensures Parse(response.volumeId).Some?
    ensures Parse(response.volumeId).value.volumeLabel == LabelFor(cfg.prefix, calls[i].rpc.create.name)
  {
    var req, newId := calls[i].rpc.create, calls[i].rpc.newId;
    IdsStayInRange(cfg, trace, calls, i);
    var v := CreatedIsNamed(cfg, trace[i], req, newId, calls[i].faults, response);
    assert Step(cfg, trace[i], calls[i], trace[i + 1]);
    KeyRoundTrip(VolumeKey(v, LabelFor(cfg.prefix, req.name)));
  }

  // Creates with different names that fit beside the prefix never answer with the same
  // volume id, whenever in a run they happen and whatever happens between them.
  lemma DifferentNamesDifferentVolumes(cfg: Config, trace: seq<Store>, calls: seq<Call>, i: nat, j: nat)
    requires Run(cfg, trace, calls) && IdsInRange(trace[0]) && i < |calls| && j < |calls|
    requires calls[i].rpc.CreateVolume? && calls[j].rpc.CreateVolume?
    requires |cfg.prefix| <= MAX_PREFIX_LENGTH
    requires |cfg.prefix| + |calls[i].rpc.create.name| <= LABEL_LENGTH
    requires |cfg.prefix| + |calls[j].rpc.create.name| <= LABEL_LENGTH
    requires calls[i].rpc.create.name != calls[j].rpc.create.name
    ensures var a, b := ReplyTo(cfg, trace[i], calls[i]), ReplyTo(cfg, trace[j], calls[j]);
      a.Created? && b.Created? ==> a.response.volumeId != b.response.volumeId
  {
    var a, b := ReplyTo(cfg, trace[i], calls[i]), ReplyTo(cfg, trace[j], calls[j]);
    if a.Created? && b.Created? {
      AnswerDecodesToLabel(cfg, trace, calls, i, a.response);
      AnswerDecodesToLabel(cfg, trace, calls, j, b.response);
      ShortNamesKeepLabelsApart(cfg.prefix, calls[i].rpc.create.name, calls[j].rpc.create.name);
    }
  }

  lemma {:induction false} InstancesAndRegionsStay(cfg: Config, trace: seq<Store>, calls: seq<Call>, i: nat, j: nat)
    requires Run(cfg, trace, calls) && i <= j < |trace|
    ensures trace[j].instances == trace[i].instances && trace[j].regions == trace[i].regions
  {
    if i < j {
      InstancesAndRegionsStay(cfg, trace, calls, i, j - 1);
      StepEffect(cfg, trace[j - 1], calls[j - 1], trace[j]);
    }
  }
}
