/**
 What each controller RPC answers and leaves behind, exactly: first the rules a create
 follows, then every RPC without faults and under any faults. Everything here is said in
 terms of the request and the store.
 */
module ControllerOutcomes {
  import opened GoText
  import opened Cloud
  import opened Faults
  import opened VolumeKeys
  import opened ControllerSpec
  import opened ControllerRuns
  import opened LuksContexts
  import ControllerRetry
  import Limits
  import Sizes

  // ----- The topology rule

  ghost predicate Names(segments: map<string, string>, region: string) {
    region != "" && TOPOLOGY_REGION in segments && segments[TOPOLOGY_REGION] == region
  }

  // The first preferred topology decides, or the first requisite one if none is preferred.
  ghost predicate Decides(topology: Option<Topology>, region: string) {
    && topology.Some?
    && var Topology(preferred, requisite) := topology.value;
    if preferred != [] then Names(preferred[0], region) else requisite != [] && Names(requisite[0], region)
  }

  // The region a request belongs in: the one its topology decides on, or else the
  // controller's own.
  ghost predicate Belongs(cfg: Config, topology: Option<Topology>, region: string) {
    Decides(topology, region) || (region == cfg.region && forall g :: !Decides(topology, g))
  }

  lemma RegionExactly(cfg: Config, topology: Option<Topology>, region: string)
    ensures RegionFor(cfg, topology) == region <==> Belongs(cfg, topology, region)
  {
    assert Decides(topology, region) ==> RegionFor(cfg, topology) == region;
    if topology.Some? && TopologyRegion(topology.value) != "" {
      assert Decides(topology, TopologyRegion(topology.value));
    }
    if RegionFor(cfg, topology) == region && !Decides(topology, region) {
      forall g
        ensures !Decides(topology, g)
      {
        assert Decides(topology, g) ==> RegionFor(cfg, topology) == g;
      }
    }
  }

  // Spelled out: whatever follows the deciding segment plays no part, and requisite
  // topologies play none next to preferred ones.
  lemma PreferredComesFirst(
    cfg: Config, first: map<string, string>, rest: seq<map<string, string>>, requisite: seq<map<string, string>>,
    region: string)
    requires Names(first, region)
    ensures RegionFor(cfg, Some(Topology([first] + rest, requisite))) == region
    ensures RegionFor(cfg, Some(Topology([], [first] + rest))) == region
  {
  }

  lemma NoRegionNamed(
    cfg: Config, first: map<string, string>, rest: seq<map<string, string>>, requisite: seq<map<string, string>>)
    requires TOPOLOGY_REGION !in first || first[TOPOLOGY_REGION] == ""
    ensures RegionFor(cfg, Some(Topology([first] + rest, requisite))) == cfg.region
    ensures RegionFor(cfg, Some(Topology([], [first] + rest))) == cfg.region
    ensures RegionFor(cfg, Some(Topology([], []))) == cfg.region == RegionFor(cfg, None)
  {
  }

  // ----- The answer to a create

  // Everything a successful create answers with, under any faults. The volume's own fields
  // are the subject of CreatedFitsExactly.
  lemma CreatedAnswer(
    cfg: Config, s: Store, req: CreateRequest, newId: int, faults: FaultPlan, response: CreateResponse,
    secrets: map<string, string>)
    requires CreateEffect(cfg, s, req, newId, faults).1 == Created(response)
    ensures LuksContextOf(secrets, response.volumeContext) ==
      if Lookup(req.parameters, LUKS_ENCRYPTED) == TRUE
      then LuksContext(true, Lookup(secrets, LUKS_KEY), Lookup(req.parameters, LUKS_CIPHER),
                       Lookup(req.parameters, LUKS_KEY_SIZE), req.name)
      else LuksContext(false, "", "", "", "")
    ensures TOPOLOGY_REGION in response.volumeContext && response.volumeContext[TOPOLOGY_REGION] == response.region
    ensures PARTITION !in response.volumeContext
    ensures Lookup(req.parameters, LUKS_ENCRYPTED) != TRUE ==> response.volumeContext.Keys == {TOPOLOGY_REGION}
    ensures Sizes.AcceptsRange(req.range) && response.capacity == Sizes.BytesAsked(req.range)
    ensures match req.source
            case NoSource => response.source == None
            case FromVolume(volumeId) => response.source == Some(volumeId)
            case _ => false
  {
    var made := ControllerRetry.CreatedIsNamed(cfg, s, req, newId, faults, response);
    LuksContextRoundTrip(req.name, req.parameters, response.region, secrets);
    ContextKeysDiffer();
    Sizes.CapacityExactly(req.range);
    ParamsAreSound(cfg, s, req, faults);
  }

  // The map itself holds the request's settings under their own keys.
  lemma ContextHolds(name: string, parameters: map<string, string>, region: string)
    requires Lookup(parameters, LUKS_ENCRYPTED) == TRUE
    ensures var context := ContextFor(name, parameters, region);
      && Lookup(context, LUKS_ENCRYPTED) == TRUE && Lookup(context, VOLUME_NAME) == name
      && Lookup(context, LUKS_CIPHER) == Lookup(parameters, LUKS_CIPHER)
      && Lookup(context, LUKS_KEY_SIZE) == Lookup(parameters, LUKS_KEY_SIZE)
  {
    ContextKeysDiffer();
  }

  // A volume a create makes, new or cloned, is in the region its request belongs in.
  lemma CreatedWhereItBelongs(
    cfg: Config, s: Store, req: CreateRequest, newId: int, faults: FaultPlan, response: CreateResponse)
    requires Legal(s, CreateVolume(req, newId))
    requires CreateEffect(cfg, s, req, newId, faults).1 == Created(response)
    requires s.WithLabel(LabelFor(cfg.prefix, req.name)) == {}
    ensures var s' := CreateEffect(cfg, s, req, newId, faults).0;
      newId in s'.volumes && Belongs(cfg, req.topology, s'.volumes[newId].region)
    ensures Belongs(cfg, req.topology, response.region)
  {
    var v := ControllerRetry.CreatedFitsExactly(cfg, s, req, newId, faults, response);
    var named := ControllerRetry.CreatedIsNamed(cfg, s, req, newId, faults, response);
    RegionExactly(cfg, req.topology, RegionFor(cfg, req.topology));
    NamedOnce(cfg, s, req, newId, faults, response, v);
  }

  lemma NamedOnce(
    cfg: Config, s: Store, req: CreateRequest, newId: int, faults: FaultPlan, response: CreateResponse, v: int)
    requires Legal(s, CreateVolume(req, newId))
    requires CreateEffect(cfg, s, req, newId, faults).1 == Created(response)
    requires s.WithLabel(LabelFor(cfg.prefix, req.name)) == {} && v == newId
    ensures var s' := CreateEffect(cfg, s, req, newId, faults).0;
      v in s'.volumes && response.region == s'.volumes[v].region
  {
    ParamsAreSound(cfg, s, req, faults);
  }

  // ----- When a create succeeds

  ghost predicate WellFormed(req: CreateRequest) {
    && req.name != "" && req.capabilities != []
    && forall c :: c in req.capabilities ==> c == SingleNodeWriter
  }

  // Encryption, if asked for, is offered where the volume belongs.
  ghost predicate EncryptionServed(cfg: Config, s: Store, req: CreateRequest) {
    AsksForEncryption(req) ==> exists g :: Belongs(cfg, req.topology, g) && Encrypts(s, g)
  }

  // The source, if there is one, is a volume that exists where the new one belongs.
  ghost predicate SourceExists(s: Store, req: CreateRequest) {
    match req.source
    case NoSource => true
    case FromVolume(volumeId) => Parse(volumeId).Some? && Parse(volumeId).value.id in s.volumes
    case _ => false
  }

  ghost function SourceCode(s: Store, req: CreateRequest): Code {
    if req.source.FromVolume? && !SourceExists(s, req) then Internal else InvalidArgument
  }

  ghost predicate SourceServed(cfg: Config, s: Store, req: CreateRequest) {
    && SourceExists(s, req)
    && (req.source.FromVolume? ==> Belongs(cfg, req.topology, s.volumes[Parse(req.source.volumeId).value.id].region))
  }

  // The label is free, or one volume has it, of the size asked for unless it is a clone.
  ghost predicate LabelServed(cfg: Config, s: Store, req: CreateRequest) {
    var found := s.WithLabel(LabelFor(cfg.prefix, req.name));
    && |found| <= 1
    && (req.source.NoSource? ==> forall v :: v in found ==> s.volumes[v].size == Sizes.BytesAsked(req.range) / Sizes.GIB)
  }

  // The calls a create makes went through.
  ghost predicate CreateCallsFine(cfg: Config, s: Store, req: CreateRequest, faults: FaultPlan) {
    && (AsksForEncryption(req) ==> At(faults, RegionLookup) == Fine)
    && (req.source.FromVolume? ==> At(faults, SourceLookup) == Fine)
    && At(faults, LabelListing) == Fine && At(faults, ActiveWait) == Fine
    && (s.WithLabel(LabelFor(cfg.prefix, req.name)) == {} ==> At(faults, Making) == Fine)
  }

  lemma ParamsExactly(cfg: Config, s: Store, req: CreateRequest, faults: FaultPlan)
    ensures Params(cfg, s, req, faults).Good? <==>
      && Sizes.AcceptsRange(req.range) && EncryptionServed(cfg, s, req)
      && (AsksForEncryption(req) ==> At(faults, RegionLookup) == Fine)
    ensures Params(cfg, s, req, faults).Bad? ==>
      Params(cfg, s, req, faults).code == if Sizes.AcceptsRange(req.range) then Internal else Unknown
  {
    Sizes.CapacityExactly(req.range);
    var region := RegionFor(cfg, req.topology);
    RegionExactly(cfg, req.topology, region);
    forall g | Belongs(cfg, req.topology, g)
      ensures g == region
    {
      RegionExactly(cfg, req.topology, g);
    }
  }

  lemma SourceExactly(cfg: Config, s: Store, req: CreateRequest, faults: FaultPlan)
    ensures SourceVolume(cfg, s, req, faults).Good? <==>
      SourceServed(cfg, s, req) && (req.source.FromVolume? ==> At(faults, SourceLookup) == Fine)
    ensures SourceVolume(cfg, s, req, faults).Good? && req.source.FromVolume? ==>
      SourceVolume(cfg, s, req, faults).value == Some(Parse(req.source.volumeId).value.id)
    ensures SourceVolume(cfg, s, req, faults).Good? && !req.source.FromVolume? ==>
      SourceVolume(cfg, s, req, faults).value == None
    ensures SourceVolume(cfg, s, req, NO_FAULTS).Bad? ==>
      SourceVolume(cfg, s, req, NO_FAULTS).code == SourceCode(s, req)
  {
    if req.source.FromVolume? && SourceExists(s, req) {
      RegionExactly(cfg, req.topology, s.volumes[Parse(req.source.volumeId).value.id].region);
    }
  }

  lemma MakingExactly(s: Store, params: VolumeParams, source: Option<int>, newId: int, faults: FaultPlan)
    requires newId !in s.volumes && (source.Some? ==> source.value in s.volumes)
    ensures var found, r := s.WithLabel(params.name), CreateAndWait(s, params, source, newId, faults).1;
      var fits := |found| <= 1 && (source.None? ==> forall v :: v in found ==> s.volumes[v].size == params.targetSizeGB);
      var fine := At(faults, LabelListing) == Fine && At(faults, ActiveWait) == Fine && (found == {} ==> At(faults, Making) == Fine);
      && (r.Good? <==> fits && fine)
      && (r.Bad? ==> r.code in {AlreadyExists, Internal})
      && (r == Bad(AlreadyExists) ==> !fits)
      && (!fits && At(faults, LabelListing) == Fine ==> r == Bad(AlreadyExists))
  {
    var found := s.WithLabel(params.name);
    if |found| == 1 {
      assert found == {The(found)};
    } else if |found| == 0 {
      assert found == {};
    }
  }

  lemma FormExactly(req: CreateRequest)
    ensures WellFormed(req) <==> req.name != "" && req.capabilities != [] && ValidCapabilities(req.capabilities)
  {
    if WellFormed(req) {
      forall i | 0 <= i < |req.capabilities|
        ensures req.capabilities[i] == SingleNodeWriter
      {
        assert req.capabilities[i] in req.capabilities;
      }
    }
  }

  // A create succeeds exactly when its request is well formed, its range is accepted, its
  // encryption, source and label can be served, and every call it makes goes through.
  lemma CreateSucceedsExactly(cfg: Config, s: Store, req: CreateRequest, newId: int, faults: FaultPlan)
    requires Legal(s, CreateVolume(req, newId))
    ensures CreateEffect(cfg, s, req, newId, faults).1.Created? <==>
      && WellFormed(req) && Sizes.AcceptsRange(req.range) && EncryptionServed(cfg, s, req)
      && SourceServed(cfg, s, req) && LabelServed(cfg, s, req) && CreateCallsFine(cfg, s, req, faults)
  {
    FormExactly(req);
    ParamsExactly(cfg, s, req, faults);
    SourceExactly(cfg, s, req, faults);
    ParamsAreSound(cfg, s, req, faults);
    Sizes.CapacityExactly(req.range);
    if Params(cfg, s, req, faults).Good? && SourceVolume(cfg, s, req, faults).Good? {
      MakingExactly(s, Params(cfg, s, req, faults).value, SourceVolume(cfg, s, req, faults).value, newId, faults);
    }
  }

  // And without faults it is refused with these codes, the store unchanged.
  lemma CreateRefusesExactly(cfg: Config, s: Store, req: CreateRequest, newId: int)
    requires Legal(s, CreateVolume(req, newId))
    ensures var (s', reply) := CreateEffect(cfg, s, req, newId, NO_FAULTS);
      && (!WellFormed(req) ==> reply == Failed(InvalidArgument))
      && (WellFormed(req) && !Sizes.AcceptsRange(req.range) ==> reply == Failed(Unknown))
      && (WellFormed(req) && Sizes.AcceptsRange(req.range) && !EncryptionServed(cfg, s, req) ==> reply == Failed(Internal))
      && (WellFormed(req) && Sizes.AcceptsRange(req.range) && EncryptionServed(cfg, s, req) ==>
        && (!SourceServed(cfg, s, req) ==> reply == Failed(SourceCode(s, req)))
        && (SourceServed(cfg, s, req) && !LabelServed(cfg, s, req) ==> reply == Failed(AlreadyExists)))
      && (reply.Failed? ==> s' == s)
  {
    FormExactly(req);
    ParamsExactly(cfg, s, req, NO_FAULTS);
    SourceExactly(cfg, s, req, NO_FAULTS);
    ParamsAreSound(cfg, s, req, NO_FAULTS);
    Sizes.CapacityExactly(req.range);
    if Params(cfg, s, req, NO_FAULTS).Good? && SourceVolume(cfg, s, req, NO_FAULTS).Good? {
      MakingExactly(s, Params(cfg, s, req, NO_FAULTS).value, SourceVolume(cfg, s, req, NO_FAULTS).value, newId, NO_FAULTS);
    }
  }

  // ----- Delete

  // A delete succeeds exactly when the volume is absent or detached, and then exactly that
  // volume is gone; an attached volume is refused as in use.
  lemma DeleteExactly(cfg: Config, s: Store, volumeId: string, v: int, faults: FaultPlan)
    requires DecodeVolume(cfg.hash, volumeId) == Some(v)
    ensures DeleteEffect(cfg, s, volumeId, faults).1 == Deleted <==>
      && (v in s.volumes ==> s.volumes[v].node.None? && At(faults, Deletion) == Fine)
      && At(faults, VolumeLookup) == Fine
    ensures DeleteEffect(cfg, s, volumeId, NO_FAULTS) ==
      if v in s.volumes && s.volumes[v].node.Some? then (s, Failed(FailedPrecondition)) else (s.Without(v), Deleted)
  {
    assert v !in s.volumes ==> s.volumes - {v} == s.volumes;
  }

  // ----- Publish

  ghost predicate AttachedHere(s: Store, v: int, n: int) {
    v in s.volumes && s.volumes[v].node == Some(n)
  }

  ghost predicate Fits(s: Store, n: int) {
    n in s.instances && |s.AttachedTo(n)| < Limits.EnforcedLimit(s.instances[n].memory, s.instances[n].disks)
  }

  // On the instance already, and known to be: an empty path is read as "not attached".
  ghost predicate Settled(s: Store, v: int, n: int) {
    AttachedHere(s, v, n) && s.volumes[v].path != ""
  }

  // A publish succeeds exactly when the volume is already on the instance or is detached
  // and fits there; only in the second case does anything change. One that finds its volume
  // attached only when it attaches it asks to be tried again.
  lemma PublishExactly(
    cfg: Config, s: Store, volumeId: string, nodeId: string, capability: Capability, v: int, n: int, faults: FaultPlan)
    requires DecodeVolume(cfg.hash, volumeId) == Some(v) && DecodeNode(cfg.hash, nodeId) == Some(n)
    ensures PublishEffect(cfg, s, volumeId, nodeId, capability, faults).1.Published? <==>
      && capability == SingleNodeWriter && n in s.instances && v in s.volumes
      && (Settled(s, v, n) || (s.volumes[v].node.None? && Fits(s, n)))
      && At(faults, InstanceLookup) == Fine && At(faults, VolumeLookup) == Fine
      && (!Settled(s, v, n) ==>
        && At(faults, DiskListing) == Fine && At(faults, AttachedListing) == Fine
        && At(faults, Attaching) == Fine && At(faults, AttachedWait) == Fine)
    ensures PublishEffect(cfg, s, volumeId, nodeId, capability, NO_FAULTS) ==
      if capability != SingleNodeWriter then (s, Failed(InvalidArgument))
      else if n !in s.instances || v !in s.volumes then (s, Failed(NotFound))
      else if Settled(s, v, n) then (s, Published(s.volumes[v].path))
      else if s.volumes[v].node.Some? && !AttachedHere(s, v, n) then (s, Failed(AlreadyExists))
      else if !Fits(s, n) then (s, Failed(ResourceExhausted))
      else if AttachedHere(s, v, n) then (s, Failed(Unavailable))
      else (s.Put(v, Attached(s.volumes[v], n)), Published(Attached(s.volumes[v], n).path))
    ensures capability != SingleNodeWriter ==>
      PublishEffect(cfg, s, volumeId, nodeId, capability, faults) == (s, Failed(InvalidArgument))
  {
  }

  // ----- Unpublish

  // Without faults every unpublish succeeds, also of a volume that is absent or attached
  // elsewhere; it changes the store only by detaching the volume from the node named.
  lemma UnpublishExactly(cfg: Config, s: Store, volumeId: string, nodeId: string, v: int, n: int, faults: FaultPlan)
    requires DecodeVolume(cfg.hash, volumeId) == Some(v) && DecodeNode(cfg.hash, nodeId) == Some(n)
    ensures UnpublishEffect(cfg, s, volumeId, nodeId, faults).1 == Unpublished <==>
      && At(faults, VolumeLookup) == Fine
      && (v in s.volumes && (s.volumes[v].node.None? || AttachedHere(s, v, n)) ==>
          At(faults, Detaching) == Fine && At(faults, DetachedWait) == Fine)
    ensures UnpublishEffect(cfg, s, volumeId, nodeId, NO_FAULTS) ==
      (if AttachedHere(s, v, n) then s.Put(v, s.volumes[v].(node := None)) else s, Unpublished)
  {
    if v in s.volumes && s.volumes[v].node.None? {
      assert s.volumes[v].(node := None) == s.volumes[v];
      assert s.volumes[v := s.volumes[v]] == s.volumes;
    }
  }

  // ----- Expand

  // An expand succeeds exactly when its range is accepted and comes to no less than the
  // volume has; the volume then has that size, and every refusal is Internal.
  lemma ExpandExactly(
    cfg: Config, s: Store, volumeId: string, range: Option<Sizes.CapacityRange>, v: int, faults: FaultPlan)
    requires DecodeVolume(cfg.hash, volumeId) == Some(v)
    ensures var bytes := Sizes.BytesAsked(range);
      var accepted := Sizes.AcceptsRange(range) && v in s.volumes && s.volumes[v].size <= bytes / Sizes.GIB;
      && (ExpandEffect(cfg, s, volumeId, range, faults).1.Expanded? <==>
        && accepted && At(faults, VolumeLookup) == Fine && At(faults, Resizing) == Fine && At(faults, ActiveWait) == Fine)
      && ExpandEffect(cfg, s, volumeId, range, NO_FAULTS) ==
        if !accepted then (s, Failed(Internal))
        else (s.Put(v, s.volumes[v].(size := bytes / Sizes.GIB, active := true)), Expanded(bytes))
  {
    Sizes.CapacityExactly(range);
    if v in s.volumes {
      var size := Sizes.BytesAsked(range) / Sizes.GIB;
      PutTwice(s, v, s.volumes[v].(size := size, active := false), s.volumes[v].(size := size, active := true));
    }
  }

  // ----- Ids and faults

  // Ids are refused exactly when they are empty; one that does not parse stands for its hash.
  lemma IdsExactly(hash: string -> nat, volumeId: string, nodeId: string)
    ensures DecodeVolume(hash, volumeId).None? <==> volumeId == ""
    ensures DecodeNode(hash, nodeId).None? <==> nodeId == ""
    ensures volumeId != "" && Parse(volumeId).None? ==> DecodeVolume(hash, volumeId) == Some(hash(volumeId))
    ensures nodeId != "" && Atoi(nodeId).None? ==> DecodeNode(hash, nodeId) == Some(hash(nodeId))
    ensures Parse(volumeId).Some? ==> DecodeVolume(hash, volumeId) == Some(Parse(volumeId).value.id)
    ensures Atoi(nodeId).Some? ==> DecodeNode(hash, nodeId) == Atoi(nodeId)
  {
  }

  lemma EmptyIdsAreRefused(cfg: Config, s: Store, rpc: Rpc, faults: FaultPlan)
    requires !rpc.CreateVolume?
    requires rpc.volumeId == "" || ((rpc.Publish? || rpc.Unpublish?) && rpc.nodeId == "")
    ensures Exec(cfg, s, rpc, faults) == (s, Failed(InvalidArgument))
  {
  }

  // Faults never change an answer into another one: a call either does exactly what it
  // would do without them, or fails as Internal (or, while a publish waits, without a code).
  lemma FaultsOnlyFail(cfg: Config, s: Store, rpc: Rpc, faults: FaultPlan)
    ensures var (s', reply) := Exec(cfg, s, rpc, faults);
      || (s', reply) == Exec(cfg, s, rpc, NO_FAULTS)
      || reply == Failed(Internal)
      || (rpc.Publish? && reply == Failed(Unknown))
  {
    match rpc
    case CreateVolume(req, newId) => FaultsOnlyFailCreate(cfg, s, req, newId, faults);
    case DeleteVolume(volumeId) => FaultsOnlyFailDelete(cfg, s, volumeId, faults);
    case Publish(volumeId, nodeId, capability) => FaultsOnlyFailPublish(cfg, s, volumeId, nodeId, capability, faults);
    case Unpublish(volumeId, nodeId) => FaultsOnlyFailUnpublish(cfg, s, volumeId, nodeId, faults);
    case Expand(volumeId, range) => FaultsOnlyFailExpand(cfg, s, volumeId, range, faults);
  }

  lemma FaultsOnlyFailDelete(cfg: Config, s: Store, volumeId: string, faults: FaultPlan)
    ensures DeleteEffect(cfg, s, volumeId, faults) == DeleteEffect(cfg, s, volumeId, NO_FAULTS)
         || DeleteEffect(cfg, s, volumeId, faults).1 == Failed(Internal)
  {
  }

  lemma FaultsOnlyFailPublish(
    cfg: Config, s: Store, volumeId: string, nodeId: string, capability: Capability, faults: FaultPlan)
    ensures PublishEffect(cfg, s, volumeId, nodeId, capability, faults)
              == PublishEffect(cfg, s, volumeId, nodeId, capability, NO_FAULTS)
         || PublishEffect(cfg, s, volumeId, nodeId, capability, faults).1 in {Failed(Internal), Failed(Unknown)}
  {
    var node, volume := DecodeNode(cfg.hash, nodeId), DecodeVolume(cfg.hash, volumeId);
    if node.Some? && volume.Some? {
      FaultsOnlyFailAttach(s, volume.value, node.value, faults);
    }
  }

  lemma FaultsOnlyFailAttach(s: Store, v: int, n: int, faults: FaultPlan)
    ensures AttachEffect(s, v, n, faults) == AttachEffect(s, v, n, NO_FAULTS)
         || AttachEffect(s, v, n, faults).1 in {Failed(Internal), Failed(Unknown)}
  {
    FaultsOnlyFailWait(s, v, n, faults);
  }

  lemma FaultsOnlyFailWait(s: Store, v: int, n: int, faults: FaultPlan)
    ensures AttachAndWait(s, v, n, faults) == AttachAndWait(s, v, n, NO_FAULTS)
         || AttachAndWait(s, v, n, faults).1 in {Failed(Internal), Failed(Unknown)}
  {
    var call, clean := AttachCall(s, v, n, At(faults, Attaching)), AttachCall(s, v, n, Fine);
    assert call == clean || call.1 == Err(OtherError);
  }

  lemma FaultsOnlyFailUnpublish(cfg: Config, s: Store, volumeId: string, nodeId: string, faults: FaultPlan)
    ensures UnpublishEffect(cfg, s, volumeId, nodeId, faults) == UnpublishEffect(cfg, s, volumeId, nodeId, NO_FAULTS)
         || UnpublishEffect(cfg, s, volumeId, nodeId, faults).1 == Failed(Internal)
  {
  }

  lemma FaultsOnlyFailExpand(
    cfg: Config, s: Store, volumeId: string, range: Option<Sizes.CapacityRange>, faults: FaultPlan)
    ensures ExpandEffect(cfg, s, volumeId, range, faults) == ExpandEffect(cfg, s, volumeId, range, NO_FAULTS)
         || ExpandEffect(cfg, s, volumeId, range, faults).1 == Failed(Internal)
  {
  }

  lemma FaultsOnlyFailCreate(cfg: Config, s: Store, req: CreateRequest, newId: int, faults: FaultPlan)
    ensures CreateEffect(cfg, s, req, newId, faults) == CreateEffect(cfg, s, req, newId, NO_FAULTS)
         || CreateEffect(cfg, s, req, newId, faults).1 == Failed(Internal)
  {
    var params, source := Params(cfg, s, req, faults), SourceVolume(cfg, s, req, faults);
    assert params == Params(cfg, s, req, NO_FAULTS) || params == Bad(Internal);
    assert source == SourceVolume(cfg, s, req, NO_FAULTS) || source == Bad(Internal);
    if params.Good? && source.Good? {
      FaultsOnlyFailMaking(s, params.value, source.value, newId, faults);
    }
  }

  lemma FaultsOnlyFailMaking(s: Store, params: VolumeParams, source: Option<int>, newId: int, faults: FaultPlan)
    ensures CreateAndWait(s, params, source, newId, faults) == CreateAndWait(s, params, source, newId, NO_FAULTS)
         || CreateAndWait(s, params, source, newId, faults).1 == Bad(Internal)
  {
    var clean := Attempt(s, params, source, newId, NO_FAULTS);
    assert Attempt(s, params, source, newId, faults) == clean || Attempt(s, params, source, newId, faults).1 == Bad(Internal);
  }
}
