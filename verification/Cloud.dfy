/**
 The Linode API as the controller sees it: a mutable store whose every call may fail,
 before or after its effect took hold. The contracts here are the model's assumptions
 about code outside the repository.
 */
module Cloud {
  import opened GoText
  import opened Faults

  datatype ApiError = Absent | AlreadyAttached | OtherError

  datatype Answer<+T> = Ok(value: T) | Err(error: ApiError)

  // The places where a controller RPC calls the API.
  datatype Site =
    | RegionLookup | SourceLookup | LabelListing | Making | ActiveWait
    | VolumeLookup | Deletion
    | InstanceLookup | DiskListing | AttachedListing | SecondDiskListing | Attaching | AttachedWait
    | Detaching | DetachedWait
    | Resizing

  // One RPC's faults; a site that is not mentioned is fine.
  type FaultPlan = map<Site, Fault>

  function At(faults: FaultPlan, site: Site): Fault {
    if site in faults then faults[site] else Fine
  }

  const NO_FAULTS: FaultPlan := map[]

  datatype Volume = Volume(
    volumeLabel: string,
    size: int,
    region: string,
    encryption: string,
    node: Option<int>,
    path: string,
    active: bool)

  datatype Instance = Instance(memory: int, disks: nat, region: string)

  datatype Store = Store(
    volumes: map<int, Volume>,
    instances: map<int, Instance>,
    regions: map<string, seq<string>>)
  {
    function WithLabel(text: string): set<int> {
      set v | v in volumes && volumes[v].volumeLabel == text
    }

    function AttachedTo(n: int): set<int> {
      set v | v in volumes && volumes[v].node == Some(n)
    }

    function Put(v: int, volume: Volume): Store {
      this.(volumes := volumes[v := volume])
    }

    function Without(v: int): Store {
      this.(volumes := volumes - {v})
    }
  }

  function FilesystemPath(text: string): string {
    "/dev/disk/by-id/scsi-0Linode_Volume_" + text
  }

  // Reads: any fault is an error.
  function Read<T>(fault: Fault, answer: Answer<T>): Answer<T> {
    if fault == Fine then answer else Err(OtherError)
  }

  // Writes: a lost call changes nothing, a late one changes the store and still errs.
  function Write<T>(s: Store, fault: Fault, s': Store, answer: Answer<T>): (Store, Answer<T>) {
    match fault
    case Fine => (s', answer)
    case Lost => (s, Err(OtherError))
    case Late => (s', Err(OtherError))
  }

  function Fetch<T>(m: map<int, T>, key: int, fault: Fault): Answer<T> {
    Read(fault, if key in m then Ok(m[key]) else Err(Absent))
  }

  function FetchRegion(s: Store, region: string, fault: Fault): Answer<seq<string>> {
    Read(fault, if region in s.regions then Ok(s.regions[region]) else Err(Absent))
  }

  function Created(text: string, size: int, region: string, encryption: string): Volume {
    Volume(text, size, region, encryption, None, FilesystemPath(text), false)
  }

  function CreateCall(s: Store, v: int, volume: Volume, fault: Fault): (Store, Answer<Volume>) {
    Write(s, fault, s.Put(v, volume), Ok(volume))
  }

  function CloneCall(s: Store, v: int, source: int, text: string, fault: Fault): (Store, Answer<Volume>) {
    if source !in s.volumes then Write(s, fault, s, Err(Absent))
    else
      var from := s.volumes[source];
      CreateCall(s, v, Created(text, from.size, from.region, from.encryption), fault)
  }

  function DeleteCall(s: Store, v: int, fault: Fault): (Store, Answer<()>) {
    Write(s, fault, s.Without(v), if v in s.volumes then Ok(()) else Err(Absent))
  }

  function Attached(volume: Volume, n: int): Volume {
    volume.(node := Some(n), path := if volume.path == "" then FilesystemPath(volume.volumeLabel) else volume.path)
  }

  function AttachCall(s: Store, v: int, n: int, fault: Fault): (Store, Answer<()>) {
    if v !in s.volumes then Write(s, fault, s, Err(Absent))
    else if s.volumes[v].node.Some? then Write(s, fault, s, Err(AlreadyAttached))
    else Write(s, fault, s.Put(v, Attached(s.volumes[v], n)), Ok(()))
  }

  function DetachCall(s: Store, v: int, fault: Fault): (Store, Answer<()>) {
    if v !in s.volumes then Write(s, fault, s, Err(Absent))
    else Write(s, fault, s.Put(v, s.volumes[v].(node := None)), Ok(()))
  }

  function ResizeCall(s: Store, v: int, size: int, fault: Fault): (Store, Answer<()>) {
    if v !in s.volumes then Write(s, fault, s, Err(Absent))
    else Write(s, fault, s.Put(v, s.volumes[v].(size := size, active := false)), Ok(()))
  }

  // Waiting for a volume to become active: it does become active unless the wait is lost.
  function ActiveCall(s: Store, v: int, fault: Fault): (Store, Answer<Volume>) {
    if v !in s.volumes then Write(s, fault, s, Err(Absent))
    else
      var volume := s.volumes[v].(active := true);
      Write(s, fault, s.Put(v, volume), Ok(volume))
  }

  // Waiting for an attachment succeeds only when the attachment is the one asked for.
  function AwaitNode(s: Store, v: int, want: Option<int>, fault: Fault): Answer<Volume> {
    Read(fault,
      if v !in s.volumes then Err(Absent)
      else if s.volumes[v].node == want then Ok(s.volumes[v])
      else Err(OtherError))
  }

  class LinodeApi {
    var volumes: map<int, Volume>
    const instances: map<int, Instance>
    const regions: map<string, seq<string>>

    constructor (volumes: map<int, Volume>, instances: map<int, Instance>, regions: map<string, seq<string>>)
      ensures Snapshot() == Store(volumes, instances, regions)
    {
      this.volumes, this.instances, this.regions := volumes, instances, regions;
    }

    function Snapshot(): Store
      reads this
    {
      Store(volumes, instances, regions)
    }

    method GetRegion(region: string, fault: Fault) returns (r: Answer<seq<string>>)
      ensures r == FetchRegion(Snapshot(), region, fault)
    {
      r := FetchRegion(Snapshot(), region, fault);
    }

    method GetVolume(v: int, fault: Fault) returns (r: Answer<Volume>)
      ensures r == Fetch(volumes, v, fault)
    {
      r := Fetch(volumes, v, fault);
    }

    method GetInstance(n: int, fault: Fault) returns (r: Answer<Instance>)
      ensures r == Fetch(instances, n, fault)
    {
      r := Fetch(instances, n, fault);
    }

    // The listed volumes come in an order of the environment's choosing, without repeats.
    method ListByLabel(text: string, fault: Fault) returns (r: Answer<seq<int>>)
      ensures r.Ok? <==> fault == Fine
      ensures r.Ok? ==> IsListing(r.value, Snapshot().WithLabel(text))
      ensures r.Err? ==> r.error == OtherError
    {
      var found := Listed(Snapshot().WithLabel(text));
      r := Read(fault, Ok(found));
    }

    method ListInstanceVolumes(n: int, fault: Fault) returns (r: Answer<seq<int>>)
      ensures r.Ok? <==> fault == Fine
      ensures r.Ok? ==> IsListing(r.value, Snapshot().AttachedTo(n))
      ensures r.Err? ==> r.error == OtherError
    {
      var found := Listed(Snapshot().AttachedTo(n));
      r := Read(fault, Ok(found));
    }

    method CreateVolume(v: int, volume: Volume, fault: Fault) returns (r: Answer<Volume>)
      modifies this
      ensures (Snapshot(), r) == CreateCall(old(Snapshot()), v, volume, fault)
    {
      var (s, answer) := CreateCall(Snapshot(), v, volume, fault);
      volumes, r := s.volumes, answer;
    }

    method CloneVolume(v: int, source: int, text: string, fault: Fault) returns (r: Answer<Volume>)
      modifies this
      ensures (Snapshot(), r) == CloneCall(old(Snapshot()), v, source, text, fault)
    {
      var (s, answer) := CloneCall(Snapshot(), v, source, text, fault);
      volumes, r := s.volumes, answer;
    }

    method DeleteVolume(v: int, fault: Fault) returns (r: Answer<()>)
      modifies this
      ensures (Snapshot(), r) == DeleteCall(old(Snapshot()), v, fault)
    {
      var (s, answer) := DeleteCall(Snapshot(), v, fault);
      volumes, r := s.volumes, answer;
    }

    method AttachVolume(v: int, n: int, fault: Fault) returns (r: Answer<()>)
      modifies this
      ensures (Snapshot(), r) == AttachCall(old(Snapshot()), v, n, fault)
    {
      var (s, answer) := AttachCall(Snapshot(), v, n, fault);
      volumes, r := s.volumes, answer;
    }

    method DetachVolume(v: int, fault: Fault) returns (r: Answer<()>)
      modifies this
      ensures (Snapshot(), r) == DetachCall(old(Snapshot()), v, fault)
    {
      var (s, answer) := DetachCall(Snapshot(), v, fault);
      volumes, r := s.volumes, answer;
    }

    method ResizeVolume(v: int, size: int, fault: Fault) returns (r: Answer<()>)
      modifies this
      ensures (Snapshot(), r) == ResizeCall(old(Snapshot()), v, size, fault)
    {
      var (s, answer) := ResizeCall(Snapshot(), v, size, fault);
      volumes, r := s.volumes, answer;
    }

    method WaitForVolumeActive(v: int, fault: Fault) returns (r: Answer<Volume>)
      modifies this
      ensures (Snapshot(), r) == ActiveCall(old(Snapshot()), v, fault)
    {
      var (s, answer) := ActiveCall(Snapshot(), v, fault);
      volumes, r := s.volumes, answer;
    }

    method WaitForVolumeNode(v: int, want: Option<int>, fault: Fault) returns (r: Answer<Volume>)
      ensures r == AwaitNode(Snapshot(), v, want, fault)
    {
      r := AwaitNode(Snapshot(), v, want, fault);
    }
  }

  lemma Inhabited(ids: set<int>)
    requires ids != {}
    ensures exists v :: v in ids
  {
    assert (forall v :: v !in ids) ==> ids == {};
  }

  lemma SubsetIsSmaller(a: set<int>, b: set<int>)
    requires a <= b
    ensures |a| <= |b|
  {
    assert b == a + (b - a);
  }

  // The element of a singleton.
  ghost function The(ids: set<int>): (v: int)
    requires |ids| == 1
    ensures v in ids
    ensures ids == {v}
  {
    Inhabited(ids);
    var v :| v in ids;
    assert |ids - {v}| == 0;
    v
  }

  ghost predicate IsListing(list: seq<int>, ids: set<int>) {
    && |list| == |ids|
    && forall v :: v in list <==> v in ids
  }

  method Listed(ids: set<int>) returns (list: seq<int>)
    ensures IsListing(list, ids)
  {
    list := [];
    var rest := ids;
    ghost var seen: set<int> := {};
    while rest != {}
      invariant seen !! rest && seen + rest == ids
      invariant IsListing(list, seen)
      decreases |rest|
    {
      Inhabited(rest);
      var v :| v in rest;
      list := list + [v];
      rest := rest - {v};
      seen := seen + {v};
    }
    assert seen == ids;
  }
}
