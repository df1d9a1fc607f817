/**
 Regions and publishing. The comment on getAndValidateVolume promises that a volume is
 only attached to an instance in its own region; the code never compares the two, and
 publishing turns out not to depend on any region at all.
 */
module ControllerRegions {
  import opened GoText
  import opened Cloud
  import opened Faults
  import opened VolumeKeys
  import opened ControllerSpec
  import opened ControllerRuns

  // The same store with every volume and instance moved elsewhere.
  function Moved(s: Store, volumeRegion: int -> string, instanceRegion: int -> string): Store {
    s.(volumes := map v | v in s.volumes :: s.volumes[v].(region := volumeRegion(v)),
       instances := map n | n in s.instances :: s.instances[n].(region := instanceRegion(n)))
  }

  lemma AttachedInMoved(s: Store, volumeRegion: int -> string, instanceRegion: int -> string, n: int)
    ensures Moved(s, volumeRegion, instanceRegion).AttachedTo(n) == s.AttachedTo(n)
  {
  }

  lemma AttachInMoved(s: Store, volumeRegion: int -> string, instanceRegion: int -> string, v: int, n: int, fault: Fault)
    ensures AttachCall(Moved(s, volumeRegion, instanceRegion), v, n, fault)
      == (Moved(AttachCall(s, v, n, fault).0, volumeRegion, instanceRegion), AttachCall(s, v, n, fault).1)
  {
    if v in s.volumes && s.volumes[v].node.None? {
      var moved := Moved(s, volumeRegion, instanceRegion);
      assert moved.Put(v, Attached(moved.volumes[v], n)).volumes
        == Moved(s.Put(v, Attached(s.volumes[v], n)), volumeRegion, instanceRegion).volumes;
    }
  }

  lemma AttachAndWaitInMoved(
    s: Store, volumeRegion: int -> string, instanceRegion: int -> string, v: int, n: int, faults: FaultPlan)
    ensures var (s', reply) := AttachAndWait(s, v, n, faults);
      AttachAndWait(Moved(s, volumeRegion, instanceRegion), v, n, faults)
        == (Moved(s', volumeRegion, instanceRegion), reply)
  {
    var fault := At(faults, Attaching);
    AttachInMoved(s, volumeRegion, instanceRegion, v, n, fault);
    AwaitInMoved(AttachCall(s, v, n, fault).0, volumeRegion, instanceRegion, v, n, At(faults, AttachedWait));
  }

  // Publishing commutes with moving volumes and instances between regions: the answer and
  // every attachment are the same, whatever faults happen.
  lemma PublishIgnoresRegions(
    s: Store, volumeRegion: int -> string, instanceRegion: int -> string, v: int, n: int, faults: FaultPlan)
    ensures var (s', reply) := AttachEffect(s, v, n, faults);
      AttachEffect(Moved(s, volumeRegion, instanceRegion), v, n, faults)
        == (Moved(s', volumeRegion, instanceRegion), reply)
  {
    if n in s.instances {
      RoomInMoved(s, volumeRegion, instanceRegion, n);
    }
    AttachAndWaitInMoved(s, volumeRegion, instanceRegion, v, n, faults);
    FetchInMoved(s, volumeRegion, instanceRegion, v, n, faults);
  }

  lemma RoomInMoved(s: Store, volumeRegion: int -> string, instanceRegion: int -> string, n: int)
    requires n in s.instances
    ensures HasRoom(Moved(s, volumeRegion, instanceRegion), n) == HasRoom(s, n)
  {
    AttachedInMoved(s, volumeRegion, instanceRegion, n);
  }

  lemma FetchInMoved(
    s: Store, volumeRegion: int -> string, instanceRegion: int -> string, v: int, n: int, faults: FaultPlan)
    ensures var moved := Moved(s, volumeRegion, instanceRegion);
      && (match (Fetch(moved.instances, n, At(faults, InstanceLookup)), Fetch(s.instances, n, At(faults, InstanceLookup)))
          case (Ok(a), Ok(b)) => n in s.instances
          case (Err(a), Err(b)) => a == b
          case (_, _) => false)
      && (match (Fetch(moved.volumes, v, At(faults, VolumeLookup)), Fetch(s.volumes, v, At(faults, VolumeLookup)))
          case (Ok(a), Ok(b)) => a.node == b.node && a.path == b.path
          case (Err(a), Err(b)) => a == b
          case (_, _) => false)
  {
  }

  lemma AwaitInMoved(
    s: Store, volumeRegion: int -> string, instanceRegion: int -> string, v: int, n: int, fault: Fault)
    ensures match (AwaitNode(Moved(s, volumeRegion, instanceRegion), v, Some(n), fault), AwaitNode(s, v, Some(n), fault))
            case (Ok(a), Ok(b)) => a.path == b.path
            case (Err(a), Err(b)) => true
            case (_, _) => false
  {
  }

  // So a detached volume is attached to an instance in another region whenever there is room.
  lemma PublishesAcrossRegions(cfg: Config, s: Store, rpc: Rpc, v: int, n: int)
    requires Publishes(cfg, rpc, v, n) && rpc.capability == SingleNodeWriter
    requires v in s.volumes && s.volumes[v].node.None? && n in s.instances
    requires s.volumes[v].region != s.instances[n].region
    ensures HasRoom(s, n) <==>
      (exists path :: Exec(cfg, s, rpc, NO_FAULTS) == (s.Put(v, Attached(s.volumes[v], n)), Published(path)))
  {
    if HasRoom(s, n) {
      var path := Attached(s.volumes[v], n).path;
      assert Exec(cfg, s, rpc, NO_FAULTS) == (s.Put(v, Attached(s.volumes[v], n)), Published(path));
    }
  }
}
