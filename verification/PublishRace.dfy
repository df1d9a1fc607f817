/**
 ControllerPublishVolume one API call at a time. The controller takes no lock, so calls
 interleave: the capacity check of one may be stale by the time it attaches. This module
 bounds the damage, and shows the bound is reached.
 */
module PublishRace {
  import opened GoText
  import opened Cloud
  import opened Faults
  import opened ControllerSpec
  import opened ControllerRuns
  import Limits

  datatype Phase =
    | Begun
    | InstanceFound
    | NotAttached
    | LimitRead(limit: int)
    | Cleared // past the capacity check, not yet attached
    | Attaching
    | Done(reply: Reply)

  datatype Flight = Flight(volume: int, node: int, phase: Phase)

  datatype Race = Race(store: Store, flights: map<int, Flight>)

  datatype Event =
    | Start(id: int, volume: int, node: int)
    | Move(id: int, fault: Fault)
    | Elsewhere(store: Store) // any other RPC or step of one

  // One API call of a publish, and what the code does with the answer.
  function Advance(s: Store, f: Flight, fault: Fault): (Store, Phase) {
    var v, n := f.volume, f.node;
    match f.phase
    case Begun =>
      (match Fetch(s.instances, n, fault)
       case Err(error) => (s, Done(Failed(if error == Absent then NotFound else Internal)))
       case Ok(_) => (s, InstanceFound))
    case InstanceFound =>
      (match Fetch(s.volumes, v, fault)
       case Err(error) => (s, Done(Failed(if error == Absent then NotFound else Internal)))
       case Ok(volume) =>
         if volume.node.Some? && volume.node.value != n then (s, Done(Failed(AlreadyExists)))
         else if volume.node.Some? && volume.path != "" then (s, Done(Published(volume.path)))
         else (s, NotAttached))
    case NotAttached =>
      if fault != Fine || n !in s.instances then (s, Done(Failed(Internal)))
      else (s, LimitRead(Limits.EnforcedLimit(s.instances[n].memory, s.instances[n].disks)))
    case LimitRead(limit) =>
      if fault != Fine then (s, Done(Failed(Internal)))
      else if |s.AttachedTo(n)| < limit then (s, Cleared)
      else (s, Done(Failed(ResourceExhausted)))
    case Cleared =>
      var (s', answer) := AttachCall(s, v, n, fault);
      (s', if answer.Ok? then Phase.Attaching
           else Done(Failed(if answer.error == Cloud.AlreadyAttached then Unavailable else Internal)))
    case Attaching =>
      (s, match AwaitNode(s, v, Some(n), fault)
          case Err(_) => Done(Failed(Unknown))
          case Ok(volume) => Done(Published(volume.path)))
    case Done(reply) => (s, f.phase)
  }

  function SiteOf(phase: Phase): Site {
    match phase
    case Begun => InstanceLookup
    case InstanceFound => VolumeLookup
    case NotAttached => DiskListing
    case LimitRead(_) => AttachedListing
    case Cleared => Site.Attaching
    case Attaching => AttachedWait
    case Done(_) => SecondDiskListing
  }

  function CallsLeft(phase: Phase): nat {
    match phase
    case Begun => 6
    case InstanceFound => 5
    case NotAttached => 4
    case LimitRead(_) => 3
    case Cleared => 2
    case Attaching => 1
    case Done(_) => 0
  }

  // A publish left alone until it answers.
  function Alone(s: Store, f: Flight, faults: FaultPlan): (Store, Reply)
    decreases CallsLeft(f.phase)
  {
    if f.phase.Done? then (s, f.phase.reply)
    else
      var (s', phase) := Advance(s, f, At(faults, SiteOf(f.phase)));
      Alone(s', f.(phase := phase), faults)
  }

  lemma OneCall(s: Store, f: Flight, faults: FaultPlan)
    requires !f.phase.Done?
    ensures var (s', phase) := Advance(s, f, At(faults, SiteOf(f.phase)));
      && Alone(s, f, faults) == Alone(s', f.(phase := phase), faults)
      && (phase.Done? ==> Alone(s, f, faults) == (s', phase.reply))
  {
  }

  lemma AloneFromAttaching(s: Store, v: int, n: int, faults: FaultPlan)
    ensures Alone(s, Flight(v, n, Phase.Attaching), faults) == (s,
      match AwaitNode(s, v, Some(n), At(faults, AttachedWait))
      case Err(_) => Failed(Unknown)
      case Ok(volume) => Published(volume.path))
  {
    OneCall(s, Flight(v, n, Phase.Attaching), faults);
  }

  lemma AloneFromCleared(s: Store, v: int, n: int, faults: FaultPlan)
    ensures Alone(s, Flight(v, n, Cleared), faults) == AttachAndWait(s, v, n, faults)
  {
    OneCall(s, Flight(v, n, Cleared), faults);
    AloneFromAttaching(AttachCall(s, v, n, At(faults, Site.Attaching)).0, v, n, faults);
  }

  lemma AloneFromNotAttached(s: Store, v: int, n: int, faults: FaultPlan)
    requires n in s.instances
    ensures Alone(s, Flight(v, n, NotAttached), faults) ==
      if At(faults, DiskListing) != Fine || At(faults, AttachedListing) != Fine then (s, Failed(Internal))
      else if !HasRoom(s, n) then (s, Failed(ResourceExhausted))
      else AttachAndWait(s, v, n, faults)
  {
    OneCall(s, Flight(v, n, NotAttached), faults);
    OneCall(s, Flight(v, n, LimitRead(Limits.EnforcedLimit(s.instances[n].memory, s.instances[n].disks))), faults);
    AloneFromCleared(s, v, n, faults);
  }

  // Uninterrupted, the small steps are the RPC.
  lemma AloneIsPublish(s: Store, v: int, n: int, faults: FaultPlan)
    ensures Alone(s, Flight(v, n, Begun), faults) == AttachEffect(s, v, n, faults)
  {
    OneCall(s, Flight(v, n, Begun), faults);
    if n in s.instances {
      OneCall(s, Flight(v, n, InstanceFound), faults);
      AloneFromNotAttached(s, v, n, faults);
    }
  }

  // A call past the capacity check whose volume was attached, or deleted, in the meantime
  // changes nothing; the first may be tried again, the second is an error.
  lemma LostRace(s: Store, f: Flight)
    requires f.phase.Cleared? && (f.volume in s.volumes ==> s.volumes[f.volume].node.Some?)
    ensures Advance(s, f, Fine) == (s, Done(Failed(if f.volume in s.volumes then Unavailable else Internal)))
  {
  }

  // The rest of the world may detach, delete, create and resize, but not attach.
  ghost predicate NoNewAttachments(s: Store, s': Store) {
    && s'.instances == s.instances
    && forall v :: v in s'.volumes && s'.volumes[v].node.Some? ==>
         v in s.volumes && s.volumes[v].node == s'.volumes[v].node
  }

  // Every RPC but Publish fits that description, whatever faults it meets.
  lemma OtherRpcsAttachNothing(cfg: Config, s: Store, call: Call, s': Store)
    requires Step(cfg, s, call, s') && !call.rpc.Publish?
    ensures NoNewAttachments(s, s')
  {
    StepEffect(cfg, s, call, s');
    forall v | v in s'.volumes && s'.volumes[v].node.Some?
      ensures v in s.volumes && s.volumes[v].node == s'.volumes[v].node
    {
      AcrossStep(cfg, s, call.rpc, s', v);
    }
  }

  ghost predicate Next(r: Race, e: Event, r': Race) {
    match e
    case Start(id, v, n) => id !in r.flights && r' == Race(r.store, r.flights[id := Flight(v, n, Begun)])
    case Move(id, fault) =>
      && id in r.flights && !r.flights[id].phase.Done?
      && var (s', phase) := Advance(r.store, r.flights[id], fault);
        r' == Race(s', r.flights[id := r.flights[id].(phase := phase)])
    case Elsewhere(s') => NoNewAttachments(r.store, s') && r' == Race(s', r.flights)
  }

  function InFlight(r: Race, n: int): set<int> {
    set id | id in r.flights && r.flights[id].node == n && !r.flights[id].phase.Done?
  }

  function PastCheck(r: Race, n: int): set<int> {
    set id | id in r.flights && r.flights[id].node == n && r.flights[id].phase.Cleared?
  }

  ghost predicate History(n: int, k: nat, trace: seq<Race>, events: seq<Event>) {
    && |trace| == |events| + 1
    && (forall i :: 0 <= i < |trace| ==> |InFlight(trace[i], n)| <= k)
    && forall i :: 0 <= i < |events| ==> Next(trace[i], events[i], trace[i + 1])
  }

  ghost predicate Quiet(r: Race, n: int) {
    forall id :: id in r.flights ==> r.flights[id].node != n
  }

  ghost predicate Limited(r: Race, n: int, limit: int) {
    n in r.store.instances && limit == Limits.EnforcedLimit(r.store.instances[n].memory, r.store.instances[n].disks)
  }

  ghost predicate Bounded(r: Race, n: int, k: int, limit: int) {
    && Limited(r, n, limit)
    && |r.store.AttachedTo(n)| + |PastCheck(r, n)| <= limit + k - 1
    && forall id :: id in r.flights && r.flights[id].node == n && r.flights[id].phase.LimitRead? ==>
         r.flights[id].phase.limit == limit
  }

  ghost predicate AddsAtMostOne(s: Store, s': Store, n: int) {
    && |s'.AttachedTo(n)| <= |s.AttachedTo(n)| + 1
    && forall m :: m != n ==> s'.AttachedTo(m) == s.AttachedTo(m)
  }

  // What one call of a publish does to the numbers that matter.
  lemma AdvanceEffect(s: Store, f: Flight, fault: Fault)
    ensures var (s', phase) := Advance(s, f, fault);
      && s'.instances == s.instances
      && !phase.Begun?
      && (f.phase.Cleared? ==> !phase.Cleared? && !phase.LimitRead? && AddsAtMostOne(s, s', f.node))
      && (!f.phase.Cleared? ==> s' == s)
      && (phase.Cleared? ==> f.phase.LimitRead? && |s.AttachedTo(f.node)| < f.phase.limit)
      && (phase.LimitRead? ==> Limited(Race(s, map[]), f.node, phase.limit))
  {
    if f.phase.Cleared? {
      AttachEffectOnCounts(s, f.volume, f.node, fault);
    }
  }

  lemma AttachEffectOnCounts(s: Store, v: int, n: int, fault: Fault)
    ensures var s' := AttachCall(s, v, n, fault).0;
      && s'.instances == s.instances
      && AddsAtMostOne(s, s', n)
  {
    var s' := AttachCall(s, v, n, fault).0;
    if s' != s {
      assert s' == s.Put(v, Attached(s.volumes[v], n));
      assert s'.AttachedTo(n) == s.AttachedTo(n) + {v};
      forall m | m != n
        ensures s'.AttachedTo(m) == s.AttachedTo(m)
      {
      }
    }
  }

  lemma MoveKeepsBound(r: Race, e: Event, r': Race, n: int, k: int, limit: int)
    requires e.Move? && Next(r, e, r') && Bounded(r, n, k, limit)
    requires |InFlight(r', n)| <= k
    ensures Bounded(r', n, k, limit)
  {
    AdvanceEffect(r.store, r.flights[e.id], e.fault);
    MovedFlight(r, e.id, r'.store, r'.flights[e.id].phase, n, k, limit);
  }

  // The same, from what the call did alone.
  lemma MovedFlight(r: Race, id: int, s': Store, phase: Phase, n: int, k: int, limit: int)
    requires Bounded(r, n, k, limit) && id in r.flights && s'.instances == r.store.instances
    requires var f := r.flights[id];
      && (f.phase.Cleared? ==> !phase.Cleared? && !phase.LimitRead? && AddsAtMostOne(r.store, s', f.node))
      && (!f.phase.Cleared? ==> s' == r.store)
      && (phase.Cleared? ==> f.phase.LimitRead? && |r.store.AttachedTo(f.node)| < f.phase.limit)
      && (phase.LimitRead? ==> Limited(r, f.node, phase.limit))
    requires var r' := Race(s', r.flights[id := r.flights[id].(phase := phase)]); |InFlight(r', n)| <= k
    ensures Bounded(Race(s', r.flights[id := r.flights[id].(phase := phase)]), n, k, limit)
  {
    var f := r.flights[id];
    var r' := Race(s', r.flights[id := f.(phase := phase)]);
    if f.node != n {
      assert PastCheck(r', n) == PastCheck(r, n);
    } else if f.phase.Cleared? {
      assert PastCheck(r', n) == PastCheck(r, n) - {id};
    } else if phase.Cleared? {
      // the check was made against this very store, and this call is the newest past it
      assert PastCheck(r', n) <= InFlight(r', n);
      SubsetIsSmaller(PastCheck(r', n), InFlight(r', n));
    } else {
      assert PastCheck(r', n) == PastCheck(r, n);
    }
  }

  lemma OthersKeepBound(r: Race, e: Event, r': Race, n: int, k: int, limit: int)
    requires !e.Move? && Next(r, e, r') && Bounded(r, n, k, limit)
    ensures Bounded(r', n, k, limit)
  {
    assert PastCheck(r', n) == PastCheck(r, n);
    forall v | v in r'.store.AttachedTo(n)
      ensures v in r.store.AttachedTo(n)
    {
    }
    SubsetIsSmaller(r'.store.AttachedTo(n), r.store.AttachedTo(n));
  }

  // With at most k publishes in flight on an instance at any time, the volumes attached to
  // it and the calls past the check never add up to more than limit + k - 1.
  lemma {:induction false} AttachBound(n: int, k: nat, trace: seq<Race>, events: seq<Event>, limit: int, i: nat)
    requires k >= 1 && History(n, k, trace, events) && i < |trace|
    requires Quiet(trace[0], n) && Limited(trace[0], n, limit) && |trace[0].store.AttachedTo(n)| <= limit
    ensures Bounded(trace[i], n, k, limit)
  {
    if i == 0 {
      forall id
        ensures id !in PastCheck(trace[0], n)
      {
      }
      assert PastCheck(trace[0], n) == {};
    } else {
      AttachBound(n, k, trace, events, limit, i - 1);
      if events[i - 1].Move? {
        MoveKeepsBound(trace[i - 1], events[i - 1], trace[i], n, k, limit);
      } else {
        OthersKeepBound(trace[i - 1], events[i - 1], trace[i], n, k, limit);
      }
    }
  }

  // One at a time, publishes never exceed the limit.
  lemma SerialPublishesStayWithinLimit(n: int, trace: seq<Race>, events: seq<Event>, limit: int, i: nat)
    requires History(n, 1, trace, events) && i < |trace|
    requires Quiet(trace[0], n) && Limited(trace[0], n, limit) && |trace[0].store.AttachedTo(n)| <= limit
    ensures |trace[i].store.AttachedTo(n)| <= limit
  {
    AttachBound(n, 1, trace, events, limit, i);
  }

  // ----- The bound is reached

  ghost predicate Candidates(s: Store, n: int, vs: seq<int>) {
    && (forall i :: 0 <= i < |vs| ==> vs[i] in s.volumes && s.volumes[vs[i]].node.None?)
    && forall i, j :: 0 <= i < j < |vs| ==> vs[i] != vs[j]
  }

  // The store once the first j candidates are attached.
  function Filled(s: Store, n: int, vs: seq<int>, j: nat): Store
    requires j <= |vs|
    requires forall i :: 0 <= i < |vs| ==> vs[i] in s.volumes
    ensures Filled(s, n, vs, j).volumes.Keys == s.volumes.Keys
  {
    if j == 0 then s
    else
      var before := Filled(s, n, vs, j - 1);
      before.Put(vs[j - 1], Attached(before.volumes[vs[j - 1]], n))
  }

  lemma {:induction false} FilledHolds(s: Store, n: int, vs: seq<int>, j: nat)
    requires Candidates(s, n, vs) && j <= |vs|
    ensures var s' := Filled(s, n, vs, j);
      && s'.instances == s.instances
      && (forall i :: j <= i < |vs| ==> s'.volumes[vs[i]].node.None?)
      && |s'.AttachedTo(n)| == |s.AttachedTo(n)| + j
  {
    if j > 0 {
      FilledHolds(s, n, vs, j - 1);
      FillOne(Filled(s, n, vs, j - 1), vs[j - 1], n);
    }
  }

  lemma FillOne(s: Store, v: int, n: int)
    requires v in s.volumes && s.volumes[v].node.None?
    ensures var s' := s.Put(v, Attached(s.volumes[v], n));
      && |s'.AttachedTo(n)| == |s.AttachedTo(n)| + 1
      && forall u :: u != v && u in s.volumes ==> s'.volumes[u] == s.volumes[u]
  {
    assert s.Put(v, Attached(s.volumes[v], n)).AttachedTo(n) == s.AttachedTo(n) + {v};
  }

  function Flights(n: int, vs: seq<int>, cleared: nat, attached: nat): map<int, Flight>
    requires cleared <= |vs|
  {
    map i | 0 <= i < cleared :: i := Flight(vs[i], n, if i < attached then Phase.Attaching else Cleared)
  }

  lemma FewFlights(r: Race, n: int, k: nat)
    requires forall id :: id in r.flights ==> 0 <= id < k
    ensures |InFlight(r, n)| <= k
  {
    assert InFlight(r, n) <= UpTo(k);
    SubsetIsSmaller(InFlight(r, n), UpTo(k));
  }

  function UpTo(k: nat): (ids: set<int>)
    ensures forall i :: i in ids <==> 0 <= i < k
    ensures |ids| == k
  {
    if k == 0 then {} else UpTo(k - 1) + {k - 1}
  }

  lemma Extend(n: int, k: nat, trace: seq<Race>, events: seq<Event>, e: Event, r: Race)
    returns (trace': seq<Race>, events': seq<Event>)
    requires History(n, k, trace, events) && Next(trace[|trace| - 1], e, r)
    requires forall id :: id in r.flights ==> 0 <= id < k
    ensures History(n, k, trace', events')
    ensures trace'[0] == trace[0] && trace'[|trace'| - 1] == r
  {
    FewFlights(r, n, k);
    trace', events' := trace + [r], events + [e];
  }

  // Takes flight j from its start to just past the capacity check.
  lemma ClearOne(s: Store, n: int, vs: seq<int>, j: nat, trace: seq<Race>, events: seq<Event>)
    returns (trace': seq<Race>, events': seq<Event>)
    requires Candidates(s, n, vs) && n in s.instances && HasRoom(s, n) && j < |vs|
    requires History(n, |vs|, trace, events) && trace[|trace| - 1] == Race(s, Flights(n, vs, j, 0))
    ensures History(n, |vs|, trace', events')
    ensures trace'[0] == trace[0] && trace'[|trace'| - 1] == Race(s, Flights(n, vs, j + 1, 0))
  {
    var flights := Flights(n, vs, j, 0);
    var limit := Limits.EnforcedLimit(s.instances[n].memory, s.instances[n].disks);
    var f := Flight(vs[j], n, Begun);
    trace', events' := Extend(n, |vs|, trace, events, Start(j, vs[j], n), Race(s, flights[j := f]));
    trace', events' := Climb(s, n, |vs|, j, flights, f, InstanceFound, trace', events');
    trace', events' := Climb(s, n, |vs|, j, flights, f.(phase := InstanceFound), NotAttached, trace', events');
    trace', events' := Climb(s, n, |vs|, j, flights, f.(phase := NotAttached), LimitRead(limit), trace', events');
    trace', events' := Climb(s, n, |vs|, j, flights, f.(phase := LimitRead(limit)), Cleared, trace', events');
    assert flights[j := f.(phase := Cleared)] == Flights(n, vs, j + 1, 0);
  }

  lemma Climb(s: Store, n: int, k: nat, j: nat, flights: map<int, Flight>, f: Flight, phase: Phase,
    trace: seq<Race>, events: seq<Event>)
    returns (trace': seq<Race>, events': seq<Event>)
    requires j < k && forall id :: id in flights ==> 0 <= id < k
    requires Advance(s, f, Fine) == (s, phase) && !f.phase.Done?
    requires History(n, k, trace, events) && trace[|trace| - 1] == Race(s, flights[j := f])
    ensures History(n, k, trace', events')
    ensures trace'[0] == trace[0] && trace'[|trace'| - 1] == Race(s, flights[j := f.(phase := phase)])
  {
    assert flights[j := f][j := f.(phase := phase)] == flights[j := f.(phase := phase)];
    trace', events' := Extend(n, k, trace, events, Move(j, Fine), Race(s, flights[j := f.(phase := phase)]));
  }

  lemma {:induction false} ClearAll(s: Store, n: int, vs: seq<int>, j: nat)
    returns (trace: seq<Race>, events: seq<Event>)
    requires Candidates(s, n, vs) && n in s.instances && HasRoom(s, n) && j <= |vs|
    ensures History(n, |vs|, trace, events)
    ensures trace[0] == Race(s, map[]) && trace[|trace| - 1] == Race(s, Flights(n, vs, j, 0))
  {
    if j == 0 {
      FewFlights(Race(s, map[]), n, |vs|);
      trace, events := [Race(s, map[])], [];
    } else {
      trace, events := ClearAll(s, n, vs, j - 1);
      trace, events := ClearOne(s, n, vs, j - 1, trace, events);
    }
  }

  // All candidates past the check, the first j of them attached.
  function AttachedUpTo(s: Store, n: int, vs: seq<int>, j: nat): Race
    requires j <= |vs|
    requires forall i :: 0 <= i < |vs| ==> vs[i] in s.volumes
  {
    Race(Filled(s, n, vs, j), Flights(n, vs, |vs|, j))
  }

  // An interleaving that takes a store to where the first j candidates are attached.
  ghost predicate AttachesUpTo(s: Store, n: int, vs: seq<int>, j: nat, trace: seq<Race>, events: seq<Event>) {
    && Candidates(s, n, vs) && j <= |vs|
    && History(n, |vs|, trace, events)
    && trace[0] == Race(s, map[]) && trace[|trace| - 1] == AttachedUpTo(s, n, vs, j)
  }

  lemma {:induction false} AttachAll(s: Store, n: int, vs: seq<int>, j: nat)
    returns (trace: seq<Race>, events: seq<Event>)
    requires Candidates(s, n, vs) && n in s.instances && HasRoom(s, n) && j <= |vs|
    ensures AttachesUpTo(s, n, vs, j, trace, events)
  {
    if j == 0 {
      trace, events := AttachNone(s, n, vs);
    } else {
      trace, events := AttachAll(s, n, vs, j - 1);
      trace, events := AttachNext(s, n, vs, j - 1, trace, events);
    }
  }

  lemma AttachNone(s: Store, n: int, vs: seq<int>)
    returns (trace: seq<Race>, events: seq<Event>)
    requires Candidates(s, n, vs) && n in s.instances && HasRoom(s, n)
    ensures AttachesUpTo(s, n, vs, 0, trace, events)
  {
    trace, events := ClearAll(s, n, vs, |vs|);
  }

  lemma AttachNext(s: Store, n: int, vs: seq<int>, j: nat, trace: seq<Race>, events: seq<Event>)
    returns (trace': seq<Race>, events': seq<Event>)
    requires j < |vs| && AttachesUpTo(s, n, vs, j, trace, events)
    ensures AttachesUpTo(s, n, vs, j + 1, trace', events')
  {
    AttachOne(s, n, vs, j);
    FlightsBelow(n, vs, |vs|, j + 1);
    trace', events' := Extend(n, |vs|, trace, events, Move(j, Fine), AttachedUpTo(s, n, vs, j + 1));
  }

  lemma FlightsBelow(n: int, vs: seq<int>, cleared: nat, attached: nat)
    requires cleared <= |vs|
    ensures forall id :: id in Flights(n, vs, cleared, attached) ==> 0 <= id < |vs|
  {
  }

  lemma AttachOne(s: Store, n: int, vs: seq<int>, j: nat)
    requires Candidates(s, n, vs) && j < |vs|
    ensures Next(AttachedUpTo(s, n, vs, j), Move(j, Fine), AttachedUpTo(s, n, vs, j + 1))
  {
    FilledHolds(s, n, vs, j);
    AttachesCleanly(Filled(s, n, vs, j), vs[j], n);
    OneMoreAttached(n, vs, j);
  }

  lemma OneMoreAttached(n: int, vs: seq<int>, j: nat)
    requires j < |vs|
    ensures var f := Flight(vs[j], n, Cleared);
      && j in Flights(n, vs, |vs|, j) && Flights(n, vs, |vs|, j)[j] == f
      && Flights(n, vs, |vs|, j)[j := f.(phase := Phase.Attaching)] == Flights(n, vs, |vs|, j + 1)
  {
  }

  lemma AttachesCleanly(s: Store, v: int, n: int)
    requires v in s.volumes && s.volumes[v].node.None?
    ensures Advance(s, Flight(v, n, Cleared), Fine) == (s.Put(v, Attached(s.volumes[v], n)), Phase.Attaching)
  {
  }

  // For every number of concurrent publishes the bound is exact: from a node one short of
  // its limit, k calls for k detached volumes can all pass the check and all attach.
  lemma BoundIsReached(s: Store, n: int, vs: seq<int>, limit: int)
    returns (trace: seq<Race>, events: seq<Event>)
    requires Candidates(s, n, vs) && Limited(Race(s, map[]), n, limit)
    requires |s.AttachedTo(n)| == limit - 1
    ensures History(n, |vs|, trace, events) && trace[0] == Race(s, map[])
    ensures |trace[|trace| - 1].store.AttachedTo(n)| == limit + |vs| - 1
  {
    trace, events := AttachAll(s, n, vs, |vs|);
    FilledHolds(s, n, vs, |vs|);
  }
}
