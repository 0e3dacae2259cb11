/**
 * Schedule reconciliation: applying the dispatcher's stop lists to the vehicles' schedules.
 * Pass 1 clears each named vehicle's schedule after its current task, pass 2 rebuilds it stop by stop,
 * and a final validation checks that no request is left half-assigned.
 *
 * Each source loop is a method proved equal to a head-first recursive specification function.
 */
module Reconciler {
  import opened Common
  import opened Messages
  import opened Schedules
  import opened Routes
  import opened Bookkeeping

  type Fleet = map<VehicleId, Vehicle>

  predicate FleetValid(fleet: Fleet) {
    forall v :: v in fleet ==> fleet[v].schedule.Valid()
  }

  /** A running schedule whose current task is its last one. */
  predicate EndsAtCurrent(s: Schedule) {
    s.status == Started && s.currentIdx + 1 == |s.tasks|
  }

  /** A schedule as pass 1 leaves it: cut back to its current task, a current stay ending at `now`. */
  predicate CutBack(s: Schedule, now: real) {
    EndsAtCurrent(s) && (s.tasks[s.currentIdx].Stay? ==> s.tasks[s.currentIdx].endTime == now)
  }

  /**
   * `b` is vehicle `a` after reconciliation may have touched it: only tasks from the current one on may
   * differ, while the status, the current index, the tasks before it and every other field are kept.
   */
  predicate Kept(a: Vehicle, b: Vehicle) {
    && b == a.(schedule := b.schedule)
    && b.schedule.status == a.schedule.status
    && b.schedule.currentIdx == a.schedule.currentIdx
    && (a.schedule.status == Started && a.schedule.Valid() ==>
          && a.schedule.currentIdx < |b.schedule.tasks|
          && b.schedule.tasks[..a.schedule.currentIdx] == a.schedule.tasks[..a.schedule.currentIdx])
  }

  /** Every vehicle of `a` is kept in `b`, and `b` has no other vehicle. */
  predicate FleetKept(a: Fleet, b: Fleet) {
    a.Keys == b.Keys && forall v :: v in a ==> Kept(a[v], b[v])
  }

  // =============================================================================================
  // Pass 1: clearing

  /**
   * The bookkeeping of one task being discarded. For a stop, the pickup slots of its pickup requests
   * are released, and then the dropoff slots of the same pickup requests: `implement` iterates the
   * pickup requests twice, so a request this stop only drops off keeps its dropoff slot.
   */
  function TaskReleased(entries: Entries, t: Task): Result<Entries> {
    if t.Stop? then
      var e1 :- SlotsReleased(entries, t.pickups, PickupSlot);
      SlotsReleased(e1, t.pickups, DropoffSlot)
    else Success(entries)
  }

  function BookkeepingReleased(entries: Entries, tasks: seq<Task>): Result<Entries>
    decreases |tasks|
  {
    if tasks == [] then Success(entries)
    else
      var e1 :- TaskReleased(entries, tasks[0]);
      BookkeepingReleased(e1, tasks[1..])
  }

  /** The loop over the tasks from the current one to the last, releasing their bookkeeping. */
  method ReleaseBookkeeping(entries: Entries, tasks: seq<Task>, from: nat) returns (r: Result<Entries>)
    requires from <= |tasks|
    ensures r == BookkeepingReleased(entries, tasks[from..])
  {
    var current := entries;
    var i := from;
    while i < |tasks|
      invariant from <= i <= |tasks|
      invariant BookkeepingReleased(current, tasks[i..]) == BookkeepingReleased(entries, tasks[from..])
    {
      assert tasks[i..][0] == tasks[i] && tasks[i..][1..] == tasks[i + 1..];
      var task := tasks[i];
      if task.Stop? {
        var cleared := ReleaseSlots(current, task.pickups, PickupSlot);
        if cleared.Failure? {
          return cleared;
        }
        cleared := ReleaseSlots(cleared.value, task.pickups, DropoffSlot);
        if cleared.Failure? {
          return cleared;
        }
        current := cleared.value;
      }
      i := i + 1;
    }
    return Success(current);
  }

  /** A running schedule cut back to its current task, a current stay ending now. */
  function ClearedSchedule(s: Schedule, now: real): (r: Schedule)
    requires s.status == Started && s.Valid()
    ensures CutBack(r, now) && r.currentIdx == s.currentIdx
    ensures r.tasks[..s.currentIdx] == s.tasks[..s.currentIdx]
    ensures var c := s.tasks[s.currentIdx];
      r.tasks[s.currentIdx] == if c.Stay? then Stay(c.link, c.beginTime, now) else c
  {
    var c := s.tasks[s.currentIdx];
    var kept := s.tasks[..s.currentIdx + 1];
    s.(tasks := if c.Stay? then kept[s.currentIdx := WithEnd(c, now)] else kept)
  }

  /** Removes the last task until the current task is the last one, then clamps a current stay. */
  method ClearSchedule(s: Schedule, now: real) returns (r: Schedule)
    requires s.status == Started && s.Valid()
    ensures r == ClearedSchedule(s, now)
  {
    var tasks := s.tasks;
    while |tasks| > s.currentIdx + 1
      invariant s.currentIdx < |tasks| <= |s.tasks|
      invariant tasks == s.tasks[..|tasks|]
    {
      tasks := tasks[..|tasks| - 1];
    }
    var c := tasks[s.currentIdx];
    if c.Stay? {
      tasks := tasks[s.currentIdx := WithEnd(c, now)];
    }
    r := s.(tasks := tasks);
  }

  /** Pass 1 for one vehicle of the assignment. */
  function VehicleCleared(fleet: Fleet, entries: Entries, v: VehicleId, now: real): (r: Result<(Fleet, Entries)>)
    requires FleetValid(fleet)
    ensures r.Success? ==> FleetKept(fleet, r.value.0) && FleetValid(r.value.0)
    ensures r.Success? ==> v in fleet && CutBack(r.value.0[v].schedule, now)
    ensures r.Success? ==> forall u :: u in fleet && u != v ==> r.value.0[u] == fleet[u]
    ensures v !in fleet ==> r == Failure(UnknownVehicle(v))
    ensures v in fleet && fleet[v].schedule.status != Started ==> r == Failure(ScheduleNotStarted(v))
  {
    if v !in fleet then Failure(UnknownVehicle(v))
    else
      var s := fleet[v].schedule;
      if s.status != Started then Failure(ScheduleNotStarted(v))
      else
        var e1 :- BookkeepingReleased(entries, s.tasks[s.currentIdx..]);
        Success((fleet[v := fleet[v].(schedule := ClearedSchedule(s, now))], e1))
  }

  method ClearVehicle(fleet: Fleet, entries: Entries, v: VehicleId, now: real) returns (r: Result<(Fleet, Entries)>)
    requires FleetValid(fleet)
    ensures r == VehicleCleared(fleet, entries, v, now)
  {
    if v !in fleet {
      return Failure(UnknownVehicle(v));
    }
    var s := fleet[v].schedule;
    if s.status != Started {
      return Failure(ScheduleNotStarted(v));
    }
    var released := ReleaseBookkeeping(entries, s.tasks, s.currentIdx);
    if released.Failure? {
      return Failure(released.error);
    }
    var cleared := ClearSchedule(s, now);
    return Success((fleet[v := fleet[v].(schedule := cleared)], released.value));
  }

  /** Pass 1 over the vehicles of the assignment, in the assignment's order. */
  function AllCleared(fleet: Fleet, entries: Entries, plans: seq<VehiclePlan>, now: real): (r: Result<(Fleet, Entries)>)
    requires FleetValid(fleet)
    ensures r.Success? ==> FleetKept(fleet, r.value.0) && FleetValid(r.value.0)
    decreases |plans|
  {
    if plans == [] then Success((fleet, entries))
    else
      var c :- VehicleCleared(fleet, entries, plans[0].vehicle, now);
      AllCleared(c.0, c.1, plans[1..], now)
  }

  /** The pass 1 loop. */
  method ClearAll(fleet: Fleet, entries: Entries, plans: seq<VehiclePlan>, now: real) returns (r: Result<(Fleet, Entries)>)
    requires FleetValid(fleet)
    ensures r == AllCleared(fleet, entries, plans, now)
  {
    var f, e := fleet, entries;
    var i := 0;
    while i < |plans|
      invariant 0 <= i <= |plans|
      invariant FleetValid(f)
      invariant AllCleared(f, e, plans[i..], now) == AllCleared(fleet, entries, plans, now)
    {
      assert plans[i..][0] == plans[i] && plans[i..][1..] == plans[i + 1..];
      var c := ClearVehicle(f, e, plans[i].vehicle, now);
      if c.Failure? {
        return Failure(c.error);
      }
      f, e := c.value.0, c.value.1;
      i := i + 1;
    }
    return Success((f, e));
  }

  // =============================================================================================
  // Pass 2: rebuilding

  /** A task list under construction and the index of the task pass 2 is extending. */
  datatype Plan = Plan(tasks: seq<Task>, at: nat) {
    predicate Valid() { at < |tasks| }
    /** Whether the current task is the last one, as it is throughout pass 2. */
    predicate AtEnd() { at + 1 == |tasks| }
    function Current(): Task requires Valid() { tasks[at] }
  }

  /**
   * Whether `q` extends `p`: no task before `p`'s current one changes, none is removed, and the current
   * task does not move backwards.
   */
  predicate Extends(q: Plan, p: Plan)
    requires p.Valid()
  {
    q.Valid() && |p.tasks| <= |q.tasks| && p.at <= q.at && q.tasks[..p.at] == p.tasks[..p.at]
  }

  lemma ExtendsTrans(r: Plan, q: Plan, p: Plan)
    requires p.Valid() && Extends(q, p) && Extends(r, q)
    ensures Extends(r, p)
  {
    assert r.tasks[..p.at] == r.tasks[..q.at][..p.at];
    assert q.tasks[..p.at] == q.tasks[..q.at][..p.at];
  }

  /**
   * The path of a new drive towards `target`: the router's, or the explicit route stamped from
   * `departure`. Only the router is handed the target link, so only there is an unknown one fatal.
   */
  function ApproachPath(env: Env, route: Option<seq<LinkId>>, target: LinkId, routed: Path, departure: real)
    : (r: Result<Path>)
    ensures route.None? ==> (r.Success? <==> target in env.network)
    ensures route.None? && r.Success? ==> r.value == routed
    ensures route.Some? ==> r == RoutePath(env.network, env.travelTime, route.value, departure)
  {
    match route
    case None => if target !in env.network then Failure(UnknownLink(target)) else Success(routed)
    case Some(links) => RoutePath(env.network, env.travelTime, links, departure)
  }

  /**
   * Moving to the stop's link. For the first stop of a vehicle that is driving, its current drive is
   * diverted from its diversion point; after a stay or a stop at another link, a drive is appended.
   * A drive that is not the first stop's is left as it is, so no drive connects it to this stop.
   */
  function Moved(env: Env, tracker: DriveTracker, p: Plan, stop: AssignedStop, first: bool): (r: Result<Plan>)
    requires p.Valid()
    ensures r.Success? ==> Extends(r.value, p)
    ensures stop.route.None? && stop.link !in env.network ==>
              (r.Failure? <==> (first && p.Current().Drive?) || (p.Current().AtLink() && p.Current().link != stop.link))
  {
    var c := p.Current();
    if first && c.Drive? then
      var dp := tracker.diversionPoint;
      var path :- ApproachPath(env, stop.route, stop.link, env.router.diversionPath(dp, stop.link), dp.time);
      Success(p.(tasks := p.tasks[p.at := Diverted(c, path)]))
    else if c.AtLink() && c.link != stop.link then
      var path :- ApproachPath(env, stop.route, stop.link, env.router.path(c.link, stop.link, c.endTime), c.endTime);
      Success(Plan(p.tasks + [DriveAlong(path)], |p.tasks|))
    else
      Success(p)
  }

  /** A wait at the stop's link until its earliest start, when the current task ends before it. */
  function Waited(p: Plan, stop: AssignedStop): (r: Plan)
    requires p.Valid()
    ensures Extends(r, p)
    ensures r.Current().endTime >= p.Current().endTime
    ensures stop.earliestStartTime.Some? ==> r.Current().endTime >= stop.earliestStartTime.value
    ensures r != p <==> stop.earliestStartTime.Some? && p.Current().endTime < stop.earliestStartTime.value
    ensures r != p ==>
              && r.at == |p.tasks|
              && r.tasks == p.tasks + [Stay(stop.link, p.Current().endTime, stop.earliestStartTime.value)]
  {
    var e := p.Current().endTime;
    match stop.earliestStartTime
    case Some(start) =>
      if e < start then Plan(p.tasks + [Stay(stop.link, e, start)], |p.tasks|) else p
    case None => p
  }

  /**
   * One stop of the plan: move, possibly wait, and, when it picks up or drops off anyone, a stop task
   * of the given duration whose requests' slots are registered to vehicle `v`.
   */
  function StopPlanned(env: Env, tracker: DriveTracker, v: VehicleId, p: Plan, entries: Entries,
                       stop: AssignedStop, first: bool): (r: Result<(Plan, Entries)>)
    requires p.Valid()
    ensures r.Success? ==> Extends(r.value.0, p)
    ensures r.Success? && (|stop.pickup| > 0 || |stop.dropoff| > 0) ==> stop.link in env.network
    ensures r.Success? && |stop.pickup| == 0 && |stop.dropoff| == 0 ==>
              && Moved(env, tracker, p, stop, first).Success?
              && r.value.0 == Waited(Moved(env, tracker, p, stop, first).value, stop)
              && (r.value.0 != Moved(env, tracker, p, stop, first).value ==> stop.link in env.network)
    ensures r.Success? && (|stop.pickup| > 0 || |stop.dropoff| > 0) ==>
              var c := r.value.0.Current();
              && c == Stop(stop.link, c.beginTime, c.beginTime + stop.stopDuration, stop.pickup, stop.dropoff)
              && (stop.earliestStartTime.Some? ==> c.beginTime >= stop.earliestStartTime.value)
    ensures r.Success? && |stop.pickup| == 0 && |stop.dropoff| == 0 ==> r.value.1 == entries
  {
    var moved :- Moved(env, tracker, p, stop, first);
    var waited := Waited(moved, stop);
    if waited != moved && stop.link !in env.network then Failure(UnknownLink(stop.link))
    else if |stop.pickup| > 0 || |stop.dropoff| > 0 then
      if stop.link !in env.network then Failure(UnknownLink(stop.link))
      else
        var e1 :- SlotsRegistered(entries, stop.pickup, PickupSlot, v);
        var e2 :- SlotsRegistered(e1, stop.dropoff, DropoffSlot, v);
        var b := waited.Current().endTime;
        Success((Plan(waited.tasks + [Stop(stop.link, b, b + stop.stopDuration, stop.pickup, stop.dropoff)], |waited.tasks|), e2))
    else
      Success((waited, entries))
  }

  method Approach(env: Env, route: Option<seq<LinkId>>, target: LinkId, routed: Path, departure: real)
    returns (r: Result<Path>)
    ensures r == ApproachPath(env, route, target, routed, departure)
  {
    match route {
      case None =>
        if target !in env.network {
          return Failure(UnknownLink(target));
        }
        r := Success(routed);
      case Some(links) => r := CreatePath(env.network, env.travelTime, links, departure);
    }
  }

  /** The move towards a stop: a first-stop diversion of the current drive, or a new drive. */
  method Move(env: Env, tracker: DriveTracker, p: Plan, stop: AssignedStop, first: bool) returns (r: Result<Plan>)
    requires p.Valid()
    ensures r == Moved(env, tracker, p, stop, first)
  {
    var c := p.Current();
    if first && c.Drive? {
      var dp := tracker.diversionPoint;
      var path := Approach(env, stop.route, stop.link, env.router.diversionPath(dp, stop.link), dp.time);
      if path.Failure? {
        return Failure(path.error);
      }
      r := Success(p.(tasks := p.tasks[p.at := Diverted(c, path.value)]));
    } else if c.AtLink() && c.link != stop.link {
      var path := Approach(env, stop.route, stop.link, env.router.path(c.link, stop.link, c.endTime), c.endTime);
      if path.Failure? {
        return Failure(path.error);
      }
      r := Success(Plan(p.tasks + [DriveAlong(path.value)], |p.tasks|));
    } else {
      r := Success(p);
    }
  }

  /** The body of the loop over the stops of one vehicle. */
  method PlanStop(env: Env, tracker: DriveTracker, v: VehicleId, p: Plan, entries: Entries,
                  stop: AssignedStop, first: bool) returns (r: Result<(Plan, Entries)>)
    requires p.Valid()
    ensures r == StopPlanned(env, tracker, v, p, entries, stop, first)
  {
    var moved := Move(env, tracker, p, stop, first);
    if moved.Failure? {
      return Failure(moved.error);
    }
    var plan := moved.value;
    var e := plan.Current().endTime;
    if stop.earliestStartTime.Some? && e < stop.earliestStartTime.value {
      if stop.link !in env.network {
        return Failure(UnknownLink(stop.link));
      }
      plan := Plan(plan.tasks + [Stay(stop.link, e, stop.earliestStartTime.value)], |plan.tasks|);
    }
    var table := entries;
    if |stop.pickup| > 0 || |stop.dropoff| > 0 {
      if stop.link !in env.network {
        return Failure(UnknownLink(stop.link));
      }
      var registered := RegisterSlots(table, stop.pickup, PickupSlot, v);
      if registered.Failure? {
        return Failure(registered.error);
      }
      registered := RegisterSlots(registered.value, stop.dropoff, DropoffSlot, v);
      if registered.Failure? {
        return Failure(registered.error);
      }
      table := registered.value;
      var b := plan.Current().endTime;
      plan := Plan(plan.tasks + [Stop(stop.link, b, b + stop.stopDuration, stop.pickup, stop.dropoff)], |plan.tasks|);
    }
    return Success((plan, table));
  }

  /** The stops of one vehicle's non-empty list, in order; only the first may divert a drive. */
  function StopsPlanned(env: Env, tracker: DriveTracker, v: VehicleId, p: Plan, entries: Entries,
                        stops: seq<AssignedStop>, first: bool): (r: Result<(Plan, Entries)>)
    requires p.Valid()
    ensures r.Success? ==> Extends(r.value.0, p)
    decreases |stops|
  {
    if stops == [] then Success((p, entries))
    else
      var s1 :- StopPlanned(env, tracker, v, p, entries, stops[0], first);
      StopsPlanned(env, tracker, v, s1.0, s1.1, stops[1..], false)
  }

  method PlanStops(env: Env, tracker: DriveTracker, v: VehicleId, p: Plan, entries: Entries,
                   stops: seq<AssignedStop>) returns (r: Result<(Plan, Entries)>)
    requires p.Valid()
    ensures r == StopsPlanned(env, tracker, v, p, entries, stops, true)
  {
    var plan := p;
    var table := entries;
    var i := 0;
    while i < |stops|
      invariant 0 <= i <= |stops|
      invariant plan.Valid()
      invariant StopsPlanned(env, tracker, v, plan, table, stops[i..], i == 0)
             == StopsPlanned(env, tracker, v, p, entries, stops, true)
    {
      assert stops[i..][0] == stops[i] && stops[i..][1..] == stops[i + 1..];
      var step := PlanStop(env, tracker, v, plan, table, stops[i], i == 0);
      if step.Failure? {
        return Failure(step.error);
      }
      plan, table := step.value.0, step.value.1;
      i := i + 1;
    }
    return Success((plan, table));
  }

  /** With nothing left to do, a driving vehicle is diverted to its own diversion point. */
  function DrivingStopped(env: Env, tracker: DriveTracker, p: Plan): (r: Plan)
    requires p.Valid()
    ensures Extends(r, p) && r.at == p.at && |r.tasks| == |p.tasks|
    ensures !p.Current().Drive? ==> r == p
    ensures p.Current().Drive? ==>
              && r.Current().Drive? && r.Current().beginTime == p.Current().beginTime
              && r.Current().path == env.router.diversionPath(tracker.diversionPoint, tracker.diversionPoint.link)
  {
    var c := p.Current();
    if c.Drive? then
      var dp := tracker.diversionPoint;
      p.(tasks := p.tasks[p.at := Diverted(c, env.router.diversionPath(dp, dp.link))])
    else p
  }

  /**
   * The schedule is made to last until the end of service: a current stay is extended, anything else
   * is followed by a stay at its end link. The end link of a drive is its path's last link.
   */
  function TailClosed(v: VehicleId, p: Plan, serviceEnd: real): (r: Result<Plan>)
    requires p.Valid()
    ensures r.Success? ==> Extends(r.value, p)
    ensures r.Success? ==> r.value.Current().endTime >= serviceEnd
    ensures r.Success? && p.AtEnd() ==> r.value.AtEnd()
    ensures r.Success? && p.Current().endTime < serviceEnd ==> r.value.Current().Stay? && r.value.Current().endTime == serviceEnd
    ensures r.Success? && p.Current().endTime >= serviceEnd ==> r.value == p
    ensures r.Failure? <==> p.Current().endTime < serviceEnd && p.Current().Drive? && |p.Current().path.links| == 0
  {
    var c := p.Current();
    if c.endTime < serviceEnd then
      if c.Stay? then Success(p.(tasks := p.tasks[p.at := WithEnd(c, serviceEnd)]))
      else if c.Stop? then Success(Plan(p.tasks + [Stay(c.link, c.endTime, serviceEnd)], |p.tasks|))
      else if |c.path.links| == 0 then Failure(PathWithoutLinks(v))
      else Success(Plan(p.tasks + [Stay(c.path.links[|c.path.links| - 1], c.endTime, serviceEnd)], |p.tasks|))
    else Success(p)
  }

  /** The body of pass 2 before the tail: the stops of a non-empty list, or a halted drive for an empty one. */
  function Rebuilt(env: Env, tracker: DriveTracker, v: VehicleId, p: Plan, entries: Entries,
                   stops: seq<AssignedStop>): (r: Result<(Plan, Entries)>)
    requires p.Valid()
    ensures r.Success? ==> Extends(r.value.0, p)
    ensures |stops| == 0 ==> r.Success? && r.value.1 == entries
  {
    if |stops| > 0 then StopsPlanned(env, tracker, v, p, entries, stops, true)
    else Success((DrivingStopped(env, tracker, p), entries))
  }

  /** Giving a running vehicle new tasks that keep those before its current one keeps the fleet. */
  lemma RescheduledKept(fleet: Fleet, v: VehicleId, tasks: seq<Task>)
    requires FleetValid(fleet) && v in fleet && fleet[v].schedule.status == Started
    requires fleet[v].schedule.currentIdx < |tasks|
    requires tasks[..fleet[v].schedule.currentIdx] == fleet[v].schedule.tasks[..fleet[v].schedule.currentIdx]
    ensures var f := fleet[v := fleet[v].(schedule := fleet[v].schedule.(tasks := tasks))];
      FleetKept(fleet, f) && FleetValid(f)
  {
  }

  /** Pass 2 for one vehicle of the assignment. */
  function VehicleRebuilt(env: Env, fleet: Fleet, entries: Entries, plan: VehiclePlan): (r: Result<(Fleet, Entries)>)
    requires FleetValid(fleet)
    ensures r.Success? ==> FleetKept(fleet, r.value.0) && FleetValid(r.value.0)
    ensures r.Success? ==> plan.vehicle in fleet && r.value.0[plan.vehicle].schedule.currentIdx < |r.value.0[plan.vehicle].schedule.tasks|
    ensures r.Success? ==> forall u :: u in fleet && u != plan.vehicle ==> r.value.0[u] == fleet[u]
    ensures plan.vehicle !in fleet ==> r == Failure(UnknownVehicle(plan.vehicle))
    ensures plan.vehicle in fleet && fleet[plan.vehicle].schedule.status != Started ==> r == Failure(ScheduleNotStarted(plan.vehicle))
  {
    var v := plan.vehicle;
    if v !in fleet then Failure(UnknownVehicle(v))
    else
      var vehicle := fleet[v];
      var s := vehicle.schedule;
      if s.status != Started then Failure(ScheduleNotStarted(v))
      else
        var p0 := Plan(s.tasks, s.currentIdx);
        var built :- Rebuilt(env, vehicle.tracker, v, p0, entries, plan.stops);
        var closed :- TailClosed(v, built.0, vehicle.serviceEndTime);
        ExtendsTrans(closed, built.0, p0);
        RescheduledKept(fleet, v, closed.tasks);
        Success((fleet[v := vehicle.(schedule := s.(tasks := closed.tasks))], built.1))
  }

  method RebuildVehicle(env: Env, fleet: Fleet, entries: Entries, plan: VehiclePlan) returns (r: Result<(Fleet, Entries)>)
    requires FleetValid(fleet)
    ensures r == VehicleRebuilt(env, fleet, entries, plan)
  {
    var v := plan.vehicle;
    if v !in fleet {
      return Failure(UnknownVehicle(v));
    }
    var vehicle := fleet[v];
    var s := vehicle.schedule;
    if s.status != Started {
      return Failure(ScheduleNotStarted(v));
    }
    var p0 := Plan(s.tasks, s.currentIdx);
    var built: Result<(Plan, Entries)>;
    if |plan.stops| > 0 {
      built := PlanStops(env, vehicle.tracker, v, p0, entries, plan.stops);
    } else {
      built := Success((DrivingStopped(env, vehicle.tracker, p0), entries));
    }
    assert built == Rebuilt(env, vehicle.tracker, v, p0, entries, plan.stops);
    if built.Failure? {
      return Failure(built.error);
    }
    var closed := TailClosed(v, built.value.0, vehicle.serviceEndTime);
    if closed.Failure? {
      return Failure(closed.error);
    }
    return Success((fleet[v := vehicle.(schedule := s.(tasks := closed.value.tasks))], built.value.1));
  }

  /** Pass 2 over the vehicles of the assignment, in the assignment's order. */
  function AllRebuilt(env: Env, fleet: Fleet, entries: Entries, plans: seq<VehiclePlan>): (r: Result<(Fleet, Entries)>)
    requires FleetValid(fleet)
    ensures r.Success? ==> FleetKept(fleet, r.value.0) && FleetValid(r.value.0)
    decreases |plans|
  {
    if plans == [] then Success((fleet, entries))
    else
      var b :- VehicleRebuilt(env, fleet, entries, plans[0]);
      AllRebuilt(env, b.0, b.1, plans[1..])
  }

  /** The pass 2 loop. */
  method RebuildAll(env: Env, fleet: Fleet, entries: Entries, plans: seq<VehiclePlan>) returns (r: Result<(Fleet, Entries)>)
    requires FleetValid(fleet)
    ensures r == AllRebuilt(env, fleet, entries, plans)
  {
    var f, e := fleet, entries;
    var i := 0;
    while i < |plans|
      invariant 0 <= i <= |plans|
      invariant FleetValid(f)
      invariant AllRebuilt(env, f, e, plans[i..]) == AllRebuilt(env, fleet, entries, plans)
    {
      assert plans[i..][0] == plans[i] && plans[i..][1..] == plans[i + 1..];
      var b := RebuildVehicle(env, f, e, plans[i]);
      if b.Failure? {
        return Failure(b.error);
      }
      f, e := b.value.0, b.value.1;
      i := i + 1;
    }
    return Success((f, e));
  }

  /** Both passes: the fleet and request table that validation then inspects. */
  function Reconciled(env: Env, fleet: Fleet, entries: Entries, assignment: Assignment, now: real): (r: Result<(Fleet, Entries)>)
    requires FleetValid(fleet)
    ensures r.Success? ==> FleetKept(fleet, r.value.0) && FleetValid(r.value.0)
  {
    var c :- AllCleared(fleet, entries, assignment.stops, now);
    AllRebuilt(env, c.0, c.1, assignment.stops)
  }

  /** Both reconciliation passes over the fleet, clearing first and rebuilding second. */
  method Reconcile(env: Env, fleet: Fleet, entries: Entries, assignment: Assignment, now: real)
    returns (r: Result<(Fleet, Entries)>)
    requires FleetValid(fleet)
    ensures r == Reconciled(env, fleet, entries, assignment, now)
  {
    var cleared := ClearAll(fleet, entries, assignment.stops, now);
    if cleared.Failure? {
      return Failure(cleared.error);
    }
    r := RebuildAll(env, cleared.value.0, cleared.value.1, assignment.stops);
  }
}
