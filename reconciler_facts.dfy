/**
 * Properties of schedule reconciliation that relate several steps: which vehicles and requests the two
 * passes touch, what pass 1 leaves behind, and what shape pass 2 gives the rebuilt schedules.
 */
module ReconcilerFacts {
  import opened Common
  import opened Messages
  import opened Schedules
  import opened Bookkeeping
  import opened Reconciler

  /** Whether some plan of the assignment names vehicle `v`. */
  predicate Named(plans: seq<VehiclePlan>, v: VehicleId) {
    exists i :: 0 <= i < |plans| && plans[i].vehicle == v
  }

  /** The assignment names each vehicle at most once, as the keys of a map do. */
  predicate DistinctVehicles(plans: seq<VehiclePlan>) {
    forall i, j :: 0 <= i < j < |plans| ==> plans[i].vehicle != plans[j].vehicle
  }

  lemma NamedTail(plans: seq<VehiclePlan>, v: VehicleId)
    requires plans != []
    ensures Named(plans, v) <==> plans[0].vehicle == v || Named(plans[1..], v)
  {
    if Named(plans[1..], v) {
      var i :| 0 <= i < |plans[1..]| && plans[1..][i].vehicle == v;
      assert plans[i + 1].vehicle == v;
    }
    if Named(plans, v) && plans[0].vehicle != v {
      var i :| 0 <= i < |plans| && plans[i].vehicle == v;
      assert plans[1..][i - 1].vehicle == v;
    }
  }

  // ---------------------------------------------------------------------------------------------
  // Only the vehicles of the assignment are touched

  lemma {:induction false} ClearedOnlyNamed(fleet: Fleet, entries: Entries, plans: seq<VehiclePlan>, now: real)
    requires FleetValid(fleet)
    ensures var r := AllCleared(fleet, entries, plans, now);
      r.Success? ==> forall v :: v in fleet && !Named(plans, v) ==> r.value.0[v] == fleet[v]
    decreases |plans|
  {
    if plans != [] {
      var c := VehicleCleared(fleet, entries, plans[0].vehicle, now);
      if c.Success? {
        ClearedOnlyNamed(c.value.0, c.value.1, plans[1..], now);
        forall v | v in fleet && !Named(plans, v) ensures !Named(plans[1..], v) && v != plans[0].vehicle {
          NamedTail(plans, v);
        }
      }
    }
  }

  lemma {:induction false} RebuiltOnlyNamed(env: Env, fleet: Fleet, entries: Entries, plans: seq<VehiclePlan>)
    requires FleetValid(fleet)
    ensures var r := AllRebuilt(env, fleet, entries, plans);
      r.Success? ==> forall v :: v in fleet && !Named(plans, v) ==> r.value.0[v] == fleet[v]
    decreases |plans|
  {
    if plans != [] {
      var b := VehicleRebuilt(env, fleet, entries, plans[0]);
      if b.Success? {
        RebuiltOnlyNamed(env, b.value.0, b.value.1, plans[1..]);
        forall v | v in fleet && !Named(plans, v) ensures !Named(plans[1..], v) && v != plans[0].vehicle {
          NamedTail(plans, v);
        }
      }
    }
  }

  /** A vehicle the assignment does not name comes out of reconciliation exactly as it went in. */
  lemma ReconciledOnlyNamed(env: Env, fleet: Fleet, entries: Entries, assignment: Assignment, now: real)
    requires FleetValid(fleet)
    ensures var r := Reconciled(env, fleet, entries, assignment, now);
      r.Success? ==> forall v :: v in fleet && !Named(assignment.stops, v) ==> r.value.0[v] == fleet[v]
  {
    var c := AllCleared(fleet, entries, assignment.stops, now);
    ClearedOnlyNamed(fleet, entries, assignment.stops, now);
    if c.Success? {
      RebuiltOnlyNamed(env, c.value.0, c.value.1, assignment.stops);
    }
  }

  // ---------------------------------------------------------------------------------------------
  // Pass 1 leaves every named vehicle at its current task

  /** After pass 1, every vehicle the assignment names is cut back to its current task. */
  lemma {:induction false} AllClearedCutsBack(fleet: Fleet, entries: Entries, plans: seq<VehiclePlan>, now: real)
    requires FleetValid(fleet)
    ensures var r := AllCleared(fleet, entries, plans, now);
      r.Success? ==> forall i :: 0 <= i < |plans| ==> plans[i].vehicle in r.value.0 && CutBack(r.value.0[plans[i].vehicle].schedule, now)
    decreases |plans|
  {
    if plans != [] {
      var v := plans[0].vehicle;
      var c := VehicleCleared(fleet, entries, v, now);
      if c.Success? {
        var r := AllCleared(c.value.0, c.value.1, plans[1..], now);
        AllClearedCutsBack(c.value.0, c.value.1, plans[1..], now);
        ClearedOnlyNamed(c.value.0, c.value.1, plans[1..], now);
        if r.Success? {
          forall i | 0 <= i < |plans| ensures plans[i].vehicle in r.value.0 && CutBack(r.value.0[plans[i].vehicle].schedule, now) {
            if i > 0 {
              assert plans[i] == plans[1..][i - 1];
            } else if Named(plans[1..], v) {
              var j :| 0 <= j < |plans[1..]| && plans[1..][j].vehicle == v;
            }
          }
        }
      }
    }
  }

  // ---------------------------------------------------------------------------------------------
  // Pass 1 bookkeeping

  /** An entry whose two slots are released; the scheduled flag stays. */
  function Released(e: RequestEntry): RequestEntry {
    RequestEntry(None, None, e.scheduled)
  }

  /** Whether some stop among `tasks` picks request `q` up. */
  predicate PickedUpAmong(tasks: seq<Task>, q: RequestId) {
    exists k :: 0 <= k < |tasks| && PicksUp(tasks[k], q)
  }

  /**
   * Discarding one task succeeds exactly when every request it picks up has an entry; both slots of
   * those requests are then released, and every other entry, including one the task only drops off,
   * is unchanged.
   */
  lemma TaskReleasedSpec(entries: Entries, t: Task)
    ensures var r := TaskReleased(entries, t);
      && (r.Success? <==> forall q :: PicksUp(t, q) ==> q in entries)
      && (r.Success? ==> r.value.Keys == entries.Keys)
      && (r.Success? ==> forall q :: q in entries ==> r.value[q] == if PicksUp(t, q) then Released(entries[q]) else entries[q])
  {
    if t.Stop? {
      SlotsReleasedSpec(entries, t.pickups, PickupSlot);
      var e1 := SlotsReleased(entries, t.pickups, PickupSlot);
      if e1.Success? {
        SlotsReleasedSpec(e1.value, t.pickups, DropoffSlot);
      }
      if forall q :: PicksUp(t, q) ==> q in entries {
        forall i | 0 <= i < |t.pickups| ensures t.pickups[i] in entries {
          assert PicksUp(t, t.pickups[i]);
        }
      }
    }
  }

  lemma PickedUpAmongTail(tasks: seq<Task>, q: RequestId)
    requires tasks != []
    ensures PickedUpAmong(tasks, q) <==> PicksUp(tasks[0], q) || PickedUpAmong(tasks[1..], q)
  {
    if PickedUpAmong(tasks[1..], q) {
      var k :| 0 <= k < |tasks[1..]| && PicksUp(tasks[1..][k], q);
      assert tasks[k + 1] == tasks[1..][k];
    }
    if PickedUpAmong(tasks, q) && !PicksUp(tasks[0], q) {
      var k :| 0 <= k < |tasks| && PicksUp(tasks[k], q);
      assert tasks[1..][k - 1] == tasks[k];
    }
  }

  /**
   * Pass 1's bookkeeping over the discarded tasks succeeds exactly when every request they pick up has
   * an entry. Both slots of every such request are released; a request the tasks only drop off keeps
   * its dropoff slot.
   */
  lemma {:induction false} BookkeepingReleasedSpec(entries: Entries, tasks: seq<Task>)
    ensures var r := BookkeepingReleased(entries, tasks);
      && (r.Success? <==> forall k, q :: 0 <= k < |tasks| && PicksUp(tasks[k], q) ==> q in entries)
      && (r.Success? ==> r.value.Keys == entries.Keys)
      && (r.Success? ==> forall q :: q in entries ==>
            r.value[q] == if PickedUpAmong(tasks, q) then Released(entries[q]) else entries[q])
    decreases |tasks|
  {
    if tasks != [] {
      var t := tasks[0];
      var tail := tasks[1..];
      TaskReleasedSpec(entries, t);
      assert forall k :: 1 <= k < |tasks| ==> tasks[k] == tail[k - 1];
      var e1 := TaskReleased(entries, t);
      if e1.Success? {
        BookkeepingReleasedSpec(e1.value, tail);
        forall q | q in entries
          ensures PickedUpAmong(tasks, q) <==> PicksUp(t, q) || PickedUpAmong(tail, q)
        {
          PickedUpAmongTail(tasks, q);
        }
      } else {
        var q :| PicksUp(t, q) && q !in entries;
        assert PicksUp(tasks[0], q);
      }
    }
  }

  /**
   * A consequence of releasing only pickup ids: a passenger already on board, whose dropoff stop is
   * still ahead, keeps its dropoff slot through pass 1, so sending that dropoff again is fatal.
   */
  lemma OnboardDropoffResent()
    ensures var before := map["q" := RequestEntry(Some("v"), Some("v"), true)];
      var ahead := [Stop("l", 10.0, 20.0, [], ["q"])];
      && BookkeepingReleased(before, ahead) == Success(before)
      && SlotsRegistered(before, ["q"], DropoffSlot, "v") == Failure(SlotTaken("q", DropoffSlot, "v", "v"))
  {
    var before := map["q" := RequestEntry(Some("v"), Some("v"), true)];
    var ahead := [Stop("l", 10.0, 20.0, [], ["q"])];
    assert ahead[1..] == [];
    assert ["q"][1..] == [];
  }

  // ---------------------------------------------------------------------------------------------
  // Pass 2: every new task begins when the one before it ends

  /** Every task from index `from` on is followed by one that begins when it ends. */
  predicate Contiguous(tasks: seq<Task>, from: nat) {
    forall k :: from <= k < |tasks| - 1 ==> tasks[k + 1].beginTime == tasks[k].endTime
  }

  lemma AppendContiguous(tasks: seq<Task>, from: nat, t: Task)
    requires tasks != [] && from < |tasks| && Contiguous(tasks, from)
    requires t.beginTime == tasks[|tasks| - 1].endTime
    ensures Contiguous(tasks + [t], from)
  {
    var r := tasks + [t];
    forall k | from <= k < |r| - 1 ensures r[k + 1].beginTime == r[k].endTime {
      if k + 1 < |tasks| {
        assert r[k + 1] == tasks[k + 1] && r[k] == tasks[k];
      }
    }
  }

  lemma ReplaceLastContiguous(tasks: seq<Task>, from: nat, t: Task)
    requires tasks != [] && Contiguous(tasks, from)
    requires t.beginTime == tasks[|tasks| - 1].beginTime
    ensures Contiguous(tasks[|tasks| - 1 := t], from)
  {
    var r := tasks[|tasks| - 1 := t];
    forall k | from <= k < |r| - 1 ensures r[k + 1].beginTime == r[k].endTime {
      assert r[k] == tasks[k];
      if k + 1 < |tasks| - 1 {
        assert r[k + 1] == tasks[k + 1];
      }
    }
  }

  /** A pass-2 plan whose tasks from `from` on are contiguous and whose current task is the last. */
  predicate Chained(p: Plan, from: nat) {
    p.AtEnd() && from <= p.at && Contiguous(p.tasks, from)
  }

  lemma MovedChained(env: Env, tracker: DriveTracker, p: Plan, stop: AssignedStop, first: bool, from: nat)
    requires p.Valid() && Chained(p, from) && DepartsOnTime(env.router)
    ensures var r := Moved(env, tracker, p, stop, first); r.Success? ==> Chained(r.value, from)
  {
    var c := p.Current();
    if first && c.Drive? {
      var dp := tracker.diversionPoint;
      var path := ApproachPath(env, stop.route, stop.link, env.router.diversionPath(dp, stop.link), dp.time);
      if path.Success? {
        ReplaceLastContiguous(p.tasks, from, Diverted(c, path.value));
      }
    } else if c.AtLink() && c.link != stop.link {
      var path := ApproachPath(env, stop.route, stop.link, env.router.path(c.link, stop.link, c.endTime), c.endTime);
      if path.Success? {
        assert path.value.departureTime == c.endTime;
        AppendContiguous(p.tasks, from, DriveAlong(path.value));
      }
    }
  }

  lemma StopPlannedChained(env: Env, tracker: DriveTracker, v: VehicleId, p: Plan, entries: Entries,
                           stop: AssignedStop, first: bool, from: nat)
    requires p.Valid() && Chained(p, from) && DepartsOnTime(env.router)
    ensures var r := StopPlanned(env, tracker, v, p, entries, stop, first); r.Success? ==> Chained(r.value.0, from)
  {
    MovedChained(env, tracker, p, stop, first, from);
    var moved := Moved(env, tracker, p, stop, first);
    if moved.Success? {
      var waited := Waited(moved.value, stop);
      if waited != moved.value {
        AppendContiguous(moved.value.tasks, from, Stay(stop.link, moved.value.Current().endTime, stop.earliestStartTime.value));
      }
      var b := waited.Current().endTime;
      AppendContiguous(waited.tasks, from, Stop(stop.link, b, b + stop.stopDuration, stop.pickup, stop.dropoff));
    }
  }

  lemma {:induction false} StopsPlannedChained(env: Env, tracker: DriveTracker, v: VehicleId, p: Plan, entries: Entries,
                                               stops: seq<AssignedStop>, first: bool, from: nat)
    requires p.Valid() && Chained(p, from) && DepartsOnTime(env.router)
    ensures var r := StopsPlanned(env, tracker, v, p, entries, stops, first); r.Success? ==> Chained(r.value.0, from)
    decreases |stops|
  {
    if stops != [] {
      StopPlannedChained(env, tracker, v, p, entries, stops[0], first, from);
      var s1 := StopPlanned(env, tracker, v, p, entries, stops[0], first);
      if s1.Success? {
        StopsPlannedChained(env, tracker, v, s1.value.0, s1.value.1, stops[1..], false, from);
      }
    }
  }

  lemma TailClosedChained(v: VehicleId, p: Plan, serviceEnd: real, from: nat)
    requires p.Valid() && Chained(p, from)
    ensures var r := TailClosed(v, p, serviceEnd); r.Success? ==> Chained(r.value, from)
  {
    var c := p.Current();
    if c.endTime < serviceEnd {
      if c.Stay? {
        ReplaceLastContiguous(p.tasks, from, WithEnd(c, serviceEnd));
      } else if c.Stop? {
        AppendContiguous(p.tasks, from, Stay(c.link, c.endTime, serviceEnd));
      } else if |c.path.links| > 0 {
        AppendContiguous(p.tasks, from, Stay(c.path.links[|c.path.links| - 1], c.endTime, serviceEnd));
      }
    }
  }

  /**
   * A settled rebuilt schedule: running, every task after the current one begins when
   * the one before it ends, and the last one lasts at least until the end of service.
   */
  predicate Settled(s: Schedule, serviceEnd: real) {
    && s.status == Started && s.currentIdx < |s.tasks|
    && Contiguous(s.tasks, s.currentIdx)
    && s.tasks[|s.tasks| - 1].endTime >= serviceEnd
  }

  /**
   * Pass 2 for a vehicle that pass 1 cut back settles its schedule, given a router whose paths leave
   * when asked.
   */
  lemma RebuiltSettled(env: Env, fleet: Fleet, entries: Entries, plan: VehiclePlan)
    requires FleetValid(fleet) && DepartsOnTime(env.router)
    requires plan.vehicle in fleet && EndsAtCurrent(fleet[plan.vehicle].schedule)
    ensures var r := VehicleRebuilt(env, fleet, entries, plan);
      r.Success? ==> Settled(r.value.0[plan.vehicle].schedule, fleet[plan.vehicle].serviceEndTime)
  {
    var r := VehicleRebuilt(env, fleet, entries, plan);
    if r.Success? {
      var v := plan.vehicle;
      var vehicle := fleet[v];
      var s := vehicle.schedule;
      var p0 := Plan(s.tasks, s.currentIdx);
      assert Chained(p0, s.currentIdx);
      var built := Rebuilt(env, vehicle.tracker, v, p0, entries, plan.stops);
      BuiltChained(env, vehicle.tracker, v, p0, entries, plan.stops, s.currentIdx);
      assert built.Success?;
      TailClosedChained(v, built.value.0, vehicle.serviceEndTime, s.currentIdx);
      var closed := TailClosed(v, built.value.0, vehicle.serviceEndTime);
      assert closed.Success?;
      var settled := s.(tasks := closed.value.tasks);
      assert r.value.0[v].schedule == settled;
      assert Settled(settled, vehicle.serviceEndTime);
    }
  }

  /** The body of pass 2 before the tail keeps a chained plan chained. */
  lemma BuiltChained(env: Env, tracker: DriveTracker, v: VehicleId, p: Plan, entries: Entries,
                     stops: seq<AssignedStop>, from: nat)
    requires p.Valid() && Chained(p, from) && DepartsOnTime(env.router)
    ensures var r := Rebuilt(env, tracker, v, p, entries, stops); r.Success? ==> Chained(r.value.0, from)
  {
    if |stops| > 0 {
      StopsPlannedChained(env, tracker, v, p, entries, stops, true, from);
    } else {
      var d := DrivingStopped(env, tracker, p);
      if p.Current().Drive? {
        ReplaceLastContiguous(p.tasks, from, d.Current());
        assert d.tasks == p.tasks[|p.tasks| - 1 := d.Current()];
      }
    }
  }

  lemma {:induction false} AllRebuiltSettled(env: Env, fleet: Fleet, entries: Entries, plans: seq<VehiclePlan>)
    requires FleetValid(fleet) && DepartsOnTime(env.router) && DistinctVehicles(plans)
    requires forall i :: 0 <= i < |plans| ==> plans[i].vehicle in fleet && EndsAtCurrent(fleet[plans[i].vehicle].schedule)
    ensures var r := AllRebuilt(env, fleet, entries, plans);
      r.Success? ==> forall i :: 0 <= i < |plans| ==>
        plans[i].vehicle in r.value.0 && Settled(r.value.0[plans[i].vehicle].schedule, fleet[plans[i].vehicle].serviceEndTime)
    decreases |plans|
  {
    if plans != [] {
      var v := plans[0].vehicle;
      var b := VehicleRebuilt(env, fleet, entries, plans[0]);
      RebuiltSettled(env, fleet, entries, plans[0]);
      if b.Success? {
        var tail := plans[1..];
        assert forall i :: 0 <= i < |tail| ==> tail[i] == plans[i + 1] && tail[i].vehicle != v;
        AllRebuiltSettled(env, b.value.0, b.value.1, tail);
        RebuiltOnlyNamed(env, b.value.0, b.value.1, tail);
        var r := AllRebuilt(env, b.value.0, b.value.1, tail);
        if r.Success? {
          assert !Named(tail, v);
          forall i | 0 <= i < |plans|
            ensures plans[i].vehicle in r.value.0 && Settled(r.value.0[plans[i].vehicle].schedule, fleet[plans[i].vehicle].serviceEndTime)
          {
            if i > 0 {
              assert plans[i] == tail[i - 1];
            }
          }
        }
      }
    }
  }

  /**
   * The headline property of reconciliation: with an assignment naming each vehicle once and a router
   * whose paths leave when asked, every named vehicle ends with a settled schedule.
   */
  lemma ReconciledSettled(env: Env, fleet: Fleet, entries: Entries, assignment: Assignment, now: real)
    requires FleetValid(fleet) && DepartsOnTime(env.router) && DistinctVehicles(assignment.stops)
    ensures var r := Reconciled(env, fleet, entries, assignment, now);
      r.Success? ==> forall i :: 0 <= i < |assignment.stops| ==>
        var v := assignment.stops[i].vehicle;
        v in r.value.0 && Settled(r.value.0[v].schedule, fleet[v].serviceEndTime)
  {
    var plans := assignment.stops;
    var c := AllCleared(fleet, entries, plans, now);
    AllClearedCutsBack(fleet, entries, plans, now);
    if c.Success? {
      AllRebuiltSettled(env, c.value.0, c.value.1, plans);
    }
  }

  // ---------------------------------------------------------------------------------------------
  // The ids of the request table

  /** Pass 1 releases slots of known requests only, so the table keeps its ids. */
  lemma {:induction false} AllClearedKeepsIds(fleet: Fleet, entries: Entries, plans: seq<VehiclePlan>, now: real)
    requires FleetValid(fleet)
    ensures var r := AllCleared(fleet, entries, plans, now); r.Success? ==> r.value.1.Keys == entries.Keys
    decreases |plans|
  {
    if plans != [] {
      var v := plans[0].vehicle;
      if v in fleet && fleet[v].schedule.status == Started {
        var s := fleet[v].schedule;
        BookkeepingReleasedSpec(entries, s.tasks[s.currentIdx..]);
      }
      var c := VehicleCleared(fleet, entries, v, now);
      if c.Success? {
        AllClearedKeepsIds(c.value.0, c.value.1, plans[1..], now);
      }
    }
  }

  lemma StopPlannedKeepsIds(env: Env, tracker: DriveTracker, v: VehicleId, p: Plan, entries: Entries,
                            stop: AssignedStop, first: bool)
    requires p.Valid()
    ensures var r := StopPlanned(env, tracker, v, p, entries, stop, first); r.Success? ==> r.value.1.Keys == entries.Keys
  {
    SlotsRegisteredSpec(entries, stop.pickup, PickupSlot, v);
    var e1 := SlotsRegistered(entries, stop.pickup, PickupSlot, v);
    if e1.Success? {
      SlotsRegisteredSpec(e1.value, stop.dropoff, DropoffSlot, v);
    }
  }

  lemma {:induction false} StopsPlannedKeepsIds(env: Env, tracker: DriveTracker, v: VehicleId, p: Plan, entries: Entries,
                                                stops: seq<AssignedStop>, first: bool)
    requires p.Valid()
    ensures var r := StopsPlanned(env, tracker, v, p, entries, stops, first); r.Success? ==> r.value.1.Keys == entries.Keys
    decreases |stops|
  {
    if stops != [] {
      StopPlannedKeepsIds(env, tracker, v, p, entries, stops[0], first);
      var s1 := StopPlanned(env, tracker, v, p, entries, stops[0], first);
      if s1.Success? {
        StopsPlannedKeepsIds(env, tracker, v, s1.value.0, s1.value.1, stops[1..], false);
      }
    }
  }

  /** Pass 2 registers slots of known requests only, so the table keeps its ids. */
  lemma {:induction false} AllRebuiltKeepsIds(env: Env, fleet: Fleet, entries: Entries, plans: seq<VehiclePlan>)
    requires FleetValid(fleet)
    ensures var r := AllRebuilt(env, fleet, entries, plans); r.Success? ==> r.value.1.Keys == entries.Keys
    decreases |plans|
  {
    if plans != [] {
      var v := plans[0].vehicle;
      if v in fleet && fleet[v].schedule.status == Started {
        var s := fleet[v].schedule;
        StopsPlannedKeepsIds(env, fleet[v].tracker, v, Plan(s.tasks, s.currentIdx), entries, plans[0].stops, true);
      }
      var b := VehicleRebuilt(env, fleet, entries, plans[0]);
      if b.Success? {
        AllRebuiltKeepsIds(env, b.value.0, b.value.1, plans[1..]);
      }
    }
  }

  /** Both passes leave the request table with the ids it had. */
  lemma ReconciledKeepsIds(env: Env, fleet: Fleet, entries: Entries, assignment: Assignment, now: real)
    requires FleetValid(fleet)
    ensures var r := Reconciled(env, fleet, entries, assignment, now); r.Success? ==> r.value.1.Keys == entries.Keys
  {
    AllClearedKeepsIds(fleet, entries, assignment.stops, now);
    var c := AllCleared(fleet, entries, assignment.stops, now);
    if c.Success? {
      AllRebuiltKeepsIds(env, c.value.0, c.value.1, assignment.stops);
    }
  }

  // ---------------------------------------------------------------------------------------------
  // The scheduled flags of the request table

  /** Pass 1 releases slots only, so every entry keeps its scheduled flag. */
  lemma {:induction false} AllClearedKeepsScheduled(fleet: Fleet, entries: Entries, plans: seq<VehiclePlan>, now: real)
    requires FleetValid(fleet)
    ensures var r := AllCleared(fleet, entries, plans, now);
      r.Success? ==> forall q :: q in entries ==> q in r.value.1 && r.value.1[q].scheduled == entries[q].scheduled
    decreases |plans|
  {
    if plans != [] {
      var v := plans[0].vehicle;
      if v in fleet && fleet[v].schedule.status == Started {
        var s := fleet[v].schedule;
        BookkeepingReleasedSpec(entries, s.tasks[s.currentIdx..]);
      }
      var c := VehicleCleared(fleet, entries, v, now);
      if c.Success? {
        AllClearedKeepsScheduled(c.value.0, c.value.1, plans[1..], now);
      }
    }
  }

  lemma StopPlannedKeepsScheduled(env: Env, tracker: DriveTracker, v: VehicleId, p: Plan, entries: Entries,
                                  stop: AssignedStop, first: bool)
    requires p.Valid()
    ensures var r := StopPlanned(env, tracker, v, p, entries, stop, first);
      r.Success? ==> forall q :: q in entries ==> q in r.value.1 && r.value.1[q].scheduled == entries[q].scheduled
  {
    SlotsRegisteredSpec(entries, stop.pickup, PickupSlot, v);
    var e1 := SlotsRegistered(entries, stop.pickup, PickupSlot, v);
    if e1.Success? {
      SlotsRegisteredSpec(e1.value, stop.dropoff, DropoffSlot, v);
    }
  }

  lemma {:induction false} StopsPlannedKeepsScheduled(env: Env, tracker: DriveTracker, v: VehicleId, p: Plan,
                                                      entries: Entries, stops: seq<AssignedStop>, first: bool)
    requires p.Valid()
    ensures var r := StopsPlanned(env, tracker, v, p, entries, stops, first);
      r.Success? ==> forall q :: q in entries ==> q in r.value.1 && r.value.1[q].scheduled == entries[q].scheduled
    decreases |stops|
  {
    if stops != [] {
      StopPlannedKeepsScheduled(env, tracker, v, p, entries, stops[0], first);
      var s1 := StopPlanned(env, tracker, v, p, entries, stops[0], first);
      if s1.Success? {
        StopsPlannedKeepsScheduled(env, tracker, v, s1.value.0, s1.value.1, stops[1..], false);
      }
    }
  }

  /** Pass 2 registers slots only, so every entry keeps its scheduled flag. */
  lemma {:induction false} AllRebuiltKeepsScheduled(env: Env, fleet: Fleet, entries: Entries, plans: seq<VehiclePlan>)
    requires FleetValid(fleet)
    ensures var r := AllRebuilt(env, fleet, entries, plans);
      r.Success? ==> forall q :: q in entries ==> q in r.value.1 && r.value.1[q].scheduled == entries[q].scheduled
    decreases |plans|
  {
    if plans != [] {
      var v := plans[0].vehicle;
      if v in fleet && fleet[v].schedule.status == Started {
        var s := fleet[v].schedule;
        StopsPlannedKeepsScheduled(env, fleet[v].tracker, v, Plan(s.tasks, s.currentIdx), entries, plans[0].stops, true);
      }
      var b := VehicleRebuilt(env, fleet, entries, plans[0]);
      if b.Success? {
        AllRebuiltKeepsScheduled(env, b.value.0, b.value.1, plans[1..]);
      }
    }
  }

  /**
   * Both passes keep every entry's scheduled flag: only validation raises it, so a request announced
   * at an earlier step stays marked.
   */
  lemma ReconciledKeepsScheduled(env: Env, fleet: Fleet, entries: Entries, assignment: Assignment, now: real)
    requires FleetValid(fleet)
    ensures var r := Reconciled(env, fleet, entries, assignment, now);
      r.Success? ==> forall q :: q in entries ==> q in r.value.1 && r.value.1[q].scheduled == entries[q].scheduled
  {
    AllClearedKeepsScheduled(fleet, entries, assignment.stops, now);
    var c := AllCleared(fleet, entries, assignment.stops, now);
    if c.Success? {
      AllRebuiltKeepsScheduled(env, c.value.0, c.value.1, assignment.stops);
    }
  }

  // ---------------------------------------------------------------------------------------------
  // Pass 2 bookkeeping and stop shapes

  /**
   * A stop that serves requests, once its link is known and the vehicle has moved, succeeds exactly
   * when every pickup slot and every dropoff slot it names is free (and named once); both are then
   * held by the vehicle, and no other entry changes.
   */
  lemma StopPlannedRegisters(env: Env, tracker: DriveTracker, v: VehicleId, p: Plan, entries: Entries,
                             stop: AssignedStop, first: bool)
    requires p.Valid()
    requires stop.link in env.network && Moved(env, tracker, p, stop, first).Success?
    requires |stop.pickup| > 0 || |stop.dropoff| > 0
    ensures var r := StopPlanned(env, tracker, v, p, entries, stop, first);
      && (r.Success? <==> Registrable(entries, stop.pickup, PickupSlot) && Registrable(entries, stop.dropoff, DropoffSlot))
      && (r.Success? ==> r.value.1.Keys == entries.Keys)
      && (r.Success? ==> forall q :: q in stop.pickup ==> r.value.1[q].pickupVehicle == Some(v))
      && (r.Success? ==> forall q :: q in stop.dropoff ==> r.value.1[q].dropoffVehicle == Some(v))
      && (r.Success? ==> forall q :: q in entries && q !in stop.pickup && q !in stop.dropoff ==> r.value.1[q] == entries[q])
  {
    SlotsRegisteredSpec(entries, stop.pickup, PickupSlot, v);
    var e1 := SlotsRegistered(entries, stop.pickup, PickupSlot, v);
    if e1.Success? {
      SlotsRegisteredSpec(e1.value, stop.dropoff, DropoffSlot, v);
      assert forall q :: q in entries ==> Holder(e1.value[q], DropoffSlot) == Holder(entries[q], DropoffSlot);
      assert Registrable(e1.value, stop.dropoff, DropoffSlot) <==> Registrable(entries, stop.dropoff, DropoffSlot);
    }
  }

  /**
   * A first stop that serves nobody and needs no wait leaves the diverted drive as the current task,
   * so a later stop at another link gets no drive leading to it: the drive here ends at link "b" and
   * the stop that follows it is at link "c".
   */
  lemma IdleStopSkipsDrive()
    ensures
      var env := Env({"a", "b", "c"}, (l: LinkId, t: real) => 1.0,
                     Router((x: LinkId, y: LinkId, t: real) => Path(t, 1.0, [y], [1.0]),
                            (d: DiversionPoint, l: LinkId) => Path(d.time, 1.0, [l], [1.0])));
      var tracker := DriveTracker("a", 0.0, 1.0, DiversionPoint("a", 1.0));
      var p := Plan([Drive(0.0, 5.0, Path(0.0, 5.0, ["a", "c"], [1.0, 4.0]))], 0);
      var stops := [AssignedStop("b", [], [], None, None, 0.0), AssignedStop("c", ["q"], ["q"], None, None, 30.0)];
      var r := StopsPlanned(env, tracker, "v", p, map["q" := Unassigned], stops, true);
      && r.Success?
      && r.value.0.tasks == [Drive(0.0, 2.0, Path(1.0, 1.0, ["b"], [1.0])), Stop("c", 2.0, 32.0, ["q"], ["q"])]
  {
    var env := Env({"a", "b", "c"}, (l: LinkId, t: real) => 1.0,
                   Router((x: LinkId, y: LinkId, t: real) => Path(t, 1.0, [y], [1.0]),
                          (d: DiversionPoint, l: LinkId) => Path(d.time, 1.0, [l], [1.0])));
    var tracker := DriveTracker("a", 0.0, 1.0, DiversionPoint("a", 1.0));
    var p := Plan([Drive(0.0, 5.0, Path(0.0, 5.0, ["a", "c"], [1.0, 4.0]))], 0);
    var s1 := AssignedStop("b", [], [], None, None, 0.0);
    var s2 := AssignedStop("c", ["q"], ["q"], None, None, 30.0);
    var entries := map["q" := Unassigned];
    var diverted := Plan([Drive(0.0, 2.0, Path(1.0, 1.0, ["b"], [1.0]))], 0);
    assert env.router.diversionPath(tracker.diversionPoint, "b") == Path(1.0, 1.0, ["b"], [1.0]);
    assert ApproachPath(env, None, "b", Path(1.0, 1.0, ["b"], [1.0]), 1.0) == Success(Path(1.0, 1.0, ["b"], [1.0]));
    assert Diverted(p.tasks[0], Path(1.0, 1.0, ["b"], [1.0])) == diverted.tasks[0];
    assert p.tasks[0 := diverted.tasks[0]] == diverted.tasks;
    assert Moved(env, tracker, p, s1, true) == Success(diverted);
    assert StopPlanned(env, tracker, "v", p, entries, s1, true) == Success((diverted, entries));
    assert ["q"][1..] == [];
    var e2 := map["q" := RequestEntry(Some("v"), Some("v"), false)];
    var e1 := map["q" := RequestEntry(Some("v"), None, false)];
    assert entries["q" := WithHolder(entries["q"], PickupSlot, Some("v"))] == e1;
    assert SlotsRegistered(e1, [], PickupSlot, "v") == Success(e1);
    assert SlotsRegistered(entries, ["q"], PickupSlot, "v") == Success(e1);
    assert e1["q" := WithHolder(e1["q"], DropoffSlot, Some("v"))] == e2;
    assert SlotsRegistered(e2, [], DropoffSlot, "v") == Success(e2);
    assert SlotsRegistered(e1, ["q"], DropoffSlot, "v") == Success(e2);
    var last := Plan(diverted.tasks + [Stop("c", 2.0, 32.0, ["q"], ["q"])], 1);
    assert StopPlanned(env, tracker, "v", diverted, entries, s2, false) == Success((last, e2));
    var stops := [s1, s2];
    assert stops[1..] == [s2] && stops[1..][1..] == [];
  }
}
