/**
 * The last step of reconciliation: every request entry must be paired, and every request newly
 * assigned is announced once as scheduled, with the times its stops give it.
 */
module Validation {
  import opened Common
  import opened Schedules
  import opened Bookkeeping
  import opened Reconciler

  /** The confirmation sent to the simulation's event stream when a request is first scheduled. */
  datatype ScheduledEvent = ScheduledEvent(
    time: real,
    request: RequestId,
    passengers: seq<PersonId>,
    vehicle: VehicleId,
    pickupTime: real,
    dropoffTime: real)

  /**
   * Scanning tasks front to back: every stop picking up `q` sets the pickup time to its end, every stop
   * dropping `q` off sets the dropoff time to its begin.
   */
  function StopTimes(tasks: seq<Task>, q: RequestId, pickupTime: real, dropoffTime: real): (real, real)
    decreases |tasks|
  {
    if tasks == [] then (pickupTime, dropoffTime)
    else
      var t := tasks[0];
      StopTimes(tasks[1..], q,
                if PicksUp(t, q) then t.endTime else pickupTime,
                if DropsOff(t, q) then t.beginTime else dropoffTime)
  }

  /** Where no stop picks `q` up, the scan keeps the initial pickup time. */
  lemma {:induction false} PickupTimeKept(tasks: seq<Task>, q: RequestId, pickupTime: real, dropoffTime: real)
    requires forall k :: 0 <= k < |tasks| ==> !PicksUp(tasks[k], q)
    ensures StopTimes(tasks, q, pickupTime, dropoffTime).0 == pickupTime
    decreases |tasks|
  {
    if tasks != [] {
      var t := tasks[0];
      assert !PicksUp(t, q);
      assert forall k :: 0 <= k < |tasks[1..]| ==> tasks[1..][k] == tasks[k + 1];
      PickupTimeKept(tasks[1..], q, pickupTime, if DropsOff(t, q) then t.beginTime else dropoffTime);
    }
  }

  /** Where no stop drops `q` off, the scan keeps the initial dropoff time. */
  lemma {:induction false} DropoffTimeKept(tasks: seq<Task>, q: RequestId, pickupTime: real, dropoffTime: real)
    requires forall k :: 0 <= k < |tasks| ==> !DropsOff(tasks[k], q)
    ensures StopTimes(tasks, q, pickupTime, dropoffTime).1 == dropoffTime
    decreases |tasks|
  {
    if tasks != [] {
      var t := tasks[0];
      assert !DropsOff(t, q);
      assert forall k :: 0 <= k < |tasks[1..]| ==> tasks[1..][k] == tasks[k + 1];
      DropoffTimeKept(tasks[1..], q, if PicksUp(t, q) then t.endTime else pickupTime, dropoffTime);
    }
  }

  /** The pickup time is the end of the last stop that picks `q` up. */
  lemma {:induction false} PickupTimeLast(tasks: seq<Task>, q: RequestId, pickupTime: real, dropoffTime: real, k: nat)
    requires k < |tasks| && PicksUp(tasks[k], q)
    requires forall j :: k < j < |tasks| ==> !PicksUp(tasks[j], q)
    ensures StopTimes(tasks, q, pickupTime, dropoffTime).0 == tasks[k].endTime
    decreases |tasks|
  {
    var t := tasks[0];
    var pt := if PicksUp(t, q) then t.endTime else pickupTime;
    var dt := if DropsOff(t, q) then t.beginTime else dropoffTime;
    var rest := tasks[1..];
    assert forall j :: 0 <= j < |rest| ==> rest[j] == tasks[j + 1];
    if k == 0 {
      PickupTimeKept(rest, q, pt, dt);
    } else {
      PickupTimeLast(rest, q, pt, dt, k - 1);
    }
  }

  /** The dropoff time is the begin of the last stop that drops `q` off. */
  lemma {:induction false} DropoffTimeLast(tasks: seq<Task>, q: RequestId, pickupTime: real, dropoffTime: real, k: nat)
    requires k < |tasks| && DropsOff(tasks[k], q)
    requires forall j :: k < j < |tasks| ==> !DropsOff(tasks[j], q)
    ensures StopTimes(tasks, q, pickupTime, dropoffTime).1 == tasks[k].beginTime
    decreases |tasks|
  {
    var t := tasks[0];
    var pt := if PicksUp(t, q) then t.endTime else pickupTime;
    var dt := if DropsOff(t, q) then t.beginTime else dropoffTime;
    var rest := tasks[1..];
    assert forall j :: 0 <= j < |rest| ==> rest[j] == tasks[j + 1];
    if k == 0 {
      DropoffTimeKept(rest, q, pt, dt);
    } else {
      DropoffTimeLast(rest, q, pt, dt, k - 1);
    }
  }

  /** The loop over the tasks from the current one on that finds a request's pickup and dropoff times. */
  method ScheduledTimes(tasks: seq<Task>, from: nat, q: RequestId) returns (pickupTime: real, dropoffTime: real)
    requires from <= |tasks|
    ensures (pickupTime, dropoffTime) == StopTimes(tasks[from..], q, 0.0, 0.0)
  {
    pickupTime, dropoffTime := 0.0, 0.0;
    var i := from;
    while i < |tasks|
      invariant from <= i <= |tasks|
      invariant StopTimes(tasks[i..], q, pickupTime, dropoffTime) == StopTimes(tasks[from..], q, 0.0, 0.0)
    {
      assert tasks[i..][0] == tasks[i] && tasks[i..][1..] == tasks[i + 1..];
      var task := tasks[i];
      if task.Stop? {
        if q in task.pickups {
          pickupTime := task.endTime;
        }
        if q in task.dropoffs {
          dropoffTime := task.beginTime;
        }
      }
      i := i + 1;
    }
  }

  /**
   * The announcement for request `q`, assigned to vehicle `v`: the times come from the vehicle's
   * tasks from its current one on. Looking up a missing vehicle or request is a null dereference.
   */
  function EventFor(fleet: Fleet, requests: map<RequestId, DrtRequest>, q: RequestId, v: VehicleId, now: real): Result<ScheduledEvent>
    requires FleetValid(fleet)
  {
    if v !in fleet then Failure(UnknownVehicle(v))
    else
      var s := fleet[v].schedule;
      if s.status != Started then Failure(ScheduleNotStarted(v))
      else if q !in requests then Failure(UnknownRequest(q))
      else
        var times := StopTimes(s.tasks[s.currentIdx..], q, 0.0, 0.0);
        Success(ScheduledEvent(now, q, requests[q].passengerIds, v, times.0, times.1))
  }

  method Announce(fleet: Fleet, requests: map<RequestId, DrtRequest>, q: RequestId, v: VehicleId, now: real)
    returns (r: Result<ScheduledEvent>)
    requires FleetValid(fleet)
    ensures r == EventFor(fleet, requests, q, v, now)
  {
    if v !in fleet {
      return Failure(UnknownVehicle(v));
    }
    var s := fleet[v].schedule;
    if s.status != Started {
      return Failure(ScheduleNotStarted(v));
    }
    if q !in requests {
      return Failure(UnknownRequest(q));
    }
    var pickupTime, dropoffTime := ScheduledTimes(s.tasks, s.currentIdx, q);
    return Success(ScheduledEvent(now, q, requests[q].passengerIds, v, pickupTime, dropoffTime));
  }

  /** Whether validation passes: every entry is paired and every announcement can be built. */
  predicate Validates(fleet: Fleet, requests: map<RequestId, DrtRequest>, entries: Entries, now: real)
    requires FleetValid(fleet)
  {
    && (forall q :: q in entries ==> Paired(entries[q]))
    && (forall q :: q in NewlyScheduled(entries) ==> EventFor(fleet, requests, q, entries[q].pickupVehicle.value, now).Success?)
  }

  /** The table part-way through validation: the requests already visited are marked. */
  function MarkedOutside(entries: Entries, rest: set<RequestId>): Entries {
    map q | q in entries :: if q !in rest && q in NewlyScheduled(entries) then entries[q].(scheduled := true) else entries[q]
  }

  lemma MarkedStep(entries: Entries, rest: set<RequestId>, q: RequestId)
    requires q in rest && q in entries
    ensures MarkedOutside(entries, rest)[q] == entries[q]
    ensures q in NewlyScheduled(entries) ==>
              MarkedOutside(entries, rest)[q := entries[q].(scheduled := true)] == MarkedOutside(entries, rest - {q})
    ensures q !in NewlyScheduled(entries) ==> MarkedOutside(entries, rest) == MarkedOutside(entries, rest - {q})
  {
  }

  /** The announcements made so far: one for each visited newly scheduled request. */
  predicate AnnouncedOutside(events: seq<ScheduledEvent>, fleet: Fleet, requests: map<RequestId, DrtRequest>, entries: Entries,
                             now: real, rest: set<RequestId>)
    requires FleetValid(fleet)
  {
    && (forall i :: 0 <= i < |events| ==>
          && events[i].request in NewlyScheduled(entries) && events[i].request !in rest
          && EventFor(fleet, requests, events[i].request, entries[events[i].request].pickupVehicle.value, now) == Success(events[i]))
    && (forall q :: q in NewlyScheduled(entries) && q !in rest ==> exists i :: 0 <= i < |events| && events[i].request == q)
    && (forall i, j :: 0 <= i < j < |events| ==> events[i].request != events[j].request)
  }

  lemma AnnouncedStep(events: seq<ScheduledEvent>, fleet: Fleet, requests: map<RequestId, DrtRequest>, entries: Entries,
                      now: real, rest: set<RequestId>, q: RequestId, event: ScheduledEvent)
    requires FleetValid(fleet)
    requires AnnouncedOutside(events, fleet, requests, entries, now, rest)
    requires q in rest && q in NewlyScheduled(entries)
    requires EventFor(fleet, requests, q, entries[q].pickupVehicle.value, now) == Success(event)
    ensures AnnouncedOutside(events + [event], fleet, requests, entries, now, rest - {q})
  {
    var evs := events + [event];
    assert event.request == q;
    forall r | r in NewlyScheduled(entries) && r !in rest - {q}
      ensures exists i :: 0 <= i < |evs| && evs[i].request == r
    {
      if r == q {
        assert evs[|events|].request == r;
      } else {
        var i :| 0 <= i < |events| && events[i].request == r;
        assert evs[i].request == r;
      }
    }
  }

  /** `events` holds exactly one announcement per newly scheduled request, in some order. */
  predicate Announces(events: seq<ScheduledEvent>, fleet: Fleet, requests: map<RequestId, DrtRequest>, entries: Entries, now: real)
    requires FleetValid(fleet)
  {
    AnnouncedOutside(events, fleet, requests, entries, now, {})
  }

  /**
   * Every entry marked scheduled in `before` is still marked in `after`, and none of `events` names
   * it: a request is announced at most once over a run.
   */
  predicate MarksKept(before: Entries, after: Entries, events: seq<ScheduledEvent>) {
    forall q :: q in before && before[q].scheduled ==>
      && q in after && after[q].scheduled
      && forall i :: 0 <= i < |events| ==> events[i].request != q
  }

  /** A request already marked scheduled is not newly scheduled, so no announcement names it. */
  lemma AnnouncesNoMarked(events: seq<ScheduledEvent>, fleet: Fleet, requests: map<RequestId, DrtRequest>,
                          entries: Entries, now: real, q: RequestId)
    requires FleetValid(fleet)
    requires Announces(events, fleet, requests, entries, now)
    requires q in entries && entries[q].scheduled
    ensures forall i :: 0 <= i < |events| ==> events[i].request != q
  {
    assert q !in NewlyScheduled(entries);
  }

  lemma AnnouncedSkip(events: seq<ScheduledEvent>, fleet: Fleet, requests: map<RequestId, DrtRequest>, entries: Entries,
                      now: real, rest: set<RequestId>, q: RequestId)
    requires FleetValid(fleet)
    requires AnnouncedOutside(events, fleet, requests, entries, now, rest)
    requires q in rest && q !in NewlyScheduled(entries)
    ensures AnnouncedOutside(events, fleet, requests, entries, now, rest - {q})
  {
  }

  /**
   * The loop over the request table: a half-assigned or split request is fatal; a newly assigned one
   * is marked scheduled and announced.
   */
  method Validate(fleet: Fleet, requests: map<RequestId, DrtRequest>, entries: Entries, now: real)
    returns (r: Result<(Entries, seq<ScheduledEvent>)>)
    requires FleetValid(fleet)
    ensures r.Success? <==> Validates(fleet, requests, entries, now)
    ensures r.Success? ==> r.value.0 == MarkScheduled(entries)
    ensures r.Success? ==> Announces(r.value.1, fleet, requests, entries, now)
  {
    var table := entries;
    var events: seq<ScheduledEvent> := [];
    var rest := entries.Keys;
    while rest != {}
      invariant rest <= entries.Keys
      invariant forall q :: q in entries && q !in rest ==> Paired(entries[q])
      invariant forall q :: q in NewlyScheduled(entries) && q !in rest ==>
                  EventFor(fleet, requests, q, entries[q].pickupVehicle.value, now).Success?
      invariant table == MarkedOutside(entries, rest)
      invariant AnnouncedOutside(events, fleet, requests, entries, now, rest)
      decreases rest
    {
      var q :| q in rest;
      MarkedStep(entries, rest, q);
      var e := table[q];
      if !Paired(e) {
        return Failure(PairingViolation(q, e));
      }
      if e.pickupVehicle.Some? && !e.scheduled {
        table := table[q := e.(scheduled := true)];
        var event := Announce(fleet, requests, q, e.pickupVehicle.value, now);
        if event.Failure? {
          return Failure(event.error);
        }
        AnnouncedStep(events, fleet, requests, entries, now, rest, q, event.value);
        events := events + [event.value];
      } else {
        AnnouncedSkip(events, fleet, requests, entries, now, rest, q);
      }
      rest := rest - {q};
    }
    assert MarkedOutside(entries, {}) == MarkScheduled(entries);
    r := Success((table, events));
  }
}
