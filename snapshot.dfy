/**
 * The snapshot the bridge sends at each step: the roster when the run starts, then the state of every
 * vehicle, the requests submitted since the last step and the pickups and dropoffs seen meanwhile.
 */
module Snapshot {
  import opened Common
  import opened Messages
  import opened Schedules
  import opened Bookkeeping
  import opened Reconciler

  // ---------------------------------------------------------------------------------------------
  // The roster

  const IntMin: int := -0x8000_0000
  const IntMax: int := 0x7fff_ffff

  /** A cast of a double to a 32-bit int: it rounds toward zero and saturates at the int bounds. */
  function IntCast(x: real): (n: int)
    ensures IntMin <= n <= IntMax
    ensures x >= IntMax as real ==> n == IntMax
    ensures x <= IntMin as real ==> n == IntMin
    ensures 0.0 <= x < IntMax as real ==> n as real <= x < n as real + 1.0
    ensures IntMin as real < x < 0.0 ==> n as real - 1.0 < x <= n as real
  {
    if x >= IntMax as real then IntMax
    else if x <= IntMin as real then IntMin
    else if x >= 0.0 then x.Floor
    else -((-x).Floor)
  }

  /** A vehicle's roster record; its capacity is cast to an int. */
  function RosterEntry(v: Vehicle): RosterVehicle {
    RosterVehicle(v.id, v.startLink, IntCast(v.capacity))
  }

  /** The roster of the vehicles in `order`. */
  function Roster(fleet: Fleet, order: seq<VehicleId>): seq<RosterVehicle>
    requires forall i :: 0 <= i < |order| ==> order[i] in fleet
  {
    seq(|order|, i requires 0 <= i < |order| => RosterEntry(fleet[order[i]]))
  }

  /** The roster loop over the fleet, in the fleet's iteration order. */
  method BuildRoster(fleet: Fleet, order: seq<VehicleId>) returns (roster: seq<RosterVehicle>)
    requires forall i :: 0 <= i < |order| ==> order[i] in fleet
    ensures |roster| == |order|
    ensures forall i :: 0 <= i < |order| ==> roster[i] == RosterEntry(fleet[order[i]])
    ensures roster == Roster(fleet, order)
  {
    roster := [];
    var i := 0;
    while i < |order|
      invariant 0 <= i <= |order|
      invariant |roster| == i
      invariant forall j :: 0 <= j < i ==> roster[j] == RosterEntry(fleet[order[j]])
    {
      roster := roster + [RosterEntry(fleet[order[i]])];
      i := i + 1;
    }
  }

  // ---------------------------------------------------------------------------------------------
  // Vehicle states

  /**
   * The state record of one vehicle at `time`. A running vehicle reports its current task: a stay may
   * change plans now, a stop only once it ends, a drive at its diversion point. A vehicle whose schedule
   * is not running reports a stay without end at the link of its last task, which must be a stay or a
   * stop; its diversion fields keep their defaults.
   */
  function VehicleSnapshot(v: Vehicle, time: real): (r: Result<VehicleState>)
    requires v.schedule.Valid()
    ensures r.Success? ==> r.value.id == v.id
    ensures v.schedule.status == Started ==> r.Success?
    ensures v.schedule.status != Started ==>
              (r.Success? <==> |v.schedule.tasks| > 0 && v.schedule.tasks[|v.schedule.tasks| - 1].AtLink())
    ensures r.Success? && v.schedule.status == Started ==>
              var c := v.schedule.tasks[v.schedule.currentIdx];
              && r.value.currentExitTime.At? && r.value.divergeLink.Some? && r.value.divergeTime.At?
              && (r.value.activity == Driving <==> c.Drive?)
              && (c.AtLink() ==> r.value.currentLink == c.link && r.value.divergeLink == Some(c.link)
                                 && r.value.currentExitTime == At(c.endTime))
              && (c.Stay? ==> r.value.divergeTime == At(time))
              && (c.Stop? ==> r.value.divergeTime == r.value.currentExitTime)
              && (c.Drive? ==>
                    && r.value.currentLink == v.tracker.currentLink
                    && r.value.currentExitTime == At(v.tracker.currentLinkEnterTime + v.tracker.currentLinkTravelTime)
                    && r.value.divergeLink == Some(v.tracker.diversionPoint.link)
                    && r.value.divergeTime == At(v.tracker.diversionPoint.time))
    ensures r.Success? && v.schedule.status != Started ==>
              && r.value.activity == Staying
              && r.value.currentLink == v.schedule.tasks[|v.schedule.tasks| - 1].link
              && r.value.currentExitTime == PosInf && r.value.divergeLink == None && r.value.divergeTime == NegInf
    ensures r.Failure? ==> r.error == (if |v.schedule.tasks| == 0 then EmptySchedule(v.id) else LastTaskNotStay(v.id))
  {
    var s := v.schedule;
    if s.status == Started then
      match s.tasks[s.currentIdx]
      case Stay(link, _, end) =>
        Success(VehicleState(v.id, link, At(end), Some(link), At(time), Staying))
      case Stop(link, _, end, _, _) =>
        Success(VehicleState(v.id, link, At(end), Some(link), At(end), Stopping))
      case Drive(_, _, _) =>
        var t := v.tracker;
        Success(VehicleState(v.id, t.currentLink, At(t.currentLinkEnterTime + t.currentLinkTravelTime),
                             Some(t.diversionPoint.link), At(t.diversionPoint.time), Driving))
    else if |s.tasks| == 0 then Failure(EmptySchedule(v.id))
    else
      var last := s.tasks[|s.tasks| - 1];
      if last.AtLink() then Success(VehicleState(v.id, last.link, PosInf, None, NegInf, Staying))
      else Failure(LastTaskNotStay(v.id))
  }

  /** The state records of the vehicles in `order`; the first vehicle that cannot report is fatal. */
  function VehicleStates(fleet: Fleet, order: seq<VehicleId>, time: real): (r: Result<seq<VehicleState>>)
    requires FleetValid(fleet)
    requires forall i :: 0 <= i < |order| ==> order[i] in fleet
    ensures r.Success? <==> forall i :: 0 <= i < |order| ==> VehicleSnapshot(fleet[order[i]], time).Success?
    ensures r.Success? ==> |r.value| == |order|
    ensures r.Success? ==> forall i :: 0 <= i < |order| ==> r.value[i] == VehicleSnapshot(fleet[order[i]], time).value
    decreases |order|
  {
    if order == [] then Success([])
    else
      var first :- VehicleSnapshot(fleet[order[0]], time);
      var rest :- VehicleStates(fleet, order[1..], time);
      Success([first] + rest)
  }

  /** The vehicle loop of the snapshot. */
  method BuildVehicleStates(fleet: Fleet, order: seq<VehicleId>, time: real) returns (r: Result<seq<VehicleState>>)
    requires FleetValid(fleet)
    requires forall i :: 0 <= i < |order| ==> order[i] in fleet
    ensures r == VehicleStates(fleet, order, time)
  {
    var states: seq<VehicleState> := [];
    var i := 0;
    while i < |order|
      invariant 0 <= i <= |order|
      invariant |states| == i
      invariant forall j :: 0 <= j < i ==> VehicleSnapshot(fleet[order[j]], time).Success?
      invariant forall j :: 0 <= j < i ==> states[j] == VehicleSnapshot(fleet[order[j]], time).value
    {
      var state := VehicleSnapshot(fleet[order[i]], time);
      if state.Failure? {
        r := Failure(state.error);
        assert r == VehicleStates(fleet, order, time) by { FirstFailure(fleet, order, time, i); }
        return;
      }
      states := states + [state.value];
      i := i + 1;
    }
    r := Success(states);
    assert r.value == VehicleStates(fleet, order, time).value;
  }

  /** When the earlier vehicles report and vehicle `i` cannot, its failure is the result. */
  lemma {:induction false} FirstFailure(fleet: Fleet, order: seq<VehicleId>, time: real, i: nat)
    requires FleetValid(fleet)
    requires forall j :: 0 <= j < |order| ==> order[j] in fleet
    requires i < |order| && VehicleSnapshot(fleet[order[i]], time).Failure?
    requires forall j :: 0 <= j < i ==> VehicleSnapshot(fleet[order[j]], time).Success?
    ensures VehicleStates(fleet, order, time) == Failure(VehicleSnapshot(fleet[order[i]], time).error)
    decreases i
  {
    if i > 0 {
      FirstFailure(fleet, order[1..], time, i - 1);
    }
  }

  // ---------------------------------------------------------------------------------------------
  // Submitted requests

  /** The record of a submitted request; every request is for one passenger seat. */
  function RequestRecord(q: DrtRequest): RequestState {
    RequestState(q.id, q.fromLink, q.toLink, q.earliestStartTime, q.latestStartTime, q.latestArrivalTime, 1)
  }

  /** The ids of a list of requests. */
  function Ids(pending: seq<DrtRequest>): set<RequestId> {
    set i | 0 <= i < |pending| :: pending[i].id
  }

  /** The records of a list of requests. */
  function Records(pending: seq<DrtRequest>): seq<RequestState> {
    seq(|pending|, i requires 0 <= i < |pending| => RequestRecord(pending[i]))
  }

  /** Accepting the submitted requests in order: each is stored and gets a fresh entry. */
  function Admitted(requests: map<RequestId, DrtRequest>, entries: Entries, pending: seq<DrtRequest>)
    : (map<RequestId, DrtRequest>, Entries)
    decreases |pending|
  {
    if pending == [] then (requests, entries)
    else Admitted(requests[pending[0].id := pending[0]], entries[pending[0].id := Unassigned], pending[1..])
  }

  /**
   * After accepting, the tables hold the old requests and every pending one. A pending id gets a fresh
   * entry, even one it had before, and the request of the last submission with that id; the rest is
   * unchanged.
   */
  lemma {:induction false} AdmittedSpec(requests: map<RequestId, DrtRequest>, entries: Entries, pending: seq<DrtRequest>)
    ensures var (rs, es) := Admitted(requests, entries, pending);
      && rs.Keys == requests.Keys + Ids(pending)
      && es.Keys == entries.Keys + Ids(pending)
      && (forall i :: 0 <= i < |pending| ==> es[pending[i].id] == Unassigned && rs[pending[i].id].id == pending[i].id)
      && (forall q :: q in requests && (forall i :: 0 <= i < |pending| ==> pending[i].id != q) ==> rs[q] == requests[q])
      && (forall q :: q in entries && (forall i :: 0 <= i < |pending| ==> pending[i].id != q) ==> es[q] == entries[q])
  {
    AdmittedRequests(requests, entries, pending);
    AdmittedEntries(requests, entries, pending);
  }

  /** Accepting keeps the two tables keyed by the same ids. */
  lemma AdmittedKeepsIdsPaired(requests: map<RequestId, DrtRequest>, entries: Entries, pending: seq<DrtRequest>)
    requires requests.Keys == entries.Keys
    ensures var (rs, es) := Admitted(requests, entries, pending); rs.Keys == es.Keys
  {
    AdmittedSpec(requests, entries, pending);
  }

  lemma IdsFront(pending: seq<DrtRequest>)
    requires pending != []
    ensures Ids(pending) == {pending[0].id} + Ids(pending[1..])
  {
    var tail := pending[1..];
    forall x | x in Ids(pending) ensures x in {pending[0].id} + Ids(tail) {
      var i :| 0 <= i < |pending| && pending[i].id == x;
      if i > 0 { assert tail[i - 1].id == x; }
    }
  }

  /** The request table of `AdmittedSpec`. */
  lemma {:induction false} AdmittedRequests(requests: map<RequestId, DrtRequest>, entries: Entries, pending: seq<DrtRequest>)
    ensures var rs := Admitted(requests, entries, pending).0;
      && rs.Keys == requests.Keys + Ids(pending)
      && (forall i :: 0 <= i < |pending| ==> rs[pending[i].id].id == pending[i].id)
      && (forall q :: q in requests && (forall i :: 0 <= i < |pending| ==> pending[i].id != q) ==> rs[q] == requests[q])
    decreases |pending|
  {
    if pending != [] {
      var p := pending[0];
      var tail := pending[1..];
      AdmittedRequests(requests[p.id := p], entries[p.id := Unassigned], tail);
      assert forall i :: 1 <= i < |pending| ==> pending[i] == tail[i - 1];
      IdsFront(pending);
    }
  }

  /** The entry table of `AdmittedSpec`. */
  lemma {:induction false} AdmittedEntries(requests: map<RequestId, DrtRequest>, entries: Entries, pending: seq<DrtRequest>)
    ensures var es := Admitted(requests, entries, pending).1;
      && es.Keys == entries.Keys + Ids(pending)
      && (forall i :: 0 <= i < |pending| ==> es[pending[i].id] == Unassigned)
      && (forall q :: q in entries && (forall i :: 0 <= i < |pending| ==> pending[i].id != q) ==> es[q] == entries[q])
    decreases |pending|
  {
    if pending != [] {
      var p := pending[0];
      var tail := pending[1..];
      AdmittedEntries(requests[p.id := p], entries[p.id := Unassigned], tail);
      assert forall i :: 1 <= i < |pending| ==> pending[i] == tail[i - 1];
      IdsFront(pending);
    }
  }

  /** The loop over the submitted requests: their records, and both tables updated. */
  method DrainSubmitted(requests: map<RequestId, DrtRequest>, entries: Entries, pending: seq<DrtRequest>)
    returns (records: seq<RequestState>, requests': map<RequestId, DrtRequest>, entries': Entries)
    ensures |records| == |pending|
    ensures forall i :: 0 <= i < |pending| ==> records[i] == RequestRecord(pending[i])
    ensures records == Records(pending)
    ensures (requests', entries') == Admitted(requests, entries, pending)
  {
    records := [];
    requests', entries' := requests, entries;
    var i := 0;
    while i < |pending|
      invariant 0 <= i <= |pending|
      invariant |records| == i
      invariant forall j :: 0 <= j < i ==> records[j] == RequestRecord(pending[j])
      invariant Admitted(requests', entries', pending[i..]) == Admitted(requests, entries, pending)
    {
      assert pending[i..][0] == pending[i] && pending[i..][1..] == pending[i + 1..];
      records := records + [RequestRecord(pending[i])];
      requests' := requests'[pending[i].id := pending[i]];
      entries' := entries'[pending[i].id := Unassigned];
      i := i + 1;
    }
  }

  /**
   * The snapshot of a step: the vehicle records, the requests submitted since the last step and the
   * pickups and dropoffs seen meanwhile. It fails when a vehicle cannot report.
   */
  function StepState(fleet: Fleet, order: seq<VehicleId>, time: real, pending: seq<DrtRequest>,
                     pickedUp: map<RequestId, VehicleId>, droppedOff: map<RequestId, VehicleId>): Result<State>
    requires FleetValid(fleet)
    requires forall i :: 0 <= i < |order| ==> order[i] in fleet
  {
    var vehicles :- VehicleStates(fleet, order, time);
    Success(State(time, pickedUp, droppedOff, vehicles, Records(pending)))
  }

  /** The loop that copies a map of events seen since the last step into the snapshot. */
  method CopyEvents(seen: map<RequestId, VehicleId>) returns (copy: map<RequestId, VehicleId>)
    ensures copy == seen
  {
    copy := map[];
    var rest := seen.Keys;
    while rest != {}
      invariant rest <= seen.Keys
      invariant copy.Keys == seen.Keys - rest
      invariant forall q :: q in copy ==> copy[q] == seen[q]
      decreases rest
    {
      var q :| q in rest;
      copy := copy[q := seen[q]];
      rest := rest - {q};
    }
  }
}
