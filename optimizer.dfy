/**
 * The optimizer the simulation calls: it collects submissions and passenger events between steps,
 * reports them to the dispatcher at each step, and applies the assignment that comes back.
 */
module Optimizer {
  import opened Common
  import opened Messages
  import opened Schedules
  import opened Bookkeeping
  import opened Reconciler
  import opened ReconcilerFacts
  import opened Validation
  import opened Snapshot
  import opened TravelTimes
  import opened Communication

  class FleetPyOptimizer {
    const env: Env
    const comm: CommunicationManager
    /** The order in which the fleet's vehicles are iterated. */
    const order: seq<VehicleId>

    var fleet: Fleet
    var initialized: bool
    var isFirstStep: bool
    /** Requests submitted since the last snapshot, in submission order. */
    var submitted: seq<DrtRequest>
    var requests: map<RequestId, DrtRequest>
    var requestEntries: Entries
    var pickedUp: map<RequestId, VehicleId>
    var droppedOff: map<RequestId, VehicleId>
    /** Every request-scheduled event handed to the simulation's event stream so far. */
    var emitted: seq<ScheduledEvent>

    /** The schedules are well formed and `order` lists exactly the fleet's vehicles. */
    predicate Valid()
      reads this
    {
      && FleetValid(fleet)
      && (forall i :: 0 <= i < |order| ==> order[i] in fleet)
      && (forall v :: v in fleet ==> v in order)
      && requests.Keys == requestEntries.Keys
    }

    constructor (env: Env, comm: CommunicationManager, fleet: Fleet, order: seq<VehicleId>)
      requires FleetValid(fleet)
      requires (forall i :: 0 <= i < |order| ==> order[i] in fleet) && (forall v :: v in fleet ==> v in order)
      ensures Valid()
      ensures this.env == env && this.comm == comm && this.order == order && this.fleet == fleet
      ensures !initialized && isFirstStep
      ensures submitted == [] && requests == map[] && requestEntries == map[]
      ensures pickedUp == map[] && droppedOff == map[] && emitted == []
    {
      this.env := env;
      this.comm := comm;
      this.order := order;
      this.fleet := fleet;
      initialized := false;
      isFirstStep := true;
      submitted := [];
      requests := map[];
      requestEntries := map[];
      pickedUp := map[];
      droppedOff := map[];
      emitted := [];
    }

    /** A submission is queued until the next snapshot. */
    method RequestSubmitted(q: DrtRequest)
      modifies this
      ensures submitted == old(submitted) + [q]
      ensures fleet == old(fleet) && initialized == old(initialized) && isFirstStep == old(isFirstStep)
      ensures requests == old(requests) && requestEntries == old(requestEntries)
      ensures pickedUp == old(pickedUp) && droppedOff == old(droppedOff) && emitted == old(emitted)
    {
      submitted := submitted + [q];
    }

    /** A pickup is remembered, by request, until the next snapshot. */
    method HandlePickedUp(q: RequestId, v: VehicleId)
      modifies this
      ensures pickedUp == old(pickedUp)[q := v]
      ensures fleet == old(fleet) && initialized == old(initialized) && isFirstStep == old(isFirstStep)
      ensures submitted == old(submitted) && requests == old(requests) && requestEntries == old(requestEntries)
      ensures droppedOff == old(droppedOff) && emitted == old(emitted)
    {
      pickedUp := pickedUp[q := v];
    }

    /** A dropoff is remembered until the next snapshot, and the request is forgotten. */
    method HandleDroppedOff(q: RequestId, v: VehicleId)
      modifies this
      ensures droppedOff == old(droppedOff)[q := v]
      ensures requests == old(requests) - {q} && requestEntries == old(requestEntries) - {q}
      ensures fleet == old(fleet) && initialized == old(initialized) && isFirstStep == old(isFirstStep)
      ensures submitted == old(submitted) && pickedUp == old(pickedUp) && emitted == old(emitted)
    {
      droppedOff := droppedOff[q := v];
      requests := requests - {q};
      requestEntries := requestEntries - {q};
    }

    /**
     * The exchange of a step. The first call starts the iteration with the roster. Later calls send
     * the snapshot, after which the submissions are accepted and the event maps emptied; a vehicle
     * that cannot report is fatal before anything changes.
     */
    method Update(time: real) returns (r: Result<Assignment>)
      requires Valid()
      modifies this, comm
      ensures Valid() && initialized
      ensures fleet == old(fleet) && isFirstStep == old(isFirstStep) && emitted == old(emitted)
      ensures comm.iteration == old(comm.iteration)
      ensures r.Success? ==> |comm.trace| > 0 && comm.trace[|comm.trace| - 1] == Received(AssignmentMessage(r.value))
      // the first call
      ensures !old(initialized) ==>
                && submitted == old(submitted) && requests == old(requests) && requestEntries == old(requestEntries)
                && pickedUp == old(pickedUp) && droppedOff == old(droppedOff)
      ensures !old(initialized) && old(comm.initialized) ==>
                var o := Exchange(comm.travelTimes.network, comm.travelTimes.travelTime, old(comm.inbox), 0.0);
                && comm.trace == old(comm.trace) + [Sent(Iteration(old(comm.iteration), Roster(fleet, order)))] + o.ops
                && comm.inbox == o.rest && (r.Success? <==> o.result.Success?) && (r.Success? ==> r == o.result)
      ensures !old(initialized) && !old(comm.initialized) && old(comm.inbox) != [] && old(comm.inbox)[0] == Initialization ==>
                var o := Exchange(comm.travelTimes.network, comm.travelTimes.travelTime, old(comm.inbox)[1..], 0.0);
                && comm.trace == old(comm.trace) + [Received(Initialization), Sent(Iteration(old(comm.iteration), Roster(fleet, order)))] + o.ops
                && comm.inbox == o.rest && (r.Success? <==> o.result.Success?) && (r.Success? ==> r == o.result)
      ensures !old(initialized) && !old(comm.initialized) && (old(comm.inbox) == [] || old(comm.inbox)[0] != Initialization) ==>
                r.Failure? && !comm.initialized
      ensures !old(initialized) && old(comm.Fresh() || comm.Ready()) && r.Success? ==> comm.Ready()
      // later calls
      ensures old(initialized) ==>
                var s := StepState(old(fleet), order, time, old(submitted), old(pickedUp), old(droppedOff));
                s.Failure? ==>
                  && r == Failure(s.error)
                  && submitted == old(submitted) && requests == old(requests) && requestEntries == old(requestEntries)
                  && pickedUp == old(pickedUp) && droppedOff == old(droppedOff)
                  && comm.trace == old(comm.trace) && comm.inbox == old(comm.inbox) && comm.initialized == old(comm.initialized)
      ensures old(initialized) ==>
                var s := StepState(old(fleet), order, time, old(submitted), old(pickedUp), old(droppedOff));
                var o := Exchange(comm.travelTimes.network, comm.travelTimes.travelTime, old(comm.inbox), time);
                s.Success? ==>
                  && submitted == [] && pickedUp == map[] && droppedOff == map[]
                  && (requests, requestEntries) == Admitted(old(requests), old(requestEntries), old(submitted))
                  && comm.trace == old(comm.trace) + [Sent(StateMessage(s.value))] + o.ops
                  && comm.inbox == o.rest && (r.Success? <==> o.result.Success?) && (r.Success? ==> r == o.result)
                  && comm.initialized == old(comm.initialized)
                  && (old(comm.Ready()) && r.Success? ==> comm.Ready())
    {
      if !initialized {
        r := FirstUpdate();
      } else {
        r := LaterUpdate(time);
      }
    }

    /** The first exchange: the iteration starts with the roster of the fleet. */
    method FirstUpdate() returns (r: Result<Assignment>)
      requires Valid() && !initialized
      modifies this, comm
      ensures Valid() && initialized
      ensures fleet == old(fleet) && isFirstStep == old(isFirstStep) && emitted == old(emitted)
      ensures submitted == old(submitted) && requests == old(requests) && requestEntries == old(requestEntries)
      ensures pickedUp == old(pickedUp) && droppedOff == old(droppedOff)
      ensures comm.iteration == old(comm.iteration)
      ensures r.Success? ==> |comm.trace| > 0 && comm.trace[|comm.trace| - 1] == Received(AssignmentMessage(r.value))
      ensures old(comm.initialized) ==>
                var o := Exchange(comm.travelTimes.network, comm.travelTimes.travelTime, old(comm.inbox), 0.0);
                && comm.trace == old(comm.trace) + [Sent(Iteration(old(comm.iteration), Roster(fleet, order)))] + o.ops
                && comm.inbox == o.rest && (r.Success? <==> o.result.Success?) && (r.Success? ==> r == o.result)
      ensures !old(comm.initialized) && old(comm.inbox) != [] && old(comm.inbox)[0] == Initialization ==>
                var o := Exchange(comm.travelTimes.network, comm.travelTimes.travelTime, old(comm.inbox)[1..], 0.0);
                && comm.trace == old(comm.trace) + [Received(Initialization), Sent(Iteration(old(comm.iteration), Roster(fleet, order)))] + o.ops
                && comm.inbox == o.rest && (r.Success? <==> o.result.Success?) && (r.Success? ==> r == o.result)
      ensures !old(comm.initialized) && (old(comm.inbox) == [] || old(comm.inbox)[0] != Initialization) ==>
                r.Failure? && !comm.initialized
      ensures old(comm.Fresh() || comm.Ready()) && r.Success? ==> comm.Ready()
    {
      var roster := BuildRoster(fleet, order);
      initialized := true;
      r := comm.StartIteration(roster);
      if r.Success? {
        ghost var inbox := if old(comm.initialized) then old(comm.inbox) else old(comm.inbox)[1..];
        ExchangeAccepts(comm.travelTimes.network, comm.travelTimes.travelTime, inbox, 0.0);
      }
    }

    /** A later exchange: the snapshot of the step is sent, after the queue and event maps are drained. */
    method LaterUpdate(time: real) returns (r: Result<Assignment>)
      requires Valid() && initialized
      modifies this, comm
      ensures Valid() && initialized
      ensures fleet == old(fleet) && isFirstStep == old(isFirstStep) && emitted == old(emitted)
      ensures comm.iteration == old(comm.iteration)
      ensures r.Success? ==> |comm.trace| > 0 && comm.trace[|comm.trace| - 1] == Received(AssignmentMessage(r.value))
      ensures var s := StepState(old(fleet), order, time, old(submitted), old(pickedUp), old(droppedOff));
              s.Failure? ==>
                && r == Failure(s.error)
                && submitted == old(submitted) && requests == old(requests) && requestEntries == old(requestEntries)
                && pickedUp == old(pickedUp) && droppedOff == old(droppedOff)
                && comm.trace == old(comm.trace) && comm.inbox == old(comm.inbox) && comm.initialized == old(comm.initialized)
      ensures var s := StepState(old(fleet), order, time, old(submitted), old(pickedUp), old(droppedOff));
              var o := Exchange(comm.travelTimes.network, comm.travelTimes.travelTime, old(comm.inbox), time);
              s.Success? ==>
                && submitted == [] && pickedUp == map[] && droppedOff == map[]
                && (requests, requestEntries) == Admitted(old(requests), old(requestEntries), old(submitted))
                && comm.trace == old(comm.trace) + [Sent(StateMessage(s.value))] + o.ops
                && comm.inbox == o.rest && (r.Success? <==> o.result.Success?) && (r.Success? ==> r == o.result)
                && comm.initialized == old(comm.initialized)
                && (old(comm.Ready()) && r.Success? ==> comm.Ready())
    {
      var state := TakeSnapshot(time);
      if state.Failure? {
        return Failure(state.error);
      }
      r := comm.Update(state.value);
      if r.Success? {
        ExchangeAccepts(comm.travelTimes.network, comm.travelTimes.travelTime, old(comm.inbox), time);
      }
    }

    /**
     * The snapshot of a step: every vehicle's state, the queued submissions, which are then accepted
     * into the tables, and copies of the event maps, which are then emptied.
     */
    method TakeSnapshot(time: real) returns (s: Result<State>)
      requires Valid()
      modifies this
      ensures Valid()
      ensures s == StepState(old(fleet), order, time, old(submitted), old(pickedUp), old(droppedOff))
      ensures fleet == old(fleet) && initialized == old(initialized) && isFirstStep == old(isFirstStep) && emitted == old(emitted)
      ensures s.Failure? ==>
                && submitted == old(submitted) && requests == old(requests) && requestEntries == old(requestEntries)
                && pickedUp == old(pickedUp) && droppedOff == old(droppedOff)
      ensures s.Success? ==>
                && submitted == [] && pickedUp == map[] && droppedOff == map[]
                && (requests, requestEntries) == Admitted(old(requests), old(requestEntries), old(submitted))
    {
      var vehicles := BuildVehicleStates(fleet, order, time);
      if vehicles.Failure? {
        return Failure(vehicles.error);
      }
      var records, requests', entries' := DrainSubmitted(requests, requestEntries, submitted);
      AdmittedKeepsIdsPaired(requests, requestEntries, submitted);
      var pickedUpCopy := CopyEvents(pickedUp);
      var droppedOffCopy := CopyEvents(droppedOff);
      s := Success(State(time, pickedUpCopy, droppedOffCopy, vehicles.value, records));
      requests, requestEntries, submitted, pickedUp, droppedOff := requests', entries', [], map[], map[];
    }

    /**
     * The state after `assignment` was applied at `now` to the fleet `fleet0`, the table `entries0` and
     * the event log `emitted0`: both passes and validation succeeded, the fleet is the reconciled one,
     * the table the reconciled one with new assignments marked, and the log gained one announcement
     * per newly scheduled request.
     */
    ghost predicate Applied(fleet0: Fleet, entries0: Entries, emitted0: seq<ScheduledEvent>, assignment: Assignment, now: real)
      requires FleetValid(fleet0)
      reads this
    {
      var rec := Reconciled(env, fleet0, entries0, assignment, now);
      && rec.Success? && Validates(rec.value.0, requests, rec.value.1, now)
      && fleet == rec.value.0
      && requestEntries == MarkScheduled(rec.value.1)
      && |emitted| >= |emitted0| && emitted[..|emitted0|] == emitted0
      && Announces(emitted[|emitted0|..], rec.value.0, requests, rec.value.1, now)
    }

    /**
     * Applying an assignment: both reconciliation passes, then validation, whose announcements go to
     * the event stream. A fatal error leaves the state as it was.
     */
    method Implement(assignment: Assignment, now: real) returns (r: Result<()>)
      requires Valid()
      modifies this
      ensures Valid()
      ensures var rec := Reconciled(env, old(fleet), old(requestEntries), assignment, now);
        r.Success? <==> rec.Success? && Validates(rec.value.0, requests, rec.value.1, now)
      ensures r.Success? ==> Applied(old(fleet), old(requestEntries), old(emitted), assignment, now)
      ensures r.Failure? ==> fleet == old(fleet) && requestEntries == old(requestEntries) && emitted == old(emitted)
      ensures |emitted| >= |old(emitted)| && MarksKept(old(requestEntries), requestEntries, emitted[|old(emitted)|..])
      ensures requests == old(requests) && submitted == old(submitted) && initialized == old(initialized)
      ensures isFirstStep == old(isFirstStep) && pickedUp == old(pickedUp) && droppedOff == old(droppedOff)
    {
      ReconciledKeepsIds(env, fleet, requestEntries, assignment, now);
      ReconciledKeepsScheduled(env, fleet, requestEntries, assignment, now);
      var rebuilt := Reconcile(env, fleet, requestEntries, assignment, now);
      if rebuilt.Failure? {
        return Failure(rebuilt.error);
      }
      var f, e := rebuilt.value.0, rebuilt.value.1;
      // validation
      var validated := Validate(f, requests, e, now);
      if validated.Failure? {
        return Failure(validated.error);
      }
      fleet := f;
      requestEntries := validated.value.0;
      emitted := emitted + validated.value.1;
      assert emitted[|old(emitted)|..] == validated.value.1;
      forall q | q in old(requestEntries) && old(requestEntries)[q].scheduled
        ensures forall i :: 0 <= i < |validated.value.1| ==> validated.value.1[i].request != q
      {
        AnnouncesNoMarked(validated.value.1, f, requests, e, now, q);
      }
      r := Success(());
    }

    /**
     * Before each simulation step except the first: one exchange with the dispatcher, then its
     * assignment is applied at the step's time.
     */
    method NotifyMobsimBeforeSimStep(time: real) returns (r: Result<()>)
      requires Valid()
      modifies this, comm
      ensures Valid() && !isFirstStep
      ensures old(isFirstStep) ==>
                && r.Success? && fleet == old(fleet) && initialized == old(initialized)
                && submitted == old(submitted) && requests == old(requests) && requestEntries == old(requestEntries)
                && pickedUp == old(pickedUp) && droppedOff == old(droppedOff) && emitted == old(emitted)
                && comm.trace == old(comm.trace) && comm.inbox == old(comm.inbox)
                && comm.iteration == old(comm.iteration) && comm.initialized == old(comm.initialized)
      ensures !old(isFirstStep) && r.Success? ==>
                && initialized
                && |comm.trace| > 0 && comm.trace[|comm.trace| - 1].Received?
                && comm.trace[|comm.trace| - 1].message.AssignmentMessage?
                && var a := comm.trace[|comm.trace| - 1].message.assignment;
                   var tables := if old(initialized) then Admitted(old(requests), old(requestEntries), old(submitted))
                                 else (old(requests), old(requestEntries));
                   && requests == tables.0
                   && Applied(old(fleet), tables.1, old(emitted), a, time)
                   && MarksKept(tables.1, requestEntries, emitted[|old(emitted)|..])
    {
      if isFirstStep {
        isFirstStep := false;
        return Success(());
      }
      ghost var tables := if initialized then Admitted(requests, requestEntries, submitted) else (requests, requestEntries);
      ghost var before := emitted;
      var assignment := Update(time);
      if assignment.Failure? {
        return Failure(assignment.error);
      }
      assert requests == tables.0 && requestEntries == tables.1 && emitted == before;
      r := Implement(assignment.value, time);
    }
  }
}
