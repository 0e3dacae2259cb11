# MATSim–FleetPy bridge: a verified model

The bridge connects a MATSim demand-responsive transport (DRT) simulation to an external
dispatcher over a request/reply socket. This project models its core and proves properties of that
model. The core has three parts:

- **The optimizer (`FleetPyOptimizer`).**
  - Between simulation steps it collects submitted requests, pickups and dropoffs.
  - At each step it sends the dispatcher a snapshot of every vehicle and of the requests submitted
    since the last step.
  - It then applies the dispatcher's assignment to the vehicles' schedules in two passes. Pass 1
    clears each named vehicle's schedule back to its current task. Pass 2 rebuilds it stop by stop:
    a diverted or new drive, an optional wait, a stop, and a closing stay until the end of service.
  - A per-request table records which vehicle holds each request's pickup and which holds its
    dropoff. A final validation checks the table.
  - Every newly assigned request is announced once as scheduled. Its entry stays marked, so a later
    step does not announce it again.
- **The communication manager (`CommunicationManager`).**
  - It performs a one-time `Initialization` handshake.
  - It then sends an `Iteration` message or a `State` snapshot.
  - It answers any number of travel-time queries.
  - It requires the exchange to end with an `Assignment`.
  - At shutdown it sends one `Finalization`.
- **The travel-time manager (`TravelTimeManager`).** It answers a query for a set of links at a
  given time. An empty query means every network link.

## How the model is built

**Modules.** The modules follow the source:

| Module | Contents |
|---|---|
| `Common` | Identifiers, time sentinels ±∞, `Option`/`Result` and the fatal errors. |
| `Messages` | The wire messages. |
| `Schedules` | Tasks, schedules, vehicles, requests, and the router and travel-time model. |
| `Routes` | `createPath`. |
| `TravelTimes` | The travel-time manager. |
| `Bookkeeping` | The request table. |
| `Reconciler` | The two passes of `implement`. |
| `Validation` | Its final loop. |
| `Snapshot` | The `update` snapshot. |
| `Communication` | The manager and its exchange. |
| `Optimizer` | The optimizer class. |
| `ReconcilerFacts` | Lemmas relating the passes. |

**Imperative code.** The source is imperative, and so is the model:

- The optimizer and the communication manager are classes whose methods update their fields. The
  travel-time manager is a class whose network and travel-time model are fixed when it is built.
- `createPath` fills two arrays.
- Every loop of the source is a `while` loop. Each is proved equal to a head-first recursive
  specification function, or proved outright against a property.
- The vehicles' schedules are values held in the optimizer's `fleet` map. Pass 1 and pass 2
  replace them.

**The socket.** It is modelled as two sequences: the messages the dispatcher will send, and a trace
of every operation on the socket.

**Fatal errors.** Every exception the source can raise becomes a `Failure` naming what went wrong.
This covers a null dereference on a missing key, `Verify`/`Preconditions` failures and
`IllegalStateException`. The model does not constrain such inputs with a `requires`.

**Two behaviours of the code.**

- **Releasing dropoff slots.** Pass 1 releases the dropoff slot only of the requests a discarded
  stop *picks up* (`FleetPyOptimizer.java:256` iterates the pickup requests a second time). A request
  the stop only drops off keeps its dropoff slot. `ReconcilerFacts.OnboardDropoffResent` shows the
  consequence: if the dispatcher re-sends the dropoff of a passenger who is already on board, the
  run fails.
- **Vehicles whose schedule is not running.** Such a vehicle reports no diverge link and a diverge
  time of −∞ (`FleetPyOptimizer.java:162-167` leaves both fields at their defaults).

## Model

| member | source | states |
|---|---|---|
| Optimizer.FleetPyOptimizer.constructor | src/main/java/org/irtx/matsim_fleetpy/bridge/FleetPyOptimizer.java:52-77 | a new optimizer starts uninitialised, expecting its first step, with empty accumulators, request table and event log |
| Optimizer.FleetPyOptimizer.NotifyMobsimBeforeSimStep | src/main/java/org/irtx/matsim_fleetpy/bridge/FleetPyOptimizer.java:79-87 | the first step only clears the first-step flag and changes nothing else, the communication manager's state included; a later step that succeeds implements exactly the assignment last received on the socket, against the request tables as the exchange left them, announcing no request already marked scheduled |
| Optimizer.FleetPyOptimizer.RequestSubmitted | src/main/java/org/irtx/matsim_fleetpy/bridge/FleetPyOptimizer.java:92-97 | the request is appended to the submission queue; nothing else changes |
| Optimizer.FleetPyOptimizer.Update | src/main/java/org/irtx/matsim_fleetpy/bridge/FleetPyOptimizer.java:102-205 | first call: the roster of every vehicle in fleet order is sent in an `Iteration`, after the handshake if none happened, and the accumulators are left alone; later calls: a vehicle that cannot report fails before anything changes, otherwise the `State` sent holds every vehicle's record, the queued submissions' records and the pickup and dropoff maps, the queue and maps are emptied and the submissions admitted; a returned assignment is the last message received |
| Optimizer.FleetPyOptimizer.FirstUpdate | src/main/java/org/irtx/matsim_fleetpy/bridge/FleetPyOptimizer.java:103-116 | the roster of every vehicle in fleet order is sent in an `Iteration`, after the handshake if none happened; the accumulators are left alone and a returned assignment is the last message received |
| Optimizer.FleetPyOptimizer.LaterUpdate | src/main/java/org/irtx/matsim_fleetpy/bridge/FleetPyOptimizer.java:117-204 | a vehicle that cannot report fails before anything is sent or changed; otherwise the step's `State` is sent and the exchange runs at the step's time |
| Optimizer.FleetPyOptimizer.TakeSnapshot | src/main/java/org/irtx/matsim_fleetpy/bridge/FleetPyOptimizer.java:117-201 | the snapshot is `StepState` of the fleet, the queue and the event maps; on success the queue and maps are emptied and the submissions admitted, on failure nothing changes |
| Optimizer.FleetPyOptimizer.HandlePickedUp | src/main/java/org/irtx/matsim_fleetpy/bridge/FleetPyOptimizer.java:213-218 | the pickup is recorded for the request, overwriting an earlier one; nothing else changes |
| Optimizer.FleetPyOptimizer.HandleDroppedOff | src/main/java/org/irtx/matsim_fleetpy/bridge/FleetPyOptimizer.java:220-230 | the dropoff is recorded, and the request and its entry are removed from the tables; nothing else changes |
| Optimizer.FleetPyOptimizer.Implement | src/main/java/org/irtx/matsim_fleetpy/bridge/FleetPyOptimizer.java:240-436 | succeeds exactly when both passes succeed and the resulting table validates; the fleet is then the reconciled fleet, the table the reconciled one with new assignments marked, and the events appended are exactly one announcement per newly scheduled request; a request already marked stays marked and is not announced again |
| Reconciler.VehicleCleared | src/main/java/org/irtx/matsim_fleetpy/bridge/FleetPyOptimizer.java:242-270 | a missing or non-running vehicle is fatal; otherwise only that vehicle changes, its schedule ends at its current task, a current stay ends at `now`, and earlier tasks, status and index are kept |
| Reconciler.ClearVehicle | src/main/java/org/irtx/matsim_fleetpy/bridge/FleetPyOptimizer.java:242-270 | the pass 1 body for one vehicle computes `VehicleCleared` |
| Reconciler.ClearAll | src/main/java/org/irtx/matsim_fleetpy/bridge/FleetPyOptimizer.java:242-270 | the pass 1 loop computes `AllCleared` over the assignment in order |
| Reconciler.AllCleared | src/main/java/org/irtx/matsim_fleetpy/bridge/FleetPyOptimizer.java:242-270 | pass 1 keeps every vehicle's status, current index and earlier tasks, and the fleet's vehicles |
| Reconciler.ReleaseBookkeeping | src/main/java/org/irtx/matsim_fleetpy/bridge/FleetPyOptimizer.java:248-259 | the release loop over the tasks from the current one computes `BookkeepingReleased` |
| Reconciler.ClearedSchedule | src/main/java/org/irtx/matsim_fleetpy/bridge/FleetPyOptimizer.java:262-268 | the cleared schedule ends at the current task, keeps every task before it, and a current stay (and only a stay) now ends at `now` |
| Reconciler.ClearSchedule | src/main/java/org/irtx/matsim_fleetpy/bridge/FleetPyOptimizer.java:262-268 | the removal loop computes `ClearedSchedule` |
| Reconciler.Moved | src/main/java/org/irtx/matsim_fleetpy/bridge/FleetPyOptimizer.java:283-311 | moving to a stop never changes a task before the current one, removes none, nor moves the current task back; without an explicit route, an unknown stop link fails exactly when the router would be asked for a path to it |
| Reconciler.Move | src/main/java/org/irtx/matsim_fleetpy/bridge/FleetPyOptimizer.java:283-311 | the move in the stop loop computes `Moved` |
| Reconciler.Approach | src/main/java/org/irtx/matsim_fleetpy/bridge/FleetPyOptimizer.java:288-292 | a new drive's path is the router's, which needs a known target link, unless an explicit route is given, which is stamped by `createPath` |
| Reconciler.Waited | src/main/java/org/irtx/matsim_fleetpy/bridge/FleetPyOptimizer.java:313-321 | a wait stay from the current end to the earliest start, at the stop's link, is appended exactly when the current task ends earlier; the current end never moves back and is then no earlier than the earliest start |
| Reconciler.StopPlanned | src/main/java/org/irtx/matsim_fleetpy/bridge/FleetPyOptimizer.java:280-356 | with pickups or dropoffs the stop link is known and the current task becomes a stop at that link lasting the stop duration and starting no earlier than the earliest start; without any, the plan is the move plus the optional wait (which needs a known link), and the table is unchanged |
| Reconciler.PlanStop | src/main/java/org/irtx/matsim_fleetpy/bridge/FleetPyOptimizer.java:279-356 | the body of the stop loop computes `StopPlanned` |
| Reconciler.StopsPlanned | src/main/java/org/irtx/matsim_fleetpy/bridge/FleetPyOptimizer.java:278-357 | planning a stop list only extends the plan |
| Reconciler.PlanStops | src/main/java/org/irtx/matsim_fleetpy/bridge/FleetPyOptimizer.java:279-357 | the stop loop computes `StopsPlanned`, diverting only at the first stop |
| Reconciler.DrivingStopped | src/main/java/org/irtx/matsim_fleetpy/bridge/FleetPyOptimizer.java:358-368 | with an empty stop list a current drive is diverted to its own diversion link and nothing else changes; any other current task is left as it is |
| Reconciler.TailClosed | src/main/java/org/irtx/matsim_fleetpy/bridge/FleetPyOptimizer.java:370-386 | afterwards the current task ends no earlier than the service end; one ending earlier is a stay ending exactly then; one already late enough is untouched; it fails exactly for a short drive whose path has no links |
| Reconciler.VehicleRebuilt | src/main/java/org/irtx/matsim_fleetpy/bridge/FleetPyOptimizer.java:273-386 | a missing or non-running vehicle is fatal; otherwise only that vehicle changes, keeping status, index and earlier tasks |
| Reconciler.Rebuilt | src/main/java/org/irtx/matsim_fleetpy/bridge/FleetPyOptimizer.java:278-368 | the stops, or the diversion when there are none, never change a task before the current one; an empty stop list leaves the table alone |
| Reconciler.RebuildVehicle | src/main/java/org/irtx/matsim_fleetpy/bridge/FleetPyOptimizer.java:273-386 | the pass 2 body for one vehicle computes `VehicleRebuilt` |
| Reconciler.RebuildAll | src/main/java/org/irtx/matsim_fleetpy/bridge/FleetPyOptimizer.java:273-386 | the pass 2 loop computes `AllRebuilt` over the assignment in order |
| Reconciler.Reconcile | src/main/java/org/irtx/matsim_fleetpy/bridge/FleetPyOptimizer.java:240-386 | the two loops together compute `Reconciled`: pass 1 over every assigned vehicle, then pass 2 |
| Reconciler.AllRebuilt | src/main/java/org/irtx/matsim_fleetpy/bridge/FleetPyOptimizer.java:273-386 | pass 2 keeps every vehicle's status, current index and earlier tasks, and the fleet's vehicles |
| Reconciler.Reconciled | src/main/java/org/irtx/matsim_fleetpy/bridge/FleetPyOptimizer.java:240-386 | both passes together keep every vehicle's status, current index and earlier tasks |
| ReconcilerFacts.ClearedOnlyNamed | src/main/java/org/irtx/matsim_fleetpy/bridge/FleetPyOptimizer.java:242-244 | pass 1 leaves every vehicle the assignment does not name exactly as it was |
| ReconcilerFacts.RebuiltOnlyNamed | src/main/java/org/irtx/matsim_fleetpy/bridge/FleetPyOptimizer.java:273-275 | pass 2 leaves every vehicle the assignment does not name exactly as it was |
| ReconcilerFacts.ReconciledOnlyNamed | src/main/java/org/irtx/matsim_fleetpy/bridge/FleetPyOptimizer.java:240-386 | only vehicles named in the assignment are touched |
| ReconcilerFacts.AllClearedCutsBack | src/main/java/org/irtx/matsim_fleetpy/bridge/FleetPyOptimizer.java:242-270 | after pass 1 every named vehicle's current task is its last, and a current stay ends at `now` |
| ReconcilerFacts.TaskReleasedSpec | src/main/java/org/irtx/matsim_fleetpy/bridge/FleetPyOptimizer.java:251-259 | discarding a stop succeeds exactly when all its pickup requests have entries; both their slots are released and every other entry, including a dropoff-only request, is unchanged |
| ReconcilerFacts.BookkeepingReleasedSpec | src/main/java/org/irtx/matsim_fleetpy/bridge/FleetPyOptimizer.java:248-259 | over all discarded tasks: succeeds exactly when every picked-up request has an entry; both slots of each such request are released, every other entry is unchanged |
| ReconcilerFacts.OnboardDropoffResent | src/main/java/org/irtx/matsim_fleetpy/bridge/FleetPyOptimizer.java:256 | a request only dropped off by a discarded stop keeps its dropoff slot, so re-registering that dropoff is fatal |
| ReconcilerFacts.MovedChained | src/main/java/org/irtx/matsim_fleetpy/bridge/FleetPyOptimizer.java:297-311 | with a router whose paths leave when asked, a drive appended after a stay begins when the stay ends |
| ReconcilerFacts.StopPlannedChained | src/main/java/org/irtx/matsim_fleetpy/bridge/FleetPyOptimizer.java:313-356 | the wait and the stop each begin when the task before them ends |
| ReconcilerFacts.BuiltChained | src/main/java/org/irtx/matsim_fleetpy/bridge/FleetPyOptimizer.java:278-368 | with a router whose paths leave when asked, planning the stops or stopping the drive keeps the tasks contiguous in time |
| ReconcilerFacts.StopsPlannedChained | src/main/java/org/irtx/matsim_fleetpy/bridge/FleetPyOptimizer.java:279-357 | a whole stop list keeps every appended task beginning when its predecessor ends |
| ReconcilerFacts.TailClosedChained | src/main/java/org/irtx/matsim_fleetpy/bridge/FleetPyOptimizer.java:370-386 | the closing stay begins when the task before it ends |
| ReconcilerFacts.RebuiltSettled | src/main/java/org/irtx/matsim_fleetpy/bridge/FleetPyOptimizer.java:273-386 | a cut-back vehicle's rebuilt schedule is running, contiguous in time from its current task, and its last task ends no earlier than the service end |
| ReconcilerFacts.AllRebuiltSettled | src/main/java/org/irtx/matsim_fleetpy/bridge/FleetPyOptimizer.java:273-386 | the same for every vehicle of an assignment naming each vehicle once |
| ReconcilerFacts.ReconciledSettled | src/main/java/org/irtx/matsim_fleetpy/bridge/FleetPyOptimizer.java:240-386 | after `implement`'s two passes every reassigned vehicle's last task ends at or after its service end, and its new tasks are contiguous in time |
| ReconcilerFacts.StopPlannedRegisters | src/main/java/org/irtx/matsim_fleetpy/bridge/FleetPyOptimizer.java:330-352 | registering a stop's requests succeeds exactly when each pickup and each dropoff slot is free; those slots then hold the vehicle and no other entry changes |
| ReconcilerFacts.AllClearedKeepsIds | src/main/java/org/irtx/matsim_fleetpy/bridge/FleetPyOptimizer.java:240-270 | pass 1 keeps the ids of the request table |
| ReconcilerFacts.StopPlannedKeepsIds | src/main/java/org/irtx/matsim_fleetpy/bridge/FleetPyOptimizer.java:280-356 | one stop keeps the ids of the request table |
| ReconcilerFacts.StopsPlannedKeepsIds | src/main/java/org/irtx/matsim_fleetpy/bridge/FleetPyOptimizer.java:278-358 | a vehicle's stops keep the ids of the request table |
| ReconcilerFacts.AllRebuiltKeepsIds | src/main/java/org/irtx/matsim_fleetpy/bridge/FleetPyOptimizer.java:272-386 | pass 2 keeps the ids of the request table |
| ReconcilerFacts.ReconciledKeepsIds | src/main/java/org/irtx/matsim_fleetpy/bridge/FleetPyOptimizer.java:240-386 | both passes keep the ids of the request table |
| ReconcilerFacts.AllClearedKeepsScheduled | src/main/java/org/irtx/matsim_fleetpy/bridge/FleetPyOptimizer.java:240-270 | pass 1 keeps every entry, with its scheduled flag |
| ReconcilerFacts.StopPlannedKeepsScheduled | src/main/java/org/irtx/matsim_fleetpy/bridge/FleetPyOptimizer.java:280-356 | one stop keeps every entry, with its scheduled flag |
| ReconcilerFacts.StopsPlannedKeepsScheduled | src/main/java/org/irtx/matsim_fleetpy/bridge/FleetPyOptimizer.java:278-358 | a vehicle's stops keep every entry, with its scheduled flag |
| ReconcilerFacts.AllRebuiltKeepsScheduled | src/main/java/org/irtx/matsim_fleetpy/bridge/FleetPyOptimizer.java:272-386 | pass 2 keeps every entry, with its scheduled flag |
| ReconcilerFacts.ReconciledKeepsScheduled | src/main/java/org/irtx/matsim_fleetpy/bridge/FleetPyOptimizer.java:240-386 | both passes keep every entry, with its scheduled flag, so only validation raises it |
| ReconcilerFacts.IdleStopSkipsDrive | src/main/java/org/irtx/matsim_fleetpy/bridge/FleetPyOptimizer.java:283-311 | a first stop with nothing to do and no wait leaves the diverted drive current, and the next stop at another link then gets no connecting drive |
| Bookkeeping.SlotsReleasedSpec | src/main/java/org/irtx/matsim_fleetpy/bridge/FleetPyOptimizer.java:252-258 | releasing succeeds exactly when every listed request has an entry; it empties that slot of the listed requests and nothing else |
| Bookkeeping.ReleaseSlots | src/main/java/org/irtx/matsim_fleetpy/bridge/FleetPyOptimizer.java:252-258 | the release loop computes `SlotsReleased` |
| Bookkeeping.SlotsRegisteredSpec | src/main/java/org/irtx/matsim_fleetpy/bridge/FleetPyOptimizer.java:330-352 | registering succeeds exactly when every id has an entry with that slot free and occurs once; the slots then hold the vehicle, nothing else changes, and a failure is a missing request or a taken slot claimed by this vehicle |
| Bookkeeping.RegistrableFront | src/main/java/org/irtx/matsim_fleetpy/bridge/FleetPyOptimizer.java:330-352 | once the first id's slot is taken, the rest can be registered exactly when the whole list could |
| Bookkeeping.RegisterSlots | src/main/java/org/irtx/matsim_fleetpy/bridge/FleetPyOptimizer.java:330-352 | the registration loop computes `SlotsRegistered` |
| Bookkeeping.PairingViolation | src/main/java/org/irtx/matsim_fleetpy/bridge/FleetPyOptimizer.java:392-406 | an unpaired entry raises the pickup-without-dropoff complaint exactly when only its pickup is held, the dropoff-without-pickup one exactly when only its dropoff is held, and the split one exactly when both are held; each names the request and the holding vehicles |
| Bookkeeping.MarkScheduled | src/main/java/org/irtx/matsim_fleetpy/bridge/FleetPyOptimizer.java:408-409 | every assigned request is marked scheduled, the flag is never lowered, slots are unchanged, and no request is left newly scheduled |
| Validation.PickupTimeKept | src/main/java/org/irtx/matsim_fleetpy/bridge/FleetPyOptimizer.java:413-428 | with no stop picking the request up, the pickup time keeps its default |
| Validation.DropoffTimeKept | src/main/java/org/irtx/matsim_fleetpy/bridge/FleetPyOptimizer.java:413-428 | with no stop dropping the request off, the dropoff time keeps its default |
| Validation.PickupTimeLast | src/main/java/org/irtx/matsim_fleetpy/bridge/FleetPyOptimizer.java:419-428 | the pickup time is the end of the last stop picking the request up |
| Validation.DropoffTimeLast | src/main/java/org/irtx/matsim_fleetpy/bridge/FleetPyOptimizer.java:419-428 | the dropoff time is the begin of the last stop dropping the request off |
| Validation.ScheduledTimes | src/main/java/org/irtx/matsim_fleetpy/bridge/FleetPyOptimizer.java:413-430 | the scan from the current task, starting from 0.0, computes `StopTimes` |
| Validation.Announce | src/main/java/org/irtx/matsim_fleetpy/bridge/FleetPyOptimizer.java:411-433 | the announcement for a request computes `EventFor` |
| Validation.AnnouncesNoMarked | src/main/java/org/irtx/matsim_fleetpy/bridge/FleetPyOptimizer.java:408-433 | validation announces no request whose entry is already marked scheduled |
| Validation.Validate | src/main/java/org/irtx/matsim_fleetpy/bridge/FleetPyOptimizer.java:389-435 | succeeds exactly when every entry is paired and every newly assigned request can be announced; the table is then marked and the events are exactly one per newly scheduled request |
| Snapshot.BuildRoster | src/main/java/org/irtx/matsim_fleetpy/bridge/FleetPyOptimizer.java:103-114 | one roster record per vehicle, in fleet order, with its id, start link and capacity |
| Snapshot.IntCast | src/main/java/org/irtx/matsim_fleetpy/bridge/FleetPyOptimizer.java:111 | the capacity cast rounds toward zero and saturates at the 32-bit int bounds |
| Snapshot.VehicleSnapshot | src/main/java/org/irtx/matsim_fleetpy/bridge/FleetPyOptimizer.java:121-169 | a running vehicle reports its stay, stop or drive (diverging now at a stay, at the stop's end at a stop; when driving, the tracker's current link and its exit time, diverging at the diversion point); a non-running one reports a stay without end at its last task's link and fails when that task is not a stay or a stop |
| Snapshot.VehicleStates | src/main/java/org/irtx/matsim_fleetpy/bridge/FleetPyOptimizer.java:121-169 | succeeds exactly when every vehicle can report, with one record per vehicle in order |
| Snapshot.BuildVehicleStates | src/main/java/org/irtx/matsim_fleetpy/bridge/FleetPyOptimizer.java:121-169 | the vehicle loop computes `VehicleStates`, failing at the first vehicle that cannot report |
| Snapshot.AdmittedKeepsIdsPaired | src/main/java/org/irtx/matsim_fleetpy/bridge/FleetPyOptimizer.java:171-188 | admitting keeps the request map and the entry table keyed by the same ids |
| Snapshot.AdmittedSpec | src/main/java/org/irtx/matsim_fleetpy/bridge/FleetPyOptimizer.java:171-188 | after admitting, both tables hold the old keys and every queued id; each queued id has a fresh entry and its request; other keys are unchanged |
| Snapshot.AdmittedRequests | src/main/java/org/irtx/matsim_fleetpy/bridge/FleetPyOptimizer.java:171-188 | the request table after admitting: old keys and every queued id, each queued id mapped to a request with that id, other keys unchanged |
| Snapshot.AdmittedEntries | src/main/java/org/irtx/matsim_fleetpy/bridge/FleetPyOptimizer.java:171-188 | the entry table after admitting: old keys and every queued id, each queued id mapped to a fresh entry, other keys unchanged |
| Snapshot.DrainSubmitted | src/main/java/org/irtx/matsim_fleetpy/bridge/FleetPyOptimizer.java:171-188 | one record per queued request in order, and the tables are updated as `Admitted` says |
| Snapshot.CopyEvents | src/main/java/org/irtx/matsim_fleetpy/bridge/FleetPyOptimizer.java:192-198 | the copy of an event map equals it |
| Routes.StampedUpTo | src/main/java/org/irtx/matsim_fleetpy/bridge/FleetPyOptimizer.java:438-455 | the first `k` links get `k` times |
| Routes.StampedTimes | src/main/java/org/irtx/matsim_fleetpy/bridge/FleetPyOptimizer.java:438-455 | there is one time per route link |
| Routes.StampedPrefix | src/main/java/org/irtx/matsim_fleetpy/bridge/FleetPyOptimizer.java:445-451 | stamping more links never changes the times of the links before them |
| Routes.FirstUnknown | src/main/java/org/irtx/matsim_fleetpy/bridge/FleetPyOptimizer.java:445-447 | there is no unknown link exactly when every route link is in the network; one found is a route link outside it |
| Routes.StampedAt | src/main/java/org/irtx/matsim_fleetpy/bridge/FleetPyOptimizer.java:445-451 | each link's time is the model's value at the moment it is entered, the departure plus the times before it |
| Routes.StampedNonNegative | src/main/java/org/irtx/matsim_fleetpy/bridge/FleetPyOptimizer.java:438-455 | with non-negative link times, the travel time of any stamped prefix of the route is non-negative |
| Routes.StampRoute | src/main/java/org/irtx/matsim_fleetpy/bridge/FleetPyOptimizer.java:445-451 | the loop stops at exactly the first unknown link; otherwise it fills the arrays with the route and its stamped times and accumulates their sum |
| Routes.StampLink | src/main/java/org/irtx/matsim_fleetpy/bridge/FleetPyOptimizer.java:447-448 | writing the `k`-th link and time extends what was written before it and keeps it |
| Routes.CreatePath | src/main/java/org/irtx/matsim_fleetpy/bridge/FleetPyOptimizer.java:438-455 | the array loop computes `RoutePath`: the path departs at the given time and visits exactly the route's links; an unknown link is fatal |
| Communication.ExchangeAlternates | src/main/java/org/irtx/matsim_fleetpy/bridge/communication/CommunicationManager.java:91-102 | an exchange alternates from a receive, and ends on a send only when the dispatcher fell silent |
| Communication.ExchangeAnswers | src/main/java/org/irtx/matsim_fleetpy/bridge/communication/CommunicationManager.java:91-102 | every query received is answered by the very next send with the travel times at the exchange's time, and the loop ends at the first non-query |
| Communication.ExchangeReadsFront | src/main/java/org/irtx/matsim_fleetpy/bridge/communication/CommunicationManager.java:91-102 | an exchange consumes a prefix of the inbox, at least one message unless the dispatcher fell silent |
| Communication.ExchangeAccepts | src/main/java/org/irtx/matsim_fleetpy/bridge/communication/CommunicationManager.java:91-107 | an exchange returns an assignment only when its last receive is that assignment, all earlier receives being answerable queries |
| Communication.CommunicationManager.constructor | src/main/java/org/irtx/matsim_fleetpy/bridge/communication/CommunicationManager.java:40-48 | a new manager is uninitialised, at iteration 0, with an empty trace |
| Communication.CommunicationManager.NotifyIterationStarts | src/main/java/org/irtx/matsim_fleetpy/bridge/communication/CommunicationManager.java:60-63 | the iteration number is set and nothing else changes |
| Communication.CommunicationManager.Handle | src/main/java/org/irtx/matsim_fleetpy/bridge/communication/CommunicationManager.java:96-101 | a received message is answered exactly when it is a query of network links, with their travel times; an assignment ends the exchange with success, an unknown link or another message with the matching failure |
| Communication.CommunicationManager.Respond | src/main/java/org/irtx/matsim_fleetpy/bridge/communication/CommunicationManager.java:91-107 | the receive-and-answer loop performs exactly the operations of `Exchange` and returns its assignment |
| Communication.CommunicationManager.Initialize | src/main/java/org/irtx/matsim_fleetpy/bridge/communication/CommunicationManager.java:65-75 | the handshake receives exactly one message and fails unless it is `Initialization` |
| Communication.CommunicationManager.StartIteration | src/main/java/org/irtx/matsim_fleetpy/bridge/communication/CommunicationManager.java:77-111 | the handshake runs only on the first call; then an `Iteration` with the current iteration number and the roster is sent and an exchange answers queries at time 0.0; alternation is preserved |
| Communication.CommunicationManager.Update | src/main/java/org/irtx/matsim_fleetpy/bridge/communication/CommunicationManager.java:113-138 | the state is sent, then an exchange answers queries at the state's time; alternation is preserved |
| Communication.CommunicationManager.NotifyShutdown | src/main/java/org/irtx/matsim_fleetpy/bridge/communication/CommunicationManager.java:140-147 | exactly one `Finalization` is sent, still alternating |
| TravelTimes.TravelTimeManager.constructor | src/main/java/org/irtx/matsim_fleetpy/bridge/TravelTimeManager.java:15-18 | the manager holds the given network and travel-time model |
| TravelTimes.TravelTimeManager.Query | src/main/java/org/irtx/matsim_fleetpy/bridge/TravelTimeManager.java:20-40 | succeeds exactly when every requested id is a network link; the keys are then the distinct requested ids, or every network link when none is requested, each mapped to its travel time at `now`; a failure names a requested id outside the network |

## Left out

- ZeroMQ sockets and Jackson JSON encoding: messages are datatypes, and the socket is an inbox sequence and an operation trace. A peer that sends nothing more is a `PeerSilent` failure where the source would block.
- `synchronized` blocks and cross-thread event delivery: the event handlers are sequential state updates.
- Floating-point `double` semantics: times are `real`, with ±∞ as explicit sentinels; an absent earliest start time stands for −∞.
- MATSim library internals are parameters: the router, the diversion-path calculation, the travel-time model, the drive tracker's position and `EventsManager` (announcements are appended to an event log).
- `tracker.divertPath`: a diverted drive keeps only the new path; the library's splice of the already driven prefix is not modelled.
- `nextTask` and `ScheduleTimingUpdater`: vehicle movement between steps is the simulation's, not the bridge's.
- `Schedule.addTask` validation inside the library is not modelled.
- The DRT `mode` string of the scheduled event, and `Assignment.rejections`, `waitFor` and `Stop.id`, which the optimizer never reads.
- An unknown stop link is fatal where the code would use it: when the router is asked for a path to it, and when a wait or a stop task is created at it. The source stores the null link in such a task and fails only when the simulation reads it later; the model fails at once. A stop with an explicit route and nothing to do never uses its link, in the model as in the source.
- ReconcilerFacts.ReconciledSettled: the new tasks are proved contiguous in time only. That each task starts at the link where the one before it ends is not proved: it rests on the router's paths ending at their target, and it fails after an idle first stop (`ReconcilerFacts.IdleStopSkipsDrive`).
- Maps iterated by the source (`assignment.stops`, the fleet) are sequences in their iteration order.
- Validate: checks every entry before announcing; the source announces as it goes, so the events of entries before a fatal one are emitted before the run dies. The model emits none.
- Implement: after a fatal error the state is left as it was; the source's partial changes are not modelled because the run ends.
- Communication.CommunicationManager.Handle: on a failing query it does not pin which unknown link the error names, since the query reports whichever unknown link it meets first in set order.
- Communication.CommunicationManager.Respond: on a failing query it does not pin which unknown link the error names.
- RunCreateDemand.java, RunCreateFleet.java, RunSimulation.java, FleetPyModule.java and FleetPyQSimModule.java (scenario generation and wiring) and the Python dispatcher scripts are not part of this model.
