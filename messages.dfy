/** The wire vocabulary between the bridge and the external dispatcher. */
module Messages {
  import opened Common

  /** One stop of a vehicle's new plan. Absent fields take the message class defaults. */
  datatype AssignedStop = AssignedStop(
    link: LinkId,
    pickup: seq<RequestId>,
    dropoff: seq<RequestId>,
    route: Option<seq<LinkId>>,       // None is the default null: the bridge routes the approach
    earliestStartTime: Option<real>,  // None is the default negative infinity: no earliest start
    stopDuration: real)

  /** One entry of the assignment's map from vehicle id to its ordered stop list. */
  datatype VehiclePlan = VehiclePlan(vehicle: VehicleId, stops: seq<AssignedStop>)

  /** The dispatcher's stop lists, in the iteration order of the map that holds them. */
  datatype Assignment = Assignment(stops: seq<VehiclePlan>)

  /** A vehicle of the roster sent when an iteration starts. */
  datatype RosterVehicle = RosterVehicle(id: VehicleId, startLink: LinkId, capacity: int)

  /** The wire tag "stay", "stop" or "drive". */
  datatype Activity = Staying | Stopping | Driving

  /** A vehicle of the snapshot. */
  datatype VehicleState = VehicleState(
    id: VehicleId,
    currentLink: LinkId,
    currentExitTime: Time,
    divergeLink: Option<LinkId>,
    divergeTime: Time,
    activity: Activity)

  /** A request submitted since the previous exchange; its size is always one. */
  datatype RequestState = RequestState(
    id: RequestId,
    originLink: LinkId,
    destinationLink: LinkId,
    earliestPickupTime: real,
    latestPickupTime: real,
    latestArrivalTime: real,
    size: int)

  /** The snapshot of one simulation step. */
  datatype State = State(
    time: real,
    pickedUp: map<RequestId, VehicleId>,
    droppedOff: map<RequestId, VehicleId>,
    vehicles: seq<VehicleState>,
    submitted: seq<RequestState>)

  datatype Message =
    | Initialization
    | Finalization
    | Iteration(iteration: int, vehicles: seq<RosterVehicle>)
    | AssignmentMessage(assignment: Assignment)
    | StateMessage(state: State)
    | TravelTimeQuery(links: seq<LinkId>)
    | TravelTimeResponse(travelTimes: map<LinkId, real>)

  /** One operation on the bridge's end of the request/reply socket. */
  datatype SocketOp = Sent(message: Message) | Received(message: Message)
}
