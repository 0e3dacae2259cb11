/** Identifiers, failure values and times shared by every part of the bridge. */
module Common {

  type LinkId = string
  type VehicleId = string
  type RequestId = string
  type PersonId = string

  /** The simulation's travel-time model: the time to traverse a link entered at a given time. */
  type TravelTime = (LinkId, real) -> real

  datatype Option<+T> = None | Some(value: T)

  /** The two per-request bookkeeping slots of the reconciler. */
  datatype Slot = PickupSlot | DropoffSlot

  /** Every condition under which the bridge throws and the run aborts. */
  datatype Fatal =
      // a map lookup that yields null and is then dereferenced
    | UnknownVehicle(vehicle: VehicleId)
    | UnknownRequest(request: RequestId)
    | UnknownLink(link: LinkId)
      // the library refuses to hand out the current task of a schedule that is not running
    | ScheduleNotStarted(vehicle: VehicleId)
      // the end link of a drive over a path of no links
    | PathWithoutLinks(vehicle: VehicleId)
      // the snapshot casts the last task of an idle schedule to a stay
    | EmptySchedule(vehicle: VehicleId)
    | LastTaskNotStay(vehicle: VehicleId)
      // the optimizer assigns a slot that another stop already holds
    | SlotTaken(request: RequestId, slot: Slot, claimant: VehicleId, holder: VehicleId)
      // global validation of the request table
    | PickupWithoutDropoff(request: RequestId, vehicle: VehicleId)
    | DropoffWithoutPickup(request: RequestId, vehicle: VehicleId)
    | SplitAssignment(request: RequestId, pickupVehicle: VehicleId, dropoffVehicle: VehicleId)
      // protocol violations on the exchange channel
    | HandshakeMissing
    | UnexpectedMessage
    | PeerSilent

  datatype Result<+T> = Success(value: T) | Failure(error: Fatal) {
    predicate IsFailure() { Failure? }
    function PropagateFailure<U>(): Result<U>
      requires Failure?
    {
      Failure(error)
    }
    function Extract(): T
      requires Success?
    {
      value
    }
  }

  /** A double-valued time as the wire carries it, with the two infinities that serve as defaults. */
  datatype Time = NegInf | At(seconds: real) | PosInf
}
