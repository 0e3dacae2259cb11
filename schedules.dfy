/** The simulation-side entities the reconciler reads and rewrites: paths, tasks, schedules, vehicles. */
module Schedules {
  import opened Common

  /** A route with the travel time of each of its links, departing at `departureTime`. */
  datatype Path = Path(departureTime: real, travelTime: real, links: seq<LinkId>, linkTravelTimes: seq<real>) {
    function ArrivalTime(): real { departureTime + travelTime }
  }

  /** A task of a schedule. A stop is a stay at a link that also serves requests. */
  datatype Task =
    | Stay(link: LinkId, beginTime: real, endTime: real)
    | Drive(beginTime: real, endTime: real, path: Path)
    | Stop(link: LinkId, beginTime: real, endTime: real, pickups: seq<RequestId>, dropoffs: seq<RequestId>)
  {
    /** The library's StayTask: stays and stops, both of which sit at one link. */
    predicate AtLink() { Stay? || Stop? }
  }

  /** The drive task the task factory creates for a path: it spans the path's departure and arrival. */
  function DriveAlong(p: Path): Task {
    Drive(p.departureTime, p.ArrivalTime(), p)
  }

  /** A drive whose remaining path is replaced: it now arrives when the new path does. */
  function Diverted(t: Task, p: Path): (r: Task)
    requires t.Drive?
    ensures r.Drive? && r.path == p
    ensures r.beginTime == t.beginTime && r.endTime == p.departureTime + p.travelTime
  {
    Drive(t.beginTime, p.ArrivalTime(), p)
  }

  /** The same task with another end time (the library's setEndTime). */
  function WithEnd(t: Task, e: real): (r: Task)
    ensures r.endTime == e && r.beginTime == t.beginTime
    ensures r.Stay? == t.Stay? && r.Drive? == t.Drive? && r.Stop? == t.Stop?
    ensures r.AtLink() ==> r.link == t.link
  {
    match t
    case Stay(l, b, _) => Stay(l, b, e)
    case Drive(b, _, p) => Drive(b, e, p)
    case Stop(l, b, _, up, down) => Stop(l, b, e, up, down)
  }

  /** Whether `t` is a stop that picks request `q` up. */
  predicate PicksUp(t: Task, q: RequestId) { t.Stop? && q in t.pickups }

  /** Whether `t` is a stop that drops request `q` off. */
  predicate DropsOff(t: Task, q: RequestId) { t.Stop? && q in t.dropoffs }

  datatype ScheduleStatus = Planned | Started | Completed

  /** A vehicle's tasks; while the schedule runs, `currentIdx` is the executing task. */
  datatype Schedule = Schedule(status: ScheduleStatus, tasks: seq<Task>, currentIdx: nat) {
    predicate Valid() { status == Started ==> currentIdx < |tasks| }
  }

  /** The earliest point at which the remaining path of a drive may still change. */
  datatype DiversionPoint = DiversionPoint(link: LinkId, time: real)

  /** What the simulation's tracker reports about a vehicle's executing drive. */
  datatype DriveTracker = DriveTracker(
    currentLink: LinkId,
    currentLinkEnterTime: real,
    currentLinkTravelTime: real,
    diversionPoint: DiversionPoint)

  datatype Vehicle = Vehicle(
    id: VehicleId,
    capacity: real,  // the first element of the vehicle's capacity vector
    startLink: LinkId,
    serviceEndTime: real,
    schedule: Schedule,
    tracker: DriveTracker)

  /** A request accepted from the simulation's demand. */
  datatype DrtRequest = DrtRequest(
    id: RequestId,
    fromLink: LinkId,
    toLink: LinkId,
    earliestStartTime: real,
    latestStartTime: real,
    latestArrivalTime: real,
    passengerIds: seq<PersonId>)

  /**
   * The routing capabilities the bridge calls but does not implement: a least-cost path between two
   * links departing at a time, and a path from a drive's diversion point to a link.
   */
  datatype Router = Router(path: (LinkId, LinkId, real) -> Path, diversionPath: (DiversionPoint, LinkId) -> Path)

  /** The simulation context: the network's link ids, its travel-time model and the router. */
  datatype Env = Env(network: set<LinkId>, travelTime: TravelTime, router: Router)

  /** A router whose paths leave at the time they are asked for. */
  ghost predicate DepartsOnTime(r: Router) {
    && (forall a, b, t :: r.path(a, b, t).departureTime == t)
    && (forall d, l :: r.diversionPath(d, l).departureTime == d.time)
  }
}
