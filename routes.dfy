/** Stamping the travel-time model's link times along a route the dispatcher supplies. */
module Routes {
  import opened Common
  import opened Schedules

  /** The sum of a sequence of durations, accumulated front to back. */
  function Sum(s: seq<real>): real {
    if s == [] then 0.0 else Sum(s[..|s| - 1]) + s[|s| - 1]
  }

  /**
   * The travel times of the first `k` links of `route`, when each link is entered as the one before it
   * is left.
   */
  function StampedUpTo(tt: TravelTime, route: seq<LinkId>, departure: real, k: nat): (times: seq<real>)
    requires k <= |route|
    ensures |times| == k
  {
    if k == 0 then []
    else
      var before := StampedUpTo(tt, route, departure, k - 1);
      before + [tt(route[k - 1], departure + Sum(before))]
  }

  /** The travel time of each link of `route`. */
  function StampedTimes(tt: TravelTime, route: seq<LinkId>, departure: real): (times: seq<real>)
    ensures |times| == |route|
  {
    StampedUpTo(tt, route, departure, |route|)
  }

  /** The first link of `route` that the network does not hold. */
  function FirstUnknown(network: set<LinkId>, route: seq<LinkId>): (r: Option<LinkId>)
    ensures r.None? <==> forall k :: 0 <= k < |route| ==> route[k] in network
    ensures r.Some? ==> r.value in route && r.value !in network
  {
    if route == [] then None
    else if route[0] !in network then Some(route[0])
    else FirstUnknown(network, route[1..])
  }

  /**
   * The path built for an explicit route: it departs at `departure`, visits exactly the route's links,
   * and times each one with the travel-time model. A link missing from the network is fatal, since the
   * model is then handed a null link.
   */
  function RoutePath(network: set<LinkId>, tt: TravelTime, route: seq<LinkId>, departure: real): Result<Path> {
    match FirstUnknown(network, route)
    case Some(l) => Failure(UnknownLink(l))
    case None =>
      var times := StampedTimes(tt, route, departure);
      Success(Path(departure, Sum(times), route, times))
  }

  /** The times of the first `k` links are a prefix of the times of the first `n`. */
  lemma {:induction false} StampedPrefix(tt: TravelTime, route: seq<LinkId>, departure: real, k: nat, n: nat)
    requires k <= n <= |route|
    ensures StampedUpTo(tt, route, departure, n)[..k] == StampedUpTo(tt, route, departure, k)
    decreases n
  {
    if k < n {
      StampedPrefix(tt, route, departure, k, n - 1);
      var before := StampedUpTo(tt, route, departure, n - 1);
      assert StampedUpTo(tt, route, departure, n)[..k] == before[..k];
    } else {
      assert StampedUpTo(tt, route, departure, n)[..k] == StampedUpTo(tt, route, departure, n);
    }
  }

  /** Each link's time is the model's value at the moment the link is entered. */
  lemma StampedAt(tt: TravelTime, route: seq<LinkId>, departure: real, k: nat)
    requires k < |route|
    ensures StampedTimes(tt, route, departure)[k]
         == tt(route[k], departure + Sum(StampedTimes(tt, route, departure)[..k]))
  {
    var times := StampedTimes(tt, route, departure);
    StampedPrefix(tt, route, departure, k + 1, |route|);
    StampedPrefix(tt, route, departure, k, |route|);
    assert times[..k + 1][k] == times[k];
  }

  lemma SumSnoc(s: seq<real>, x: real)
    ensures Sum(s + [x]) == Sum(s) + x
  {
    assert (s + [x])[..|s|] == s;
  }

  /** With a travel-time model that never goes negative, a stamped route never arrives before it departs. */
  lemma {:induction false} StampedNonNegative(tt: TravelTime, route: seq<LinkId>, departure: real, k: nat)
    requires forall l, t :: tt(l, t) >= 0.0
    requires k <= |route|
    ensures Sum(StampedUpTo(tt, route, departure, k)) >= 0.0
    decreases k
  {
    if k > 0 {
      var before := StampedUpTo(tt, route, departure, k - 1);
      StampedNonNegative(tt, route, departure, k - 1);
      SumSnoc(before, tt(route[k - 1], departure + Sum(before)));
    }
  }

  /**
   * createPath's loop: walks the route, looking each link up in the network and stamping its travel
   * time at the running enter time into `links` and `travelTimes`, until a link is missing.
   */
  method StampRoute(network: set<LinkId>, tt: TravelTime, route: seq<LinkId>, departure: real,
                    links: array<LinkId>, travelTimes: array<real>)
    returns (unknown: Option<LinkId>, routeTravelTime: real)
    requires links.Length == |route| == travelTimes.Length
    modifies links, travelTimes
    ensures unknown == FirstUnknown(network, route)
    ensures unknown.None? ==>
              && links[..] == route && travelTimes[..] == StampedTimes(tt, route, departure)
              && routeTravelTime == Sum(travelTimes[..])
  {
    routeTravelTime := 0.0;
    var enterTime := departure;
    var k := 0;
    while k < |route|
      invariant 0 <= k <= |route|
      invariant FirstUnknown(network, route[k..]) == FirstUnknown(network, route)
      invariant links[..k] == route[..k]
      invariant travelTimes[..k] == StampedUpTo(tt, route, departure, k)
      invariant routeTravelTime == Sum(travelTimes[..k])
      invariant enterTime == departure + routeTravelTime
    {
      assert route[k..][0] == route[k] && route[k..][1..] == route[k + 1..];
      if route[k] !in network {
        return Some(route[k]), routeTravelTime;
      }
      var time := tt(route[k], enterTime);
      SumSnoc(travelTimes[..k], time);
      StampLink(links, travelTimes, k, route[k], time);
      assert route[..k + 1] == route[..k] + [route[k]];
      routeTravelTime := routeTravelTime + time;
      enterTime := enterTime + time;
      k := k + 1;
    }
    assert route[..k] == route && route[k..] == [];
    assert links[..] == links[..k];
    assert travelTimes[..] == travelTimes[..k];
    unknown := None;
  }

  /** Writes the `k`-th link and its travel time, keeping what is written before it. */
  method StampLink(links: array<LinkId>, travelTimes: array<real>, k: nat, link: LinkId, time: real)
    requires k < links.Length && k < travelTimes.Length
    modifies links, travelTimes
    ensures links[..k + 1] == old(links[..k]) + [link]
    ensures travelTimes[..k + 1] == old(travelTimes[..k]) + [time]
  {
    links[k] := link;
    travelTimes[k] := time;
    assert links[..k + 1] == old(links[..k]) + [link];
  }

  /** createPath: a path over fresh arrays holding the stamped route, or the first unknown link. */
  method CreatePath(network: set<LinkId>, tt: TravelTime, route: seq<LinkId>, departure: real)
    returns (r: Result<Path>)
    ensures r == RoutePath(network, tt, route, departure)
    ensures r.Success? ==> r.value.links == route && r.value.departureTime == departure
  {
    var links := new LinkId[|route|];
    var travelTimes := new real[|route|];
    var unknown, routeTravelTime := StampRoute(network, tt, route, departure, links, travelTimes);
    if unknown.Some? {
      return Failure(UnknownLink(unknown.value));
    }
    r := Success(Path(departure, routeTravelTime, links[..], travelTimes[..]));
  }
}
