/** Answers the dispatcher's travel-time queries against the simulation's live travel-time model. */
module TravelTimes {
  import opened Common

  /** The link ids a query is answered for: the distinct requested ids, or every network link if none. */
  function QueriedLinks(network: set<LinkId>, links: seq<LinkId>): set<LinkId> {
    var requested := set l | l in links;
    if requested == {} then network else requested
  }

  /** Whether every requested id names a network link. */
  predicate Answerable(network: set<LinkId>, links: seq<LinkId>) {
    forall k :: 0 <= k < |links| ==> links[k] in network
  }

  /** The travel times of the queried links at `now`. */
  function TravelTimesAt(network: set<LinkId>, tt: TravelTime, links: seq<LinkId>, now: real): map<LinkId, real> {
    map l | l in QueriedLinks(network, links) :: tt(l, now)
  }

  class TravelTimeManager {
    const network: set<LinkId>
    const travelTime: TravelTime

    constructor (network: set<LinkId>, travelTime: TravelTime)
      ensures this.network == network && this.travelTime == travelTime
    {
      this.network := network;
      this.travelTime := travelTime;
    }

    /**
     * Collects the requested ids into a set, falls back to every network link when the set is empty,
     * and maps each id to its travel time at `now`. A requested id the network lacks gives the model a
     * null link, which is fatal.
     */
    method Query(links: seq<LinkId>, now: real) returns (r: Result<map<LinkId, real>>)
      ensures r.Success? <==> Answerable(network, links)
      ensures r.Success? ==> r.value.Keys == QueriedLinks(network, links)
      ensures r.Success? ==> forall l :: l in r.value ==> r.value[l] == travelTime(l, now)
      ensures r.Success? ==> r.value == TravelTimesAt(network, travelTime, links, now)
      ensures r.Failure? ==> r.error.UnknownLink? && r.error.link in links && r.error.link !in network
    {
      var ids: set<LinkId> := {};
      var k := 0;
      while k < |links|
        invariant 0 <= k <= |links|
        invariant ids == set j | 0 <= j < k :: links[j]
      {
        ids := ids + {links[k]};
        k := k + 1;
      }
      assert ids == set l | l in links by {
        forall l | l in links ensures l in ids {
          var j :| 0 <= j < |links| && links[j] == l;
        }
      }
      if |ids| == 0 {
        ids := network;
      }
      assert ids == QueriedLinks(network, links);
      var response: map<LinkId, real> := map[];
      var rest := ids;
      while rest != {}
        invariant rest <= ids
        invariant response.Keys == ids - rest
        invariant forall l :: l in response ==> response[l] == travelTime(l, now) && l in network
        decreases rest
      {
        var l :| l in rest;
        if l !in network {
          return Failure(UnknownLink(l));
        }
        response := response[l := travelTime(l, now)];
        rest := rest - {l};
      }
      r := Success(response);
    }
  }
}
