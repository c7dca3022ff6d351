/**
 * `heuristic_vrptw` of charge.py: round-robin routes over a shuffled
 * customer list, then one drive through every route with the time-window
 * clock; the total distance is returned when no arrival was late, and
 * infinity otherwise.
 */
module Charge {
  import opened Routes
  import opened RoundRobin
  import opened TimeWindows

  /** The heuristic on the customers 1 .. len(cities)-1. Its routes are the
      round-robin routes, which partition the customers with the depot around
      every non-empty route; the cost is their total distance when every
      arrival on every route is on time, and infinity as soon as one is late. */
  method HeuristicVrptw(cities: seq<City>, dist: Table, k: int, clients: seq<int>)
    returns (routes: Solution, cost: Extended)
    requires Instance(dist, cities) && k >= 1 && Shuffled(clients, |cities|)
    ensures routes == WrappedTours(clients, k)
    ensures |routes| == k && Partition(routes, |cities|) && InRange(routes, |dist|)
    ensures forall q :: 0 <= q < k ==> routes[q] == [] || GoodTour(routes[q])
    ensures cost.Infinity? <==> !AllOnTime(dist, cities, routes)
    ensures cost.Finite? ==> cost.value == SolHops(dist, routes)
  {
    routes := InitialRoutes(clients, k);
    WrappedToursPartition(clients, k, |cities| - 1);
    var totalCost, feasible := CalculateTotalCost(routes, cities, dist);
    cost := if feasible then Finite(totalCost) else Infinity;
  }
}
