/**
 * The time-window simulator shared by test2.py and charge.py: routes are
 * built round-robin with the depot added only around non-empty routes, and
 * each route is driven with a clock that starts at 0, advances by each hop,
 * waits until a city opens when it arrives early, and marks the whole
 * solution infeasible when it arrives after a city has closed.
 */
module TimeWindows {
  import opened Routes
  import opened RoundRobin

  /** A number or `float('inf')`. */
  datatype Extended = Finite(value: int) | Infinity

  /** A city's time window: it opens at `early` and closes at `late`
      (the depot of test2.py never closes). */
  datatype City = City(early: int, late: Extended)

  /** The clock after a hop of `hop` to city c: it waits until c opens. */
  function Arrive(time: int, hop: int, c: City): (t: int)
    ensures t >= time + hop && t >= c.early
    ensures t == time + hop || t == c.early
  {
    if time + hop < c.early then c.early else time + hop
  }

  /** An arrival at `time` misses c's window. */
  predicate TooLate(time: int, c: City)
  {
    c.late.Finite? && time > c.late.value
  }

  /** The distances are a table over the cities, and the routes name cities. */
  predicate Instance(dist: Table, cities: seq<City>)
  {
    IsTable(dist) && |cities| == |dist|
  }

  /** The clock on arrival at position i of a route. */
  function Clock(dist: Table, cities: seq<City>, route: Tour, i: int): int
    requires Instance(dist, cities) && InRangeTour(route, |dist|)
    requires 0 <= i < |route|
  {
    if i == 0 then 0
    else Arrive(Clock(dist, cities, route, i - 1), dist[route[i - 1]][route[i]], cities[route[i]])
  }

  /** The arrival at position i of a route is late. */
  predicate LateAt(dist: Table, cities: seq<City>, route: Tour, i: int)
    requires Instance(dist, cities) && InRangeTour(route, |dist|)
    requires 1 <= i < |route|
  {
    TooLate(Clock(dist, cities, route, i), cities[route[i]])
  }

  /** No arrival along the route is late. */
  predicate RouteOnTime(dist: Table, cities: seq<City>, route: Tour)
    requires Instance(dist, cities) && InRangeTour(route, |dist|)
  {
    forall i :: 1 <= i < |route| ==> !LateAt(dist, cities, route, i)
  }

  /** No arrival on any route is late. */
  predicate AllOnTime(dist: Table, cities: seq<City>, routes: Solution)
    requires Instance(dist, cities) && InRange(routes, |dist|)
  {
    forall q :: 0 <= q < |routes| ==> RouteOnTime(dist, cities, routes[q])
  }

  /** Waiting never puts the clock behind the travel: on arrival at
      position i it shows at least the hop sum up to there. */
  lemma {:induction false} ClockCoversTravel(dist: Table, cities: seq<City>, route: Tour, i: int)
    requires Instance(dist, cities) && InRangeTour(route, |dist|)
    requires 0 <= i < |route|
    ensures Clock(dist, cities, route, i) >= Hops(dist, route, 0, i)
  {
    if i > 0 {
      ClockCoversTravel(dist, cities, route, i - 1);
    }
  }

  /** The clock never runs backwards along a route, and after the first
      position it never shows a time before the city opened. */
  lemma {:induction false} ClockMonotone(dist: Table, cities: seq<City>, route: Tour, i: int, j: int)
    requires Instance(dist, cities) && InRangeTour(route, |dist|)
    requires 0 <= i <= j < |route|
    ensures Clock(dist, cities, route, i) <= Clock(dist, cities, route, j)
    ensures j >= 1 ==> Clock(dist, cities, route, j) >= cities[route[j]].early
    decreases j
  {
    if i < j {
      ClockMonotone(dist, cities, route, i, j - 1);
    }
  }

  /** Without waiting the clock is the travel time: when no city on the
      route opens after the vehicle gets there, the clock is the hop sum. */
  lemma {:induction false} ClockWithoutWaiting(dist: Table, cities: seq<City>, route: Tour, i: int)
    requires Instance(dist, cities) && InRangeTour(route, |dist|)
    requires 0 <= i < |route|
    requires forall p :: 1 <= p <= i ==> cities[route[p]].early <= Hops(dist, route, 0, p)
    ensures Clock(dist, cities, route, i) == Hops(dist, route, 0, i)
  {
    if i > 0 {
      ClockWithoutWaiting(dist, cities, route, i - 1);
    }
  }

  /** `initial_solution` of test2.py and the route building of
      `heuristic_vrptw` in charge.py: customer i of the shuffled list is
      appended to route i % k, then every non-empty route gets the depot at
      both ends and an empty one stays empty. */
  method InitialRoutes(clients: seq<int>, k: int) returns (routes: Solution)
    requires k >= 1
    ensures routes == WrappedTours(clients, k)
  {
    routes := seq(k, _ => []);
    var i := 0;
    while i < |clients|
      invariant 0 <= i <= |clients|
      invariant |routes| == k
      invariant forall r :: 0 <= r < k ==> routes[r] == Bucket(clients[..i], k, r)
    {
      assert clients[..i + 1][..i] == clients[..i];
      routes := routes[i % k := routes[i % k] + [clients[i]]];
      i := i + 1;
    }
    assert clients[..|clients|] == clients;
    var q := 0;
    while q < k
      invariant 0 <= q <= k
      invariant |routes| == k
      invariant forall r :: 0 <= r < q ==> routes[r] == WrappedTours(clients, k)[r]
      invariant forall r :: q <= r < k ==> routes[r] == Bucket(clients, k, r)
    {
      if routes[q] != [] {
        routes := routes[q := [0] + routes[q] + [0]];
      }
      q := q + 1;
    }
  }

  /** `calculate_total_cost` of test2.py, which is also the cost loop of
      `heuristic_vrptw` in charge.py: the distance is the sum of the hops of
      every route, and the solution is feasible exactly when no arrival on
      any route is late. Empty routes are skipped and each route's clock
      starts at 0. */
  method CalculateTotalCost(routes: Solution, cities: seq<City>, dist: Table) returns (totalDistance: int, feasible: bool)
    requires Instance(dist, cities) && InRange(routes, |dist|)
    ensures totalDistance == SolHops(dist, routes)
    ensures feasible <==> AllOnTime(dist, cities, routes)
  {
    totalDistance := 0;
    feasible := true;
    var m := 0;
    while m < |routes|
      invariant 0 <= m <= |routes|
      invariant totalDistance == SolHops(dist, routes[..m])
      invariant feasible <==> AllOnTime(dist, cities, routes[..m])
    {
      assert routes[..m + 1][..m] == routes[..m];
      var d, onTime := DriveRoute(routes[m], cities, dist, feasible);
      totalDistance := totalDistance + d;
      feasible := onTime;
      assert forall q :: 0 <= q < m ==> routes[..m + 1][q] == routes[..m][q];
      m := m + 1;
    }
    assert routes[..|routes|] == routes;
  }

  /** One pass of the outer loop of `calculate_total_cost`: the route's hop
      sum, and the feasibility flag, which falls exactly when it was already
      down or an arrival on this route is late. */
  method DriveRoute(route: Tour, cities: seq<City>, dist: Table, feasible0: bool) returns (d: int, feasible: bool)
    requires Instance(dist, cities) && InRangeTour(route, |dist|)
    ensures d == HopSum(dist, route)
    ensures feasible <==> feasible0 && RouteOnTime(dist, cities, route)
  {
    d := 0;
    feasible := feasible0;
    if route == [] {
      return;
    }
    var time := 0;
    var i := 0;
    while i < |route| - 1
      invariant 0 <= i <= |route| - 1
      invariant time == Clock(dist, cities, route, i)
      invariant d == Hops(dist, route, 0, i)
      invariant feasible <==> feasible0 && forall p :: 1 <= p <= i ==> !LateAt(dist, cities, route, p)
    {
      var hop := dist[route[i]][route[i + 1]];
      d := d + hop;
      time := time + hop;
      if time < cities[route[i + 1]].early {
        time := cities[route[i + 1]].early;
      }
      assert LateAt(dist, cities, route, i + 1) <==> TooLate(time, cities[route[i + 1]]);
      if TooLate(time, cities[route[i + 1]]) {
        feasible := false;
      }
      i := i + 1;
    }
  }
}
