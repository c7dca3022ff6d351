/**
 * The move of test2.py: `random.sample` picks two distinct routes, and
 * `swap_clients` exchanges one customer of each; the solutions the search
 * works with keep the shape of the initial routes under it.
 */
module Test2Moves {
  import opened Routes
  import opened RoundRobin
  import opened Moves
  import opened TabuMemory
  import opened TimeWindows

  /** `random.sample(range(k), 2)`, given two raw draws: two distinct
      routes, the second drawn among the k - 1 routes left. */
  function PickPair(x: nat, y: nat, k: int): (p: (int, int))
    requires k >= 2
    ensures 0 <= p.0 < k && 0 <= p.1 < k && p.0 != p.1
  {
    var r1 := x % k;
    var r := y % (k - 1);
    (r1, if r < r1 then r else r + 1)
  }

  /** Every ordered pair of distinct routes is the pick of some draw, so
      taking draws as parameters leaves no run of the source out. */
  lemma PickPairCovers(k: int, r1: int, r2: int)
    requires k >= 2 && 0 <= r1 < k && 0 <= r2 < k && r1 != r2
    ensures PickPair(r1, if r2 < r1 then r2 else r2 - 1, k) == (r1, r2)
  {
    var y := if r2 < r1 then r2 else r2 - 1;
    ModBelow(r1, k);
    ModBelow(y, k - 1);
  }

  /** The raw draws of one iteration: two for `random.sample` and one for
      each `randint`. */
  type Sample = nat -> (nat, nat, nat, nat)

  /** `swap_clients`: on a copy of the routes, one customer of each of two
      distinct routes change places when both routes have a customer. */
  function SwapClients(routes: Solution, x: nat, y: nat, a: nat, b: nat): (newRoutes: Solution)
    requires |routes| >= 2
  {
    var (r1, r2) := PickPair(x, y, |routes|);
    SwapInSolution(routes, r1, r2, a, b)
  }

  /** The solutions test2.py works with: k routes over cities 0 .. nbr-1
      that partition the customers, each empty or depot-anchored. */
  predicate WrappedShape(sol: Solution, k: int, nbr: int)
  {
    && |sol| == k
    && Partition(sol, nbr)
    && InRange(sol, nbr)
    && forall q :: 0 <= q < |sol| ==> sol[q] == [] || GoodTour(sol[q])
  }

  /** A swap only touches the two routes drawn, and keeps the customers,
      every route's length and end points, and so the shape. */
  lemma SwapClientsKeepsShape(routes: Solution, x: nat, y: nat, a: nat, b: nat, k: int, nbr: int)
    requires k >= 2 && WrappedShape(routes, k, nbr)
    ensures var p := PickPair(x, y, k);
      forall q :: 0 <= q < k && q != p.0 && q != p.1 ==> SwapClients(routes, x, y, a, b)[q] == routes[q]
    ensures WrappedShape(SwapClients(routes, x, y, a, b), k, nbr)
  {
    var (r1, r2) := PickPair(x, y, k);
    var s := SwapClients(routes, x, y, a, b);
    SwapKeepsCustomers(routes, r1, r2, a, b);
    SwapKeepsTours(routes, r1, r2, a, b);
    SwapKeepsRange(routes, r1, r2, a, b, nbr);
    forall q | 0 <= q < k
      ensures s[q] == [] || GoodTour(s[q])
    {
      if routes[q] == [] {
        assert |s[q]| == 0;
      }
    }
  }

}
