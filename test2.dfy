/**
 * test2.py: a tabu search over the time-window simulator. Each iteration
 * swaps two customers between two distinct routes of the current solution
 * and accepts the result only when it is on time everywhere, strictly
 * shorter than the best so far and not tabu; the tabu list holds the
 * accepted solutions, oldest first.
 */
module Test2 {
  import opened Routes
  import opened RoundRobin
  import opened Moves
  import opened TabuMemory
  import opened TimeWindows
  import opened Test2Moves
  import opened Test2Progress

  /** One pass of the loop of `tabu_search`: the neighbour drawn from the
      current solution is accepted exactly when it is on time everywhere,
      strictly shorter than the best cost and not tabu. An accepted
      neighbour becomes the current and the best solution and is recorded in
      the tabu list, which then drops its oldest entry when it is too long;
      otherwise nothing changes. */
  method Iteration(cities: seq<City>, dist: Table, tabuSize: int,
                   currentSolution: Solution, bestSolution: Solution, bestCost: int, tabuList: seq<Solution>,
                   x: nat, y: nat, a: nat, b: nat)
    returns (accept: bool, current: Solution, best: Solution, cost: int, tabu: seq<Solution>)
    requires Instance(dist, cities) && |currentSolution| >= 2 && InRange(currentSolution, |dist|)
    ensures InRange(SwapClients(currentSolution, x, y, a, b), |dist|)
    ensures var neighbor := SwapClients(currentSolution, x, y, a, b);
      && (accept <==> AllOnTime(dist, cities, neighbor) && SolHops(dist, neighbor) < bestCost && neighbor !in tabuList)
      && (accept ==> current == neighbor && best == neighbor && cost == SolHops(dist, neighbor)
                     && tabu == Record(tabuList, neighbor, tabuSize))
      && (!accept ==> current == currentSolution && best == bestSolution && cost == bestCost && tabu == tabuList)
  {
    var (r1, r2) := PickPair(x, y, |currentSolution|);
    SwapKeepsRange(currentSolution, r1, r2, a, b, |dist|);
    var neighbor := SwapClients(currentSolution, x, y, a, b);
    var neighborCost, feasible := CalculateTotalCost(neighbor, cities, dist);
    current, best, cost, tabu := currentSolution, bestSolution, bestCost, tabuList;
    accept := feasible && neighborCost < bestCost && neighbor !in tabuList;
    if accept {
      current := neighbor;
      best := neighbor;
      cost := neighborCost;
      tabu := tabu + [neighbor];
      if |tabu| > tabuSize {
        tabu := tabu[1..];
      }
    }
  }

  /** `tabu_search`: the search starts from the round-robin routes of the
      shuffled customers and returns the best solution the loop finds. The
      result has the shape of the initial routes, and it is either the
      initial routes or a solution that is on time everywhere and strictly
      shorter than they are. */
  method TabuSearch(cities: seq<City>, dist: Table, k: int, maxIter: int, tabuSize: int,
                    clients: seq<int>, sample: Sample)
    returns (bestSolution: Solution)
    requires Instance(dist, cities) && k >= 1 && Shuffled(clients, |cities|)
    requires maxIter > 0 ==> k >= 2
    ensures WrappedShape(bestSolution, k, |cities|)
    ensures InRange(WrappedTours(clients, k), |dist|)
    ensures bestSolution == WrappedTours(clients, k) ||
      (AllOnTime(dist, cities, bestSolution) && SolHops(dist, bestSolution) < SolHops(dist, WrappedTours(clients, k)))
  {
    var initial := InitialRoutes(clients, k);
    WrappedToursPartition(clients, k, |cities| - 1);
    bestSolution := SearchFrom(cities, dist, k, maxIter, tabuSize, initial, sample);
  }

  /** The loop of `tabu_search` from a solution of the search's shape: the
      current solution stays equal to the best one, which is returned. It
      keeps the shape, and it is either the start or a solution that is on
      time everywhere and strictly shorter than it. */
  method SearchFrom(cities: seq<City>, dist: Table, k: int, maxIter: int, tabuSize: int,
                    initial: Solution, sample: Sample)
    returns (bestSolution: Solution)
    requires Instance(dist, cities) && WrappedShape(initial, k, |cities|)
    requires maxIter > 0 ==> k >= 2
    ensures WrappedShape(bestSolution, k, |cities|)
    ensures bestSolution == initial ||
      (AllOnTime(dist, cities, bestSolution) && SolHops(dist, bestSolution) < SolHops(dist, initial))
  {
    var currentSolution := initial;
    bestSolution := currentSolution;
    var bestCost, _ := CalculateTotalCost(bestSolution, cities, dist);
    ghost var initialCost := bestCost;
    var tabuList: seq<Solution> := [];
    ghost var accepted: seq<Solution> := [];
    ghost var improved := false;
    var it := 0;
    while it < maxIter
      invariant currentSolution == bestSolution
      invariant !improved ==> bestSolution == initial
      invariant Progress(dist, cities, k, tabuSize, initialCost, improved, bestSolution, bestCost, accepted, tabuList)
    {
      var (x, y, a, b) := sample(it);
      SwapClientsKeepsShape(currentSolution, x, y, a, b, k, |cities|);
      ghost var neighbor := SwapClients(currentSolution, x, y, a, b);
      ghost var before, prevBest, prevTabu := bestCost, bestSolution, tabuList;
      var accept;
      accept, currentSolution, bestSolution, bestCost, tabuList :=
        Iteration(cities, dist, tabuSize, currentSolution, bestSolution, bestCost, tabuList, x, y, a, b);
      if accept {
        AcceptKeepsProgress(dist, cities, k, tabuSize, initialCost, improved, prevBest, before,
                            accepted, prevTabu, neighbor);
        accepted := accepted + [neighbor];
        improved := true;
      }
      it := it + 1;
    }
  }
}
