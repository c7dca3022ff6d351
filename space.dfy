/**
 * `recherche_tabou_vrp` of space.py: the search of vrp_solver.py with the
 * tabu size and the iteration count as parameters (50 and 100 by default),
 * the costs per iteration recorded, and the number of iterations run
 * returned as `iteration + 1`.
 */
module Space {
  import opened Outcomes
  import opened Routes
  import opened Costs
  import opened RoundRobin
  import opened Initialisation
  import opened TabuSearch
  import opened SearchLoop

  /** How the search of space.py differs from the other copies. */
  const SpaceKnobs := Knobs(Anchored, true, false)

  /** The search with its cost curve `couts_par_iteration` and iteration
      count. `iteration + 1` is only defined when the loop ran, so at least
      one iteration is required. The curve has one entry more than there are
      iterations, starts with the initial cost, never increases and ends
      with the returned cost. */
  method RechercheTabouVrp(tempo: Table, k: int, nbr: int, timeWindow: int, tailleTabou: int, nbIterations: int,
                           clients: seq<int>, draws: Draws)
    returns (r: Result<(Solution, int, seq<int>, int)>)
    requires IsTable(tempo) && nbr <= |tempo| && k >= 1 && Shuffled(clients, nbr)
    requires nbIterations >= 1
    ensures r.Failure? <==> nbr - 1 < k
    ensures r.Success? ==>
      var (best, cost, couts, iterations) := r.value;
      && WellFormed(best, k, nbr) && InRange(best, |tempo|)
      && cost == SolCost(Anchored, tempo, best)
      && iterations == nbIterations
      && |couts| == nbIterations + 1
      && InRange(AnchoredTours(clients, k), |tempo|)
      && couts[0] == SolCost(Anchored, tempo, AnchoredTours(clients, k))
      && NonIncreasing(couts)
      && couts[|couts| - 1] == cost
  {
    var init := InitialiserSolution(k, nbr, clients);
    if init.Failure? {
      return Failure(init.error);
    }
    var c := Config(SpaceKnobs, tempo, k, nbr, tailleTabou, draws);
    var s;
    ghost var visited;
    s, visited := Search(c, init.value, nbIterations);
    var iteration := nbIterations - 1;
    r := Success((s.best, s.bestCost, s.history, iteration + 1));
  }
}
