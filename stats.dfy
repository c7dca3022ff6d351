/**
 * `recherche_tabou_vrp_param` of stats.py: the anchored cost formula, the
 * validity check without its length guard, a neighbour kept only when both
 * tours had a customer to swap, the iteration count and the tabu size as
 * parameters, and the incumbent's cost recorded after every iteration.
 */
module Stats {
  import opened Outcomes
  import opened Routes
  import opened Costs
  import opened RoundRobin
  import opened Initialisation
  import opened TabuSearch
  import opened SearchLoop

  /** How the search of stats.py differs from the other copies. */
  const StatsKnobs := Knobs(Anchored, false, true)

  /** The search and its convergence history `hist_costs`. It fails exactly
      where the inner `initialiser_solution` would never return. Otherwise
      the history starts with the initial cost, has one more entry per
      iteration, never increases and ends with the returned cost, which is
      the cost of the returned well-formed solution. */
  method RechercheTabouVrpParam(tempo: Table, k: int, n: int, timeWindow: int, nbIterations: int, tailleTabou: int,
                                clients: seq<int>, draws: Draws)
    returns (r: Result<(Solution, int, seq<int>)>)
    requires IsTable(tempo) && n <= |tempo| && k >= 1 && Shuffled(clients, n)
    ensures r.Failure? <==> n - 1 < k
    ensures r.Success? ==>
      var (best, cost, hist) := r.value;
      && WellFormed(best, k, n) && InRange(best, |tempo|)
      && cost == SolCost(Anchored, tempo, best)
      && |hist| == (if nbIterations > 0 then nbIterations else 0) + 1
      && InRange(AnchoredTours(clients, k), |tempo|)
      && hist[0] == SolCost(Anchored, tempo, AnchoredTours(clients, k))
      && NonIncreasing(hist)
      && hist[|hist| - 1] == cost
  {
    var init := InitialiserSolution(k, n, clients);
    if init.Failure? {
      return Failure(init.error);
    }
    var c := Config(StatsKnobs, tempo, k, n, tailleTabou, draws);
    var iterations := if nbIterations > 0 then nbIterations else 0;
    var s;
    ghost var visited;
    s, visited := Search(c, init.value, iterations);
    r := Success((s.best, s.bestCost, s.history));
  }
}
