/**
 * `recherche_tabou_vrp` of vrp_solver.py: the anchored cost formula, the
 * validity check with its length guard, a tabu list of
 * `max(30, 10 * len(str(nbr)) - 1 + k)` entries and `min(1000, 50 * nbr)`
 * iterations, starting from `initialiser_solution`.
 */
module VrpSolver {
  import opened Outcomes
  import opened Routes
  import opened Costs
  import opened RoundRobin
  import opened Initialisation
  import opened TabuMemory
  import opened TabuSearch
  import opened SearchLoop

  /** How the search of vrp_solver.py differs from the other copies. */
  const SolverKnobs := Knobs(Anchored, true, false)

  /** `nb_iterations = min(1000, 50 * nbr)`; a negative count runs no iteration. */
  function Iterations(nbr: int): nat
  {
    if 50 * nbr <= 0 then 0 else if 50 * nbr < 1000 then 50 * nbr else 1000
  }

  /** The search from the initial solution, with the time window unread.
      It fails exactly where `initialiser_solution` would never return, and
      otherwise returns a well-formed solution whose returned cost is its
      cost, the sum of its hops, and no more than the initial solution's. */
  method RechercheTabouVrp(tempo: Table, k: int, nbr: int, timeWindow: int, clients: seq<int>, draws: Draws)
    returns (r: Result<(Solution, int)>)
    requires IsTable(tempo) && nbr <= |tempo| && k >= 1 && Shuffled(clients, nbr)
    ensures r.Failure? <==> nbr - 1 < k
    ensures r.Success? ==>
      && WellFormed(r.value.0, k, nbr) && InRange(r.value.0, |tempo|)
      && r.value.1 == SolCost(Anchored, tempo, r.value.0)
      && r.value.1 == SolHops(tempo, r.value.0)
      && InRange(AnchoredTours(clients, k), |tempo|)
      && r.value.1 <= SolCost(Anchored, tempo, AnchoredTours(clients, k))
  {
    var init := InitialiserSolution(k, nbr, clients);
    if init.Failure? {
      return Failure(init.error);
    }
    var c := Config(SolverKnobs, tempo, k, nbr, TabuSize(nbr, k), draws);
    var s;
    ghost var visited;
    s, visited := Search(c, init.value, Iterations(nbr));
    WellFormedAnchored(s.best, k, nbr);
    SolCostIsHopSum(Anchored, tempo, s.best);
    r := Success((s.best, s.bestCost));
  }
}
