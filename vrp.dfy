/**
 * `recherche_tabou_vrp` of vrp.py: the open cost formula (a depot leg
 * before the first city and after the last one), the validity check
 * without its length guard, ten iterations and a tabu list of
 * `max(30, 10 * len(str(n)) - 1 + k)` entries.
 */
module Vrp {
  import opened Outcomes
  import opened Routes
  import opened Costs
  import opened RoundRobin
  import opened Initialisation
  import opened TabuMemory
  import opened TabuSearch
  import opened SearchLoop

  /** How the search of vrp.py differs from the other copies. */
  const VrpKnobs := Knobs(Open, false, false)

  /** `nb_iterations = 10`. */
  const Iterations: nat := 10

  /** The search, with the time window unread. The returned cost is the
      open-formula cost of the returned solution, which on its
      depot-anchored tours is also the anchored cost of vrp_solver.py and
      the sum of its hops, and no more than the initial solution's. */
  method RechercheTabouVrp(tempo: Table, k: int, nbr: int, timeWindow: int, clients: seq<int>, draws: Draws)
    returns (r: Result<(Solution, int)>)
    requires IsTable(tempo) && nbr <= |tempo| && k >= 1 && Shuffled(clients, nbr)
    ensures r.Failure? <==> nbr - 1 < k
    ensures r.Success? ==>
      && WellFormed(r.value.0, k, nbr) && InRange(r.value.0, |tempo|)
      && r.value.1 == SolCost(Open, tempo, r.value.0)
      && r.value.1 == SolCost(Anchored, tempo, r.value.0)
      && r.value.1 == SolHops(tempo, r.value.0)
      && InRange(AnchoredTours(clients, k), |tempo|)
      && r.value.1 <= SolCost(Open, tempo, AnchoredTours(clients, k))
  {
    var n := nbr;
    var init := InitialiserSolution(k, n, clients);
    if init.Failure? {
      return Failure(init.error);
    }
    var c := Config(VrpKnobs, tempo, k, n, TabuSize(n, k), draws);
    var s;
    ghost var visited;
    s, visited := Search(c, init.value, Iterations);
    WellFormedAnchored(s.best, k, nbr);
    SolCostIsHopSum(Open, tempo, s.best);
    FormulasAgree(tempo, s.best);
    r := Success((s.best, s.bestCost));
  }
}
