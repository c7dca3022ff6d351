/**
 * Total-cost evaluation of a solution over an integer travel-time table,
 * in the two formulas the copies use, and the proof that on depot-anchored
 * tours both are the plain sum of consecutive hops.
 */
module Costs {
  import opened Routes

  /** The two cost formulas found among the copies. */
  datatype Formula =
    | Anchored  // vrp_solver.py, space.py: reads the depot leg as tempo[0][tour[1]]
    | Open      // vrp.py, test.py: adds a depot leg before tour[0] and after the last city

  /** The cost one tour contributes. */
  function TourCost(f: Formula, tempo: Table, t: Tour): int
    requires IsTable(tempo) && InRangeTour(t, |tempo|)
  {
    match f
    case Anchored =>
      if |t| >= 2 then tempo[0][t[1]] + Hops(tempo, t, 1, |t| - 1) + tempo[t[|t| - 1]][0] else 0
    case Open =>
      if |t| > 0 then tempo[0][t[0]] + Hops(tempo, t, 0, |t| - 1) + tempo[t[|t| - 1]][0] else 0
  }

  /** `calculer_cout_total`: the tours' costs added up. */
  function SolCost(f: Formula, tempo: Table, sol: Solution): int
    requires IsTable(tempo) && InRange(sol, |tempo|)
  {
    if sol == [] then 0 else SolCost(f, tempo, sol[..|sol| - 1]) + TourCost(f, tempo, sol[|sol| - 1])
  }

  /** Tours that start and end at the depot, or are empty. */
  predicate DepotAnchored(sol: Solution)
  {
    forall q :: 0 <= q < |sol| && |sol[q]| > 0 ==> sol[q][0] == 0 && sol[q][|sol[q]| - 1] == 0
  }

  /** On a depot-anchored tour either formula is the sum of its consecutive hops,
      because the table's diagonal is zero. */
  lemma TourCostIsHopSum(f: Formula, tempo: Table, t: Tour)
    requires IsTable(tempo) && InRangeTour(t, |tempo|)
    requires |t| > 0 ==> t[0] == 0 && t[|t| - 1] == 0
    ensures TourCost(f, tempo, t) == HopSum(tempo, t)
  {
    if |t| >= 2 {
      HopsFront(tempo, t, 0, |t| - 1);
    }
  }

  /** The cost of a depot-anchored solution is the sum of tempo over the
      consecutive pairs of all its tours, whichever formula computes it. */
  lemma {:induction false} SolCostIsHopSum(f: Formula, tempo: Table, sol: Solution)
    requires IsTable(tempo) && InRange(sol, |tempo|) && DepotAnchored(sol)
    ensures SolCost(f, tempo, sol) == SolHops(tempo, sol)
    decreases |sol|
  {
    if sol != [] {
      var n := |sol|;
      SolCostIsHopSum(f, tempo, sol[..n - 1]);
      TourCostIsHopSum(f, tempo, sol[n - 1]);
    }
  }

  /** The two copies of `calculer_cout_total` agree on every depot-anchored solution. */
  lemma FormulasAgree(tempo: Table, sol: Solution)
    requires IsTable(tempo) && InRange(sol, |tempo|) && DepotAnchored(sol)
    ensures SolCost(Anchored, tempo, sol) == SolCost(Open, tempo, sol)
  {
    SolCostIsHopSum(Anchored, tempo, sol);
    SolCostIsHopSum(Open, tempo, sol);
  }

  /** They differ on a tour that does not start at the depot: for [1, 0] the
      anchored formula counts tempo[0][0] + tempo[0][0], the open one
      tempo[0][1] + tempo[1][0] + tempo[0][0]. */
  lemma FormulasDifferOffDepot(tempo: Table)
    requires IsTable(tempo) && |tempo| >= 2
    ensures SolCost(Anchored, tempo, [[1, 0]]) == 0
    ensures SolCost(Open, tempo, [[1, 0]]) == tempo[0][1] + tempo[1][0]
  {
    var sol: Solution := [[1, 0]];
    assert sol[..0] == [];
  }

  /** A well-formed solution is depot-anchored. */
  lemma WellFormedAnchored(sol: Solution, k: int, nbr: int)
    requires WellFormed(sol, k, nbr)
    ensures DepotAnchored(sol)
  {
    forall q | 0 <= q < |sol| && |sol[q]| > 0
      ensures sol[q][0] == 0 && sol[q][|sol[q]| - 1] == 0
    {
      assert GoodTour(sol[q]);
    }
  }

  /** `calculer_cout_total` of vrp_solver.py and space.py, loop for loop. */
  method AnchoredTotalCost(sol: Solution, tempo: Table) returns (cout: int)
    requires IsTable(tempo) && InRange(sol, |tempo|)
    ensures cout == SolCost(Anchored, tempo, sol)
  {
    cout := 0;
    var m := 0;
    while m < |sol|
      invariant 0 <= m <= |sol|
      invariant cout == SolCost(Anchored, tempo, sol[..m])
    {
      var tour := sol[m];
      assert sol[..m + 1][..m] == sol[..m];
      ghost var before := cout;
      if |tour| >= 2 {
        cout := cout + tempo[0][tour[1]];
        var i := 1;
        while i < |tour| - 1
          invariant 1 <= i <= |tour| - 1
          invariant cout == before + tempo[0][tour[1]] + Hops(tempo, tour, 1, i)
        {
          cout := cout + tempo[tour[i]][tour[i + 1]];
          i := i + 1;
        }
        cout := cout + tempo[tour[|tour| - 1]][0];
      }
      m := m + 1;
    }
    assert sol[..|sol|] == sol;
  }

  /** `calculer_cout_total` of vrp.py and test.py, loop for loop. */
  method OpenTotalCost(sol: Solution, tempo: Table) returns (cout: int)
    requires IsTable(tempo) && InRange(sol, |tempo|)
    ensures cout == SolCost(Open, tempo, sol)
  {
    cout := 0;
    var m := 0;
    while m < |sol|
      invariant 0 <= m <= |sol|
      invariant cout == SolCost(Open, tempo, sol[..m])
    {
      var route := sol[m];
      assert sol[..m + 1][..m] == sol[..m];
      ghost var before := cout;
      if |route| > 0 {
        cout := cout + tempo[0][route[0]];
        var i := 0;
        while i < |route| - 1
          invariant 0 <= i <= |route| - 1
          invariant cout == before + tempo[0][route[0]] + Hops(tempo, route, 0, i)
        {
          cout := cout + tempo[route[i]][route[i + 1]];
          i := i + 1;
        }
        cout := cout + tempo[route[|route| - 1]][0];
      }
      m := m + 1;
    }
    assert sol[..|sol|] == sol;
  }

  /** Either cost method, chosen by formula. */
  method TotalCost(f: Formula, sol: Solution, tempo: Table) returns (cout: int)
    requires IsTable(tempo) && InRange(sol, |tempo|)
    ensures cout == SolCost(f, tempo, sol)
  {
    match f
    case Anchored => cout := AnchoredTotalCost(sol, tempo);
    case Open => cout := OpenTotalCost(sol, tempo);
  }
}
