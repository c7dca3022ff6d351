/**
 * What the tabu search of test2.py keeps from one iteration to the next:
 * the solutions it accepted get strictly cheaper one after the other, so
 * its tabu list, which holds the last of them, never stops a neighbour
 * that is cheaper than the best one.
 */
module Test2Progress {
  import opened Routes
  import opened TabuMemory
  import opened TimeWindows
  import opened Test2Moves

  /** Solution i of the list costs strictly more than every later one. */
  predicate StrictlyCheaper(dist: Table, accepted: seq<Solution>)
    requires IsTable(dist) && forall q :: 0 <= q < |accepted| ==> InRange(accepted[q], |dist|)
  {
    forall i, j :: 0 <= i < j < |accepted| ==> SolHops(dist, accepted[i]) > SolHops(dist, accepted[j])
  }

  /** The solutions accepted so far: each costs strictly more than every
      later one, and the last one costs the best cost. */
  predicate AcceptedChain(dist: Table, accepted: seq<Solution>, bestCost: int)
    requires IsTable(dist)
  {
    && (forall q :: 0 <= q < |accepted| ==> InRange(accepted[q], |dist|))
    && StrictlyCheaper(dist, accepted)
    && (accepted != [] ==> SolHops(dist, accepted[|accepted| - 1]) == bestCost)
  }

  /** Accepting a solution cheaper than the best cost extends the chain,
      with the new solution's cost as the best cost. */
  lemma AcceptCheaper(dist: Table, accepted: seq<Solution>, bestCost: int, sol: Solution)
    requires IsTable(dist) && InRange(sol, |dist|)
    requires AcceptedChain(dist, accepted, bestCost)
    requires SolHops(dist, sol) < bestCost
    ensures AcceptedChain(dist, accepted + [sol], SolHops(dist, sol))
  {
    var grown := accepted + [sol];
    forall i, j | 0 <= i < j < |grown|
      ensures SolHops(dist, grown[i]) > SolHops(dist, grown[j])
    {
      if j == |accepted| && i < |accepted| - 1 {
        assert SolHops(dist, accepted[i]) > SolHops(dist, accepted[|accepted| - 1]);
      }
    }
  }

  /** The tabu test of `tabu_search` never rejects anything: every tabu
      entry was accepted, so it costs at least the best cost, while a
      neighbour reaches the test only when it is strictly cheaper. */
  lemma TabuNeverBlocks(dist: Table, accepted: seq<Solution>, tabuSize: int, bestCost: int, neighbor: Solution)
    requires IsTable(dist) && InRange(neighbor, |dist|)
    requires AcceptedChain(dist, accepted, bestCost)
    requires SolHops(dist, neighbor) < bestCost
    ensures neighbor !in Window(accepted, tabuSize)
  {
    var w := Window(accepted, tabuSize);
    forall i | 0 <= i < |w|
      ensures InRange(w[i], |dist|) && SolHops(dist, w[i]) >= bestCost
    {
      assert w[i] == accepted[|accepted| - |w| + i];
    }
  }

  /** What `tabu_search` keeps between iterations: the best solution has
      the shape of the initial routes and costs `bestCost`; once the search
      has improved on the initial routes, it is on time everywhere and
      strictly shorter than them, and until then it costs what they cost;
      the accepted solutions form a chain ending at the best cost, and the
      tabu list is their last `tabu_size` entries. */
  ghost predicate Progress(dist: Table, cities: seq<City>, k: int, tabuSize: int, initialCost: int, improved: bool,
                           best: Solution, bestCost: int, accepted: seq<Solution>, tabuList: seq<Solution>)
    requires Instance(dist, cities)
  {
    && WrappedShape(best, k, |cities|)
    && bestCost == SolHops(dist, best)
    && (improved ==> AllOnTime(dist, cities, best) && bestCost < initialCost)
    && (!improved ==> bestCost == initialCost)
    && AcceptedChain(dist, accepted, bestCost)
    && tabuList == Window(accepted, tabuSize)
  }

  /** Accepting an on-time neighbour of the right shape that is strictly
      shorter than the best solution keeps the search's state, now improved:
      the neighbour becomes the best, joins the chain, and recording it in
      the tabu list slides the window over the accepted solutions. */
  lemma AcceptKeepsProgress(dist: Table, cities: seq<City>, k: int, tabuSize: int, initialCost: int, improved: bool,
                            best: Solution, bestCost: int, accepted: seq<Solution>, tabuList: seq<Solution>,
                            neighbor: Solution)
    requires Instance(dist, cities)
    requires Progress(dist, cities, k, tabuSize, initialCost, improved, best, bestCost, accepted, tabuList)
    requires WrappedShape(neighbor, k, |cities|)
    requires AllOnTime(dist, cities, neighbor) && SolHops(dist, neighbor) < bestCost
    ensures Progress(dist, cities, k, tabuSize, initialCost, true, neighbor, SolHops(dist, neighbor),
                     accepted + [neighbor], Record(tabuList, neighbor, tabuSize))
  {
    AcceptCheaper(dist, accepted, bestCost, neighbor);
    RecordSlides(accepted, neighbor, tabuSize);
  }
}
