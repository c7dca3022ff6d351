/**
 * test.py: the search of vrp.py with the instance size taken from the
 * table, and `suivant`, which takes the edges leaving a city out of an
 * edge list in place.
 */
module Test {
  import opened Outcomes
  import opened Routes
  import opened Costs
  import opened RoundRobin
  import opened Initialisation
  import opened TabuMemory
  import opened TabuSearch
  import opened SearchLoop

  /** How the search of test.py differs from the other copies. */
  const TestKnobs := Knobs(Open, false, false)

  /** `nb_iterations = 10`. */
  const Iterations: nat := 10

  /** The search on the `len(tempo)` cities of the table. The returned cost
      is the cost of the returned solution, the sum of its hops, and no more
      than the initial solution's. */
  method RechercheTabouVrp(tempo: Table, k: int, clients: seq<int>, draws: Draws)
    returns (r: Result<(Solution, int)>)
    requires IsTable(tempo) && k >= 1 && Shuffled(clients, |tempo|)
    ensures r.Failure? <==> |tempo| - 1 < k
    ensures r.Success? ==>
      && WellFormed(r.value.0, k, |tempo|)
      && r.value.1 == SolCost(Open, tempo, r.value.0)
      && r.value.1 == SolHops(tempo, r.value.0)
      && InRange(AnchoredTours(clients, k), |tempo|)
      && r.value.1 <= SolCost(Open, tempo, AnchoredTours(clients, k))
  {
    var n := |tempo|;
    var init := InitialiserSolution(k, n, clients);
    if init.Failure? {
      return Failure(init.error);
    }
    var c := Config(TestKnobs, tempo, k, n, TabuSize(n, k), draws);
    var s;
    ghost var visited;
    s, visited := Search(c, init.value, Iterations);
    WellFormedAnchored(s.best, k, n);
    SolCostIsHopSum(Open, tempo, s.best);
    r := Success((s.best, s.bestCost));
  }

  /** An edge (i, j) from city i to city j. */
  type Edge = (int, int)

  /** `[e for e in aretes if e[0] == parent]`. */
  function From(s: seq<Edge>, parent: int): seq<Edge>
  {
    if s == [] then [] else (if s[0].0 == parent then [s[0]] else []) + From(s[1..], parent)
  }

  /** The edges of s that do not leave `parent`, in their order. */
  function Others(s: seq<Edge>, parent: int): seq<Edge>
  {
    if s == [] then [] else (if s[0].0 != parent then [s[0]] else []) + Others(s[1..], parent)
  }

  /** `list.remove(e)`: the first occurrence of e taken out. */
  function RemoveFirst(s: seq<Edge>, e: Edge): seq<Edge>
  {
    if s == [] then [] else if s[0] == e then s[1..] else [s[0]] + RemoveFirst(s[1..], e)
  }

  /** s with the first m edges leaving `parent` taken out. */
  function DropFirst(s: seq<Edge>, parent: int, m: nat): seq<Edge>
  {
    if s == [] then []
    else if s[0].0 == parent && m > 0 then DropFirst(s[1..], parent, m - 1)
    else [s[0]] + DropFirst(s[1..], parent, m)
  }

  /** The two filters split the list: every edge goes to exactly one side. */
  lemma {:induction false} FiltersSplit(s: seq<Edge>, parent: int)
    ensures multiset(From(s, parent)) + multiset(Others(s, parent)) == multiset(s)
  {
    if s != [] {
      FiltersSplit(s[1..], parent);
      assert s == [s[0]] + s[1..];
      assert multiset(s) == multiset{s[0]} + multiset(s[1..]);
    }
  }

  /** The selected edges leave `parent`; the other edges do not. */
  lemma {:induction false} FiltersBySource(s: seq<Edge>, parent: int)
    ensures forall e :: e in From(s, parent) ==> e.0 == parent
    ensures forall e :: e in Others(s, parent) ==> e.0 != parent
  {
    if s != [] {
      FiltersBySource(s[1..], parent);
    }
  }

  /** Taking out none leaves the list as it is. */
  lemma {:induction false} DropNone(s: seq<Edge>, parent: int)
    ensures DropFirst(s, parent, 0) == s
  {
    if s != [] {
      DropNone(s[1..], parent);
    }
  }

  /** Removing the next selected edge takes out exactly the first remaining
      edge that leaves `parent`: every edge before it leaves another city, so
      it cannot be equal to it. */
  lemma {:induction false} RemoveNext(s: seq<Edge>, parent: int, m: nat)
    requires m < |From(s, parent)|
    ensures RemoveFirst(DropFirst(s, parent, m), From(s, parent)[m]) == DropFirst(s, parent, m + 1)
  {
    FiltersBySource(s, parent);
    var e := From(s, parent)[m];
    assert e in From(s, parent);
    if s[0].0 == parent {
      if m > 0 {
        RemoveNext(s[1..], parent, m - 1);
      }
    } else {
      RemoveNext(s[1..], parent, m);
    }
  }

  /** Once all of them are taken out, only the other edges remain. */
  lemma {:induction false} DropAll(s: seq<Edge>, parent: int, m: nat)
    requires m >= |From(s, parent)|
    ensures DropFirst(s, parent, m) == Others(s, parent)
  {
    if s != [] {
      if s[0].0 == parent {
        assert From(s, parent) == [s[0]] + From(s[1..], parent);
        DropAll(s[1..], parent, m - 1);
      } else {
        assert From(s, parent) == From(s[1..], parent);
        DropAll(s[1..], parent, m);
      }
    }
  }

  /** The list of edges `suivant` works on in place. */
  class EdgeList {
    var aretes: seq<Edge>

    constructor(aretes0: seq<Edge>)
      ensures aretes == aretes0
    {
      aretes := aretes0;
    }

    /** `suivant(parent, aretes)`: returns the edges leaving `parent`, in
        their order, and removes them from the list, which keeps all other
        edges in their order. */
    method Suivant(parent: int) returns (edges: seq<Edge>)
      modifies this
      ensures edges == From(old(aretes), parent)
      ensures aretes == Others(old(aretes), parent)
    {
      edges := From(aretes, parent);
      DropNone(aretes, parent);
      var m := 0;
      while m < |edges|
        invariant 0 <= m <= |edges|
        invariant aretes == DropFirst(old(aretes), parent, m)
      {
        RemoveNext(old(aretes), parent, m);
        aretes := RemoveFirst(aretes, edges[m]);
        m := m + 1;
      }
      DropAll(old(aretes), parent, m);
    }
  }
}
