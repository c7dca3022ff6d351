/**
 * The main loop of the search shared by vrp_solver.py, stats.py, space.py,
 * vrp.py and test.py: `nb_iterations` iterations of `TabuSearch.Step` from
 * the initial solution, and the properties the loop keeps.
 */
module SearchLoop {
  import opened Routes
  import opened Costs
  import opened TabuMemory
  import opened TabuSearch

  /** The initial solution indexes the table and its start state satisfies
      the invariant. */
  predicate Startable(c: Config, init: Solution)
  {
    var ok := ValidConfig(c) && InRange(init, |c.tempo|) && Inv(c, Start(c, init)); ok
  }

  /** The state after n iterations, iteration `it` being the one numbered it. */
  ghost function Run(c: Config, init: Solution, n: nat): (r: State)
    requires Startable(c, init)
    ensures Inv(c, r)
    decreases n
  {
    if n == 0 then Start(c, init) else Step(c, Run(c, init, n - 1), n - 1)
  }

  /** One more iteration is one more step. */
  lemma RunStep(c: Config, init: Solution, n: nat)
    requires Startable(c, init)
    ensures Run(c, init, n + 1) == Step(c, Run(c, init, n), n)
  {
  }

  /** The current solutions the first n iterations move to, in order. */
  ghost function Visits(c: Config, init: Solution, n: nat): (v: seq<Solution>)
    requires Startable(c, init)
    ensures |v| == n
    decreases n
  {
    if n == 0 then [] else Visits(c, init, n - 1) + [Run(c, init, n).current]
  }

  /** What the loop keeps about its state and the solutions it has visited:
      `Inv` and `Tracked`, taken as one fact. */
  predicate Kept(c: Config, s: State, visited: seq<Solution>)
  {
    var ok := Inv(c, s) && Tracked(c, s, visited); ok
  }

  /** When the list may hold any entry, the tabu list of a tracked state ends
      with the current solution once an iteration has run. */
  lemma TrackedNewest(c: Config, s: State, visited: seq<Solution>)
    requires Kept(c, s, visited)
    requires |visited| >= 1 ==> visited[|visited| - 1] == s.current
    ensures |visited| >= 1 && c.tabuSize >= 1 ==> |s.tabu| >= 1 && s.tabu[|s.tabu| - 1] == s.current
  {
    if |visited| >= 1 && c.tabuSize >= 1 {
      WindowNewest(visited, c.tabuSize);
    }
  }

  /** What holds after `it` iterations of the loop: the state is the one
      `Run` reaches, `visited` lists the current solution after each
      iteration, the state keeps `Kept`, the history has one entry per
      iteration plus the initial cost it starts with, and the incumbent is
      the initial solution or a visited one. */
  ghost predicate Looped(c: Config, init: Solution, it: nat, s: State, visited: seq<Solution>)
  {
    var ok := Startable(c, init) && s == Run(c, init, it) && visited == Visits(c, init, it)
      && Kept(c, s, visited)
      && |s.history| == it + 1 && s.history[0] == Cost(c, init)
      && (s.best == init || s.best in visited);
    ok
  }

  /** One pass of the loop body takes the loop from `it` iterations to
      `it + 1`, the new current solution being visited. */
  method Advance(c: Config, init: Solution, s: State, it: nat, ghost visited: seq<Solution>)
    returns (t: State)
    requires Looped(c, init, it, s, visited)
    ensures Looped(c, init, it + 1, t, visited + [t.current])
  {
    t := Iterate(c, s, it);
    StepTracked(c, s, it, visited, t);
    RunStep(c, init, it);
  }

  /** The main loop of the copies, iteration by iteration, from a
      well-formed initial solution: it ends in the state `Run` reaches, the
      ghost `visited` lists the current solution after each iteration, and
      the loop's invariants are the properties the search keeps. */
  method Search(c: Config, init: Solution, iters: nat) returns (s: State, ghost visited: seq<Solution>)
    requires ValidConfig(c) && WellFormed(init, c.k, c.nbr)
    ensures InRange(init, |c.tempo|) && Kept(c, s, visited)
    ensures Startable(c, init) && s == Run(c, init, iters) && visited == Visits(c, init, iters)
    ensures iters > 0 ==> visited[iters - 1] == s.current
    ensures |visited| >= 1 && c.tabuSize >= 1 ==> |s.tabu| >= 1 && s.tabu[|s.tabu| - 1] == s.current
    ensures |s.history| == iters + 1
    ensures s.history[0] == Cost(c, init) && s.bestCost <= Cost(c, init)
    ensures s.best == init || s.best in visited
  {
    StartInv(c, init);
    var meilleurCout := TotalCost(c.knobs.formula, init, c.tempo);
    s := State(init, init, meilleurCout, [], [meilleurCout]);
    visited := [];
    var it := 0;
    while it < iters
      invariant 0 <= it <= iters && Looped(c, init, it, s, visited)
    {
      var t := Advance(c, init, s, it, visited);
      visited := visited + [t.current];
      s := t;
      it := it + 1;
    }
    TrackedNewest(c, s, visited);
  }
}
