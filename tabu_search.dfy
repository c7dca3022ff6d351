/**
 * The tabu search shared by vrp_solver.py, stats.py, space.py, vrp.py and
 * test.py. Each iteration builds one neighbour per tour pair (i, j), i < j,
 * by the cross-tour swap; keeps those whose tours all pass the validity
 * check and that are not in the tabu list; moves to the first neighbour of
 * least cost; replaces the incumbent only on a strict improvement; records
 * the current solution in the tabu list; and appends the incumbent's cost
 * to a history.
 *
 * The copies differ in the cost formula, in the validity check's length
 * guard, and in stats.py's requirement that a swap actually happened;
 * `Knobs` names those differences. The random positions of every swap are
 * taken from `Config.draws`, indexed by iteration and tour pair.
 */
module TabuSearch {
  import opened Outcomes
  import opened Routes
  import opened Moves
  import opened Costs
  import opened TabuMemory

  /** Where the copies of the search differ. */
  datatype Knobs = Knobs(
    formula: Formula,       // which `calculer_cout_total`
    lengthGuard: bool,      // `est_tournee_valide` checks `len(t) >= 2` first
    swapMustHappen: bool)   // a neighbour counts only if both tours had a customer

  /** The generator's raw draws for the two `randint` calls of tour pair (i, j)
      at iteration it. */
  type Draws = (nat, nat, nat) -> (nat, nat)

  datatype Config = Config(knobs: Knobs, tempo: Table, k: int, nbr: int, tabuSize: int, draws: Draws)

  /** An integer table covering the nbr cities, and at least one vehicle. */
  predicate ValidConfig(c: Config)
  {
    IsTable(c.tempo) && c.k >= 1 && 0 <= c.nbr <= |c.tempo|
  }

  /** `calculer_cout_total(sol, tempo)` of the copy at hand. */
  function Cost(c: Config, sol: Solution): int
    requires IsTable(c.tempo) && InRange(sol, |c.tempo|)
  {
    SolCost(c.knobs.formula, c.tempo, sol)
  }

  /** Cities of an nbr-city instance index a table of at least nbr rows. */
  lemma InRangeWiden(sol: Solution, n: int, m: int)
    requires InRange(sol, n) && n <= m
    ensures InRange(sol, m)
  {
  }

  /** No empty tour, so the unguarded validity check can index its ends. */
  predicate Sized(s: Solution)
  {
    forall q :: 0 <= q < |s| ==> |s[q]| > 0
  }

  /** `all(est_tournee_valide(t) for t in voisin)`. */
  predicate AllValid(sol: Solution, guarded: bool)
    requires Sized(sol)
  {
    forall q :: 0 <= q < |sol| ==> if guarded then IsValidTour(sol[q]) else IsAnchored(sol[q])
  }

  /** The neighbour built for tour pair (i, j) at iteration it. */
  function Candidate(c: Config, s: Solution, it: nat, i: nat, j: nat): Solution
    requires i < j < |s|
  {
    var d := c.draws(it, i, j);
    SwapInSolution(s, i, j, d.0, d.1)
  }

  /** The swap leaves every tour as long as it was. */
  lemma CandidateSized(c: Config, s: Solution, it: nat, i: nat, j: nat)
    requires i < j < |s| && Sized(s)
    ensures Sized(Candidate(c, s, it, i, j))
  {
    var d := c.draws(it, i, j);
    SwapKeepsTours(s, i, j, d.0, d.1);
  }

  /** Whether the neighbour of pair (i, j) enters `voisinage`. */
  predicate Admitted(c: Config, s: Solution, it: nat, i: nat, j: nat, tabu: seq<Solution>)
    requires i < j < |s| && Sized(s)
  {
    var v := Candidate(c, s, it, i, j);
    CandidateSized(c, s, it, i, j);
    && (c.knobs.swapMustHappen ==> |s[i]| > 2 && |s[j]| > 2)
    && AllValid(v, c.knobs.lengthGuard)
    && v !in tabu
  }

  /** The admitted neighbours of pairs (i, i+1), ..., (i, j-1), in order. */
  function RowNeighbours(c: Config, s: Solution, it: nat, tabu: seq<Solution>, i: nat, j: nat): seq<Solution>
    requires i < |s| && j <= |s| && Sized(s)
    decreases j
  {
    if j <= i + 1 then []
    else
      RowNeighbours(c, s, it, tabu, i, j - 1)
      + (if Admitted(c, s, it, i, j - 1, tabu) then [Candidate(c, s, it, i, j - 1)] else [])
  }

  /** `voisinage` after the rows 0 .. i-1 of the double loop. */
  function Neighbours(c: Config, s: Solution, it: nat, tabu: seq<Solution>, i: nat): seq<Solution>
    requires i <= |s| && Sized(s)
  {
    if i == 0 then [] else Neighbours(c, s, it, tabu, i - 1) + RowNeighbours(c, s, it, tabu, i - 1, |s|)
  }

  /** A row holds exactly the admitted neighbours of its pairs. */
  lemma {:induction false} RowNeighboursIff(c: Config, s: Solution, it: nat, tabu: seq<Solution>, i: nat, j: nat, v: Solution)
    requires i < |s| && j <= |s| && Sized(s)
    ensures v in RowNeighbours(c, s, it, tabu, i, j) <==>
      exists jj :: i < jj < j && Admitted(c, s, it, i, jj, tabu) && v == Candidate(c, s, it, i, jj)
    decreases j
  {
    if j > i + 1 {
      RowNeighboursIff(c, s, it, tabu, i, j - 1, v);
      var prev := RowNeighbours(c, s, it, tabu, i, j - 1);
      var last := if Admitted(c, s, it, i, j - 1, tabu) then [Candidate(c, s, it, i, j - 1)] else [];
      assert RowNeighbours(c, s, it, tabu, i, j) == prev + last;
      if v in prev + last && v !in prev {
        assert v in last;
        assert i < j - 1 < j && Admitted(c, s, it, i, j - 1, tabu) && v == Candidate(c, s, it, i, j - 1);
      }
      if exists jj :: i < jj < j && Admitted(c, s, it, i, jj, tabu) && v == Candidate(c, s, it, i, jj) {
        var jj :| i < jj < j && Admitted(c, s, it, i, jj, tabu) && v == Candidate(c, s, it, i, jj);
        if jj == j - 1 {
          assert v in last;
        } else {
          assert v in prev;
        }
      }
    }
  }

  /** A neighbour enters `voisinage` exactly when it is the admitted
      neighbour of some pair i < j. */
  lemma {:induction false} NeighboursIff(c: Config, s: Solution, it: nat, tabu: seq<Solution>, n: nat, v: Solution)
    requires n <= |s| && Sized(s)
    ensures v in Neighbours(c, s, it, tabu, n) <==>
      exists i, j :: 0 <= i < n && i < j < |s| && Admitted(c, s, it, i, j, tabu) && v == Candidate(c, s, it, i, j)
    decreases n
  {
    if n > 0 {
      var prev := Neighbours(c, s, it, tabu, n - 1);
      var row := RowNeighbours(c, s, it, tabu, n - 1, |s|);
      assert Neighbours(c, s, it, tabu, n) == prev + row;
      NeighboursIff(c, s, it, tabu, n - 1, v);
      if v in prev {
        var i, j :| 0 <= i < n - 1 && i < j < |s| && Admitted(c, s, it, i, j, tabu) && v == Candidate(c, s, it, i, j);
        assert 0 <= i < n;
      } else if v in row {
        var i := n - 1;
        RowNeighboursIff(c, s, it, tabu, i, |s|, v);
        var j :| i < j < |s| && Admitted(c, s, it, i, j, tabu) && v == Candidate(c, s, it, i, j);
        assert 0 <= i < n;
      }
      if exists i, j :: 0 <= i < n && i < j < |s| && Admitted(c, s, it, i, j, tabu) && v == Candidate(c, s, it, i, j) {
        var i, j :| 0 <= i < n && i < j < |s| && Admitted(c, s, it, i, j, tabu) && v == Candidate(c, s, it, i, j);
        if i == n - 1 {
          RowNeighboursIff(c, s, it, tabu, i, |s|, v);
          assert v in row;
        } else {
          assert v in prev;
        }
      }
    }
  }

  /** Every solution of the list is well-formed. */
  predicate AllWellFormed(vs: seq<Solution>, k: int, nbr: int)
  {
    forall q :: 0 <= q < |vs| ==> WellFormed(vs[q], k, nbr)
  }

  /** Every solution of the list has k tours, none of them empty. */
  predicate AllSized(vs: seq<Solution>, k: int)
  {
    forall q :: 0 <= q < |vs| ==> |vs[q]| == k && Sized(vs[q])
  }

  /** Every neighbour is costed on the table. */
  predicate AllInRange(vs: seq<Solution>, n: int)
  {
    forall q :: 0 <= q < |vs| ==> InRange(vs[q], n)
  }

  /** The neighbour of a pair has the shape of the solution it comes from. */
  lemma CandidateShape(c: Config, s: Solution, it: nat, i: nat, j: nat, n: int)
    requires i < j < |s| && Sized(s) && InRange(s, n)
    ensures |Candidate(c, s, it, i, j)| == |s| && Sized(Candidate(c, s, it, i, j)) && InRange(Candidate(c, s, it, i, j), n)
  {
    CandidateSized(c, s, it, i, j);
    var d := c.draws(it, i, j);
    SwapKeepsRange(s, i, j, d.0, d.1, n);
  }

  /** Lists whose entries all have the shape of s, joined. */
  lemma AppendShape(vs: seq<Solution>, ws: seq<Solution>, k: int, n: int)
    requires AllSized(vs, k) && AllInRange(vs, n) && AllSized(ws, k) && AllInRange(ws, n)
    ensures AllSized(vs + ws, k) && AllInRange(vs + ws, n)
  {
    var u := vs + ws;
    forall q | 0 <= q < |u|
      ensures |u[q]| == k && Sized(u[q]) && InRange(u[q], n)
    {
      if q < |vs| {
        assert u[q] == vs[q];
      } else {
        assert u[q] == ws[q - |vs|];
      }
    }
  }

  /** A row of neighbours keeps the tour lengths and the cities of s. */
  lemma {:induction false} RowShape(c: Config, s: Solution, it: nat, tabu: seq<Solution>, i: nat, j: nat, n: int)
    requires i < |s| && j <= |s| && Sized(s) && InRange(s, n)
    ensures AllSized(RowNeighbours(c, s, it, tabu, i, j), |s|) && AllInRange(RowNeighbours(c, s, it, tabu, i, j), n)
    decreases j
  {
    if j > i + 1 {
      RowShape(c, s, it, tabu, i, j - 1, n);
      CandidateShape(c, s, it, i, j - 1, n);
      var last := if Admitted(c, s, it, i, j - 1, tabu) then [Candidate(c, s, it, i, j - 1)] else [];
      AppendShape(RowNeighbours(c, s, it, tabu, i, j - 1), last, |s|, n);
    }
  }

  /** Neighbours keep the tour lengths and the cities of the solution they
      come from. */
  lemma {:induction false} NeighboursShape(c: Config, s: Solution, it: nat, tabu: seq<Solution>, i: nat, n: int)
    requires i <= |s| && Sized(s) && InRange(s, n)
    ensures AllSized(Neighbours(c, s, it, tabu, i), |s|) && AllInRange(Neighbours(c, s, it, tabu, i), n)
    decreases i
  {
    if i > 0 {
      NeighboursShape(c, s, it, tabu, i - 1, n);
      RowShape(c, s, it, tabu, i - 1, |s|, n);
      AppendShape(Neighbours(c, s, it, tabu, i - 1), RowNeighbours(c, s, it, tabu, i - 1, |s|), |s|, n);
    }
  }

  /** A well-formed solution has no empty tour. */
  lemma WellFormedSized(s: Solution, k: int, nbr: int)
    requires WellFormed(s, k, nbr)
    ensures Sized(s)
  {
    forall q | 0 <= q < |s| ensures |s[q]| > 0 {
      assert GoodTour(s[q]);
    }
  }

  /** Every neighbour of a well-formed solution is well-formed. */
  lemma NeighboursWellFormed(c: Config, s: Solution, it: nat, tabu: seq<Solution>)
    requires WellFormed(s, c.k, c.nbr)
    ensures Sized(s) && AllWellFormed(Neighbours(c, s, it, tabu, |s|), c.k, c.nbr)
  {
    WellFormedSized(s, c.k, c.nbr);
    var vs := Neighbours(c, s, it, tabu, |s|);
    forall p | 0 <= p < |vs|
      ensures WellFormed(vs[p], c.k, c.nbr)
    {
      var v := vs[p];
      NeighboursIff(c, s, it, tabu, |s|, v);
      var i, j :| 0 <= i < |s| && i < j < |s| && Admitted(c, s, it, i, j, tabu) && v == Candidate(c, s, it, i, j);
      var d := c.draws(it, i, j);
      SwapKeepsWellFormed(s, i, j, d.0, d.1, c.k, c.nbr);
    }
  }

  /** On a well-formed solution the validity check never rejects a
      neighbour, in either copy of the check: the swap keeps every tour
      depot-anchored. */
  lemma ValidityNeverRejects(c: Config, s: Solution, it: nat, i: nat, j: nat, tabu: seq<Solution>)
    requires WellFormed(s, c.k, c.nbr) && i < j < |s|
    ensures Sized(s)
    ensures Admitted(c, s, it, i, j, tabu) <==> Candidate(c, s, it, i, j) !in tabu
  {
    var d := c.draws(it, i, j);
    var v := Candidate(c, s, it, i, j);
    SwapKeepsWellFormed(s, i, j, d.0, d.1, c.k, c.nbr);
    forall q | 0 <= q < |s| ensures GoodTour(s[q]) && GoodTour(v[q]) {
    }
  }

  /** The selection loop over `voisinage[..n]`: the index of the first
      neighbour of least cost, none when there is no neighbour. */
  function SelectIndex(c: Config, vs: seq<Solution>, n: nat): (o: Option<nat>)
    requires IsTable(c.tempo) && n <= |vs| && AllInRange(vs, |c.tempo|)
    ensures o.None? <==> n == 0
    ensures o.Some? ==> o.value < n
    ensures o.Some? ==> forall q :: 0 <= q < n ==> Cost(c, vs[q]) >= Cost(c, vs[o.value])
    ensures o.Some? ==> forall q :: 0 <= q < o.value ==> Cost(c, vs[q]) > Cost(c, vs[o.value])
  {
    if n == 0 then None
    else
      var prev := SelectIndex(c, vs, n - 1);
      if prev.None? || Cost(c, vs[n - 1]) < Cost(c, vs[prev.value]) then Some(n - 1) else prev
  }

  /** The selection is the unique first minimum: any index that is a minimum
      with nothing as cheap before it is the selected one. */
  lemma SelectIsFirstMinimum(c: Config, vs: seq<Solution>, m: nat)
    requires IsTable(c.tempo) && AllInRange(vs, |c.tempo|) && m < |vs|
    requires forall q :: 0 <= q < |vs| ==> Cost(c, vs[q]) >= Cost(c, vs[m])
    requires forall q :: 0 <= q < m ==> Cost(c, vs[q]) > Cost(c, vs[m])
    ensures SelectIndex(c, vs, |vs|) == Some(m)
  {
  }

  /** The neighbour the selection loop keeps from a list: the first one of
      least cost, none for an empty list. */
  function Selected(c: Config, vs: seq<Solution>): (o: Option<Solution>)
    requires IsTable(c.tempo) && AllInRange(vs, |c.tempo|)
    ensures o.Some? ==> o.value in vs && InRange(o.value, |c.tempo|)
    ensures o.None? <==> vs == []
  {
    var sel := SelectIndex(c, vs, |vs|);
    if sel.Some? then Some(vs[sel.value]) else None
  }

  /** One turn of the selection loop: the offered neighbour is kept when
      nothing is kept yet or when it is strictly cheaper. */
  function Keep(c: Config, acc: Option<Solution>, v: Solution): Option<Solution>
    requires IsTable(c.tempo) && InRange(v, |c.tempo|) && (acc.Some? ==> InRange(acc.value, |c.tempo|))
  {
    if acc.None? || Cost(c, v) < Cost(c, acc.value) then Some(v) else acc
  }

  /** The selection over the first n entries looks at nothing else. */
  lemma {:induction false} SelectIndexPrefix(c: Config, vs: seq<Solution>, ws: seq<Solution>, n: nat)
    requires IsTable(c.tempo) && n <= |vs| && n <= |ws| && AllInRange(vs, |c.tempo|) && AllInRange(ws, |c.tempo|)
    requires forall q :: 0 <= q < n ==> vs[q] == ws[q]
    ensures SelectIndex(c, vs, n) == SelectIndex(c, ws, n)
    decreases n
  {
    if n > 0 {
      SelectIndexPrefix(c, vs, ws, n - 1);
      var prev := SelectIndex(c, vs, n - 1);
      if prev.Some? {
        assert vs[prev.value] == ws[prev.value];
      }
      assert vs[n - 1] == ws[n - 1];
    }
  }

  /** Appending a neighbour to the list is one more turn of the loop. */
  lemma SelectedSnoc(c: Config, vs: seq<Solution>, v: Solution)
    requires IsTable(c.tempo) && AllInRange(vs, |c.tempo|) && InRange(v, |c.tempo|)
    ensures AllInRange(vs + [v], |c.tempo|)
    ensures Selected(c, vs + [v]) == Keep(c, Selected(c, vs), v)
  {
    var ws := vs + [v];
    forall q | 0 <= q < |ws|
      ensures InRange(ws[q], |c.tempo|)
    {
      if q < |vs| {
        assert ws[q] == vs[q];
      }
    }
    SelectIndexPrefix(c, ws, vs, |vs|);
    assert ws[|vs|] == v;
  }

  /** What the selection keeps once pair (i, j) has had its turn: its
      neighbour is offered when admitted. */
  function BestAfter(c: Config, s: Solution, it: nat, tabu: seq<Solution>, i: nat, j: nat): (o: Option<Solution>)
    requires IsTable(c.tempo) && Sized(s) && InRange(s, |c.tempo|) && i < j < |s|
    ensures o.Some? ==> InRange(o.value, |c.tempo|) && |o.value| == |s| && Sized(o.value)
    decreases i, j, 1
  {
    var acc := BestBefore(c, s, it, tabu, i, j);
    if Admitted(c, s, it, i, j, tabu) then
      CandidateShape(c, s, it, i, j, |c.tempo|);
      Keep(c, acc, Candidate(c, s, it, i, j))
    else
      acc
  }

  /** What the selection keeps from the pairs before (i, j) in the order of
      the double loop: rows 0 .. i-1 in full, then (i, i+1) .. (i, j-1). */
  function BestBefore(c: Config, s: Solution, it: nat, tabu: seq<Solution>, i: nat, j: nat): (o: Option<Solution>)
    requires IsTable(c.tempo) && Sized(s) && InRange(s, |c.tempo|) && i < j <= |s|
    ensures o.Some? ==> InRange(o.value, |c.tempo|) && |o.value| == |s| && Sized(o.value)
    decreases i, j, 0
  {
    if j > i + 1 then BestAfter(c, s, it, tabu, i, j - 1)
    else if i == 0 then None
    else BestBefore(c, s, it, tabu, i - 1, |s|)
  }

  /** The neighbours listed before pair (i, j) of the double loop. */
  function ListedBefore(c: Config, s: Solution, it: nat, tabu: seq<Solution>, i: nat, j: nat): (vs: seq<Solution>)
    requires i < j <= |s| && Sized(s)
  {
    Neighbours(c, s, it, tabu, i) + RowNeighbours(c, s, it, tabu, i, j)
  }

  /** Pair (i, j-1) appends its neighbour when admitted. */
  lemma ListedBeforeGrows(c: Config, s: Solution, it: nat, tabu: seq<Solution>, i: nat, j: nat)
    requires i + 1 < j <= |s| && Sized(s)
    ensures ListedBefore(c, s, it, tabu, i, j) == ListedBefore(c, s, it, tabu, i, j - 1)
      + (if Admitted(c, s, it, i, j - 1, tabu) then [Candidate(c, s, it, i, j - 1)] else [])
  {
  }

  /** A new row starts where the previous one ended. */
  lemma ListedBeforeRow(c: Config, s: Solution, it: nat, tabu: seq<Solution>, i: nat)
    requires 0 < i < |s| && Sized(s)
    ensures ListedBefore(c, s, it, tabu, i, i + 1) == ListedBefore(c, s, it, tabu, i - 1, |s|)
  {
  }


  /** What is listed has the shape of s. */
  lemma ListedBeforeShape(c: Config, s: Solution, it: nat, tabu: seq<Solution>, i: nat, j: nat)
    requires IsTable(c.tempo) && Sized(s) && InRange(s, |c.tempo|) && i < j <= |s|
    ensures AllInRange(ListedBefore(c, s, it, tabu, i, j), |c.tempo|)
  {
    NeighboursShape(c, s, it, tabu, i, |c.tempo|);
    RowShape(c, s, it, tabu, i, j, |c.tempo|);
    AppendShape(Neighbours(c, s, it, tabu, i), RowNeighbours(c, s, it, tabu, i, j), |s|, |c.tempo|);
  }

  /** One more pair of the current row is one more turn of the selection. */
  lemma BestBeforeGrows(c: Config, s: Solution, it: nat, tabu: seq<Solution>, i: nat, j: nat)
    requires IsTable(c.tempo) && Sized(s) && InRange(s, |c.tempo|) && i + 1 < j <= |s|
    requires AllInRange(ListedBefore(c, s, it, tabu, i, j - 1), |c.tempo|)
    requires BestBefore(c, s, it, tabu, i, j - 1) == Selected(c, ListedBefore(c, s, it, tabu, i, j - 1))
    ensures AllInRange(ListedBefore(c, s, it, tabu, i, j), |c.tempo|)
    ensures BestBefore(c, s, it, tabu, i, j) == Selected(c, ListedBefore(c, s, it, tabu, i, j))
  {
    ListedBeforeShape(c, s, it, tabu, i, j);
    ListedBeforeGrows(c, s, it, tabu, i, j);
    var acc := BestBefore(c, s, it, tabu, i, j - 1);
    assert BestBefore(c, s, it, tabu, i, j) == BestAfter(c, s, it, tabu, i, j - 1);
    if Admitted(c, s, it, i, j - 1, tabu) {
      var v := Candidate(c, s, it, i, j - 1);
      CandidateShape(c, s, it, i, j - 1, |c.tempo|);
      SelectedSnoc(c, ListedBefore(c, s, it, tabu, i, j - 1), v);
      assert BestAfter(c, s, it, tabu, i, j - 1) == Keep(c, acc, v);
    } else {
      assert ListedBefore(c, s, it, tabu, i, j) == ListedBefore(c, s, it, tabu, i, j - 1);
    }
  }

  /** Folding the selection over the pairs keeps what the selection loop
      keeps from the list the double loop builds. */
  lemma {:induction false} BestBeforeIsSelected(c: Config, s: Solution, it: nat, tabu: seq<Solution>, i: nat, j: nat)
    requires IsTable(c.tempo) && Sized(s) && InRange(s, |c.tempo|) && i < j <= |s|
    ensures AllInRange(ListedBefore(c, s, it, tabu, i, j), |c.tempo|)
    ensures BestBefore(c, s, it, tabu, i, j) == Selected(c, ListedBefore(c, s, it, tabu, i, j))
    decreases i, j
  {
    if j > i + 1 {
      BestBeforeIsSelected(c, s, it, tabu, i, j - 1);
      BestBeforeGrows(c, s, it, tabu, i, j);
    } else if i > 0 {
      BestBeforeIsSelected(c, s, it, tabu, i - 1, |s|);
      ListedBeforeRow(c, s, it, tabu, i);
      BestBeforeRow(c, s, it, tabu, i);
    } else {
      NothingBeforeFirst(c, s, it, tabu);
    }
  }

  /** A new row starts with what the previous one kept. */
  lemma BestBeforeRow(c: Config, s: Solution, it: nat, tabu: seq<Solution>, i: nat)
    requires IsTable(c.tempo) && Sized(s) && InRange(s, |c.tempo|) && 0 < i < |s|
    ensures BestBefore(c, s, it, tabu, i, i + 1) == BestBefore(c, s, it, tabu, i - 1, |s|)
  {
  }

  /** Before the first pair nothing is listed and nothing is kept. */
  lemma NothingBeforeFirst(c: Config, s: Solution, it: nat, tabu: seq<Solution>)
    requires IsTable(c.tempo) && Sized(s) && InRange(s, |c.tempo|) && 1 <= |s|
    ensures ListedBefore(c, s, it, tabu, 0, 1) == []
    ensures BestBefore(c, s, it, tabu, 0, 1) == None
  {
    assert RowNeighbours(c, s, it, tabu, 0, 1) == [];
  }

  /** Once the last pair has had its turn, the selection has seen the whole
      list `voisinage`. */
  lemma BestAllIsSelected(c: Config, s: Solution, it: nat, tabu: seq<Solution>)
    requires IsTable(c.tempo) && Sized(s) && InRange(s, |c.tempo|) && 0 < |s|
    ensures AllInRange(Neighbours(c, s, it, tabu, |s|), |c.tempo|)
    ensures BestBefore(c, s, it, tabu, |s| - 1, |s|) == Selected(c, Neighbours(c, s, it, tabu, |s|))
  {
    BestBeforeIsSelected(c, s, it, tabu, |s| - 1, |s|);
    ListedBeforeAll(c, s, it, tabu);
  }

  /** Before the pair after the last one, every row has been listed. */
  lemma ListedBeforeAll(c: Config, s: Solution, it: nat, tabu: seq<Solution>)
    requires 0 < |s| && Sized(s)
    ensures ListedBefore(c, s, it, tabu, |s| - 1, |s|) == Neighbours(c, s, it, tabu, |s|)
  {
    assert RowNeighbours(c, s, it, tabu, |s| - 1, |s|) == [];
  }

  /** What the search carries from one iteration to the next. */
  datatype State = State(
    current: Solution,    // solution_actuelle
    best: Solution,       // meilleure_solution
    bestCost: int,        // meilleur_cout
    tabu: seq<Solution>,  // liste_tabou
    history: seq<int>)    // hist_costs / couts_par_iteration

  predicate NonIncreasing(h: seq<int>)
  {
    forall p, q :: 0 <= p <= q < |h| ==> h[p] >= h[q]
  }

  /** What holds between iterations: both solutions can be costed, the
      tabu list is within its bound and the history ends with the incumbent's
      cost. */
  predicate Inv(c: Config, s: State)
  {
    && ValidConfig(c)
    && |s.current| == c.k && Sized(s.current)
    && InRange(s.current, |c.tempo|) && InRange(s.best, |c.tempo|)
    && |s.tabu| <= Capacity(c.tabuSize)
    && |s.history| >= 1 && s.history[|s.history| - 1] == s.bestCost
  }

  /** The state before the first iteration. */
  function Start(c: Config, init: Solution): State
    requires IsTable(c.tempo) && InRange(init, |c.tempo|)
  {
    State(init, init, Cost(c, init), [], [Cost(c, init)])
  }

  /** The incumbent's cost is the recorded one and is no worse than the
      current solution's. */
  predicate Costed(c: Config, s: State)
    requires Inv(c, s)
  {
    s.bestCost == Cost(c, s.best) && s.bestCost <= Cost(c, s.current)
  }

  /** A well-formed initial solution satisfies the invariant. */
  lemma StartInv(c: Config, init: Solution)
    requires ValidConfig(c) && WellFormed(init, c.k, c.nbr)
    ensures InRange(init, |c.tempo|) && Inv(c, Start(c, init)) && Costed(c, Start(c, init))
  {
    InRangeWiden(init, c.nbr, |c.tempo|);
    WellFormedSized(init, c.k, c.nbr);
  }

  /** The neighbourhood iteration it builds from state s. */
  function NeighbourhoodAt(c: Config, s: State, it: nat): (vs: seq<Solution>)
    requires Inv(c, s)
    ensures AllInRange(vs, |c.tempo|) && AllSized(vs, c.k)
  {
    NeighboursShape(c, s.current, it, s.tabu, |s.current|, |c.tempo|);
    Neighbours(c, s.current, it, s.tabu, |s.current|)
  }

  /** The neighbour iteration it moves to, if any, taken pair by pair. */
  function Chosen(c: Config, s: State, it: nat): (o: Option<Solution>)
    requires Inv(c, s)
    ensures o.Some? ==> InRange(o.value, |c.tempo|) && |o.value| == c.k && Sized(o.value)
  {
    BestBefore(c, s.current, it, s.tabu, |s.current| - 1, |s.current|)
  }

  /** It is the first cheapest entry of the list `voisinage`. */
  lemma ChosenIsSelected(c: Config, s: State, it: nat)
    requires Inv(c, s)
    ensures Chosen(c, s, it) == Selected(c, NeighbourhoodAt(c, s, it))
  {
    BestAllIsSelected(c, s.current, it, s.tabu);
  }

  /** One iteration of the main loop. */
  function Step(c: Config, s: State, it: nat): (t: State)
    requires Inv(c, s)
    ensures Inv(c, t)
    ensures |t.history| == |s.history| + 1 && t.history[..|s.history|] == s.history
    ensures t.bestCost <= s.bestCost
  {
    var o := Chosen(c, s, it);
    var cur := if o.Some? then o.value else s.current;
    var improved := o.Some? && Cost(c, cur) < s.bestCost;
    var best := if improved then cur else s.best;
    var bestCost := if improved then Cost(c, cur) else s.bestCost;
    RecordBounded(s.tabu, cur, c.tabuSize);
    State(cur, best, bestCost, Record(s.tabu, cur, c.tabuSize), s.history + [bestCost])
  }

  /** The current solution moves to the first cheapest admitted neighbour,
      and stays where it is when no neighbour was admitted. */
  lemma StepMoves(c: Config, s: State, it: nat, t: State)
    requires Inv(c, s) && t == Step(c, s, it)
    ensures var vs := NeighbourhoodAt(c, s, it);
      && (vs == [] ==> t.current == s.current)
      && (vs != [] ==>
            exists m :: (0 <= m < |vs| && t.current == vs[m]
              && (forall q :: 0 <= q < |vs| ==> Cost(c, vs[q]) >= Cost(c, vs[m]))
              && (forall q :: 0 <= q < m ==> Cost(c, vs[q]) > Cost(c, vs[m]))))
  {
    var vs := NeighbourhoodAt(c, s, it);
    ChosenIsSelected(c, s, it);
    if vs != [] {
      var m := SelectIndex(c, vs, |vs|).value;
      assert t.current == vs[m];
    }
  }

  /** The incumbent is replaced only on a strict improvement, and it is
      replaced exactly when some admitted neighbour is cheaper than it; the
      new incumbent is then the new current solution. */
  lemma StepIncumbent(c: Config, s: State, it: nat, t: State)
    requires Inv(c, s) && t == Step(c, s, it)
    ensures (t.best == s.best && t.bestCost == s.bestCost) || (t.best == t.current && t.bestCost < s.bestCost)
    ensures t.bestCost < s.bestCost <==> exists v :: v in NeighbourhoodAt(c, s, it) && Cost(c, v) < s.bestCost
  {
    var vs := NeighbourhoodAt(c, s, it);
    ChosenIsSelected(c, s, it);
    if exists v :: v in vs && Cost(c, v) < s.bestCost {
      var v :| v in vs && Cost(c, v) < s.bestCost;
      var q :| 0 <= q < |vs| && vs[q] == v;
      var m := SelectIndex(c, vs, |vs|).value;
      assert Cost(c, vs[m]) <= Cost(c, vs[q]);
    }
    if t.bestCost < s.bestCost {
      var m := SelectIndex(c, vs, |vs|).value;
      assert vs[m] in vs;
    }
  }

  /** Both solutions of a state are well-formed. */
  predicate Sound(c: Config, s: State)
  {
    WellFormed(s.current, c.k, c.nbr) && WellFormed(s.best, c.k, c.nbr)
  }

  /** An iteration from well-formed solutions leads to well-formed solutions:
      the search never loses, duplicates or invents a customer. */
  lemma StepWellFormed(c: Config, s: State, it: nat, t: State)
    requires Inv(c, s) && Sound(c, s) && t == Step(c, s, it)
    ensures Sound(c, t)
  {
    NeighboursWellFormed(c, s.current, it, s.tabu);
    ChosenIsSelected(c, s, it);
    var vs := NeighbourhoodAt(c, s, it);
    var sel := SelectIndex(c, vs, |vs|);
    if sel.Some? {
      assert WellFormed(vs[sel.value], c.k, c.nbr);
    }
  }

  /** An iteration keeps the incumbent's cost recorded and no worse than the
      current solution's. */
  lemma StepCosted(c: Config, s: State, it: nat, t: State)
    requires Inv(c, s) && Costed(c, s) && t == Step(c, s, it)
    ensures Costed(c, t)
  {
  }

  /** An iteration appends the new incumbent cost, which is no greater than
      the last one recorded, so a non-increasing history stays so. */
  lemma StepHistory(c: Config, s: State, it: nat, t: State)
    requires Inv(c, s) && NonIncreasing(s.history) && t == Step(c, s, it)
    ensures t.history == s.history + [t.bestCost]
    ensures NonIncreasing(t.history)
  {
    var h, m := t.history, |s.history|;
    assert h == s.history + [t.bestCost];
    forall p, q | 0 <= p <= q < |h|
      ensures h[p] >= h[q]
    {
      if q == m && p < m {
        assert h[p] == s.history[p] >= s.history[m - 1] == s.bestCost;
      }
    }
  }

  /** What the search keeps true about a state, given the current solutions
      it has stood on so far: both solutions are well-formed, the incumbent's
      cost is recorded and no worse than the current one, the recorded costs
      never increase, the tabu list is the latest `tabuSize` visited
      solutions, oldest first, and no visited solution is cheaper than the
      incumbent. */
  predicate Tracked(c: Config, s: State, visited: seq<Solution>)
    requires Inv(c, s)
  {
    && Sound(c, s) && Costed(c, s) && NonIncreasing(s.history)
    && s.tabu == Window(visited, c.tabuSize)
    && AllInRange(visited, |c.tempo|)
    && forall q :: 0 <= q < |visited| ==> s.bestCost <= Cost(c, visited[q])
  }

  /** One iteration keeps all of it, once its current solution is added to
      the visited ones. */
  lemma StepTracked(c: Config, s: State, it: nat, visited: seq<Solution>, t: State)
    requires Inv(c, s) && Tracked(c, s, visited) && t == Step(c, s, it)
    ensures Tracked(c, t, visited + [t.current])
    ensures t.history == s.history + [t.bestCost]
    ensures t.best == s.best || t.best == t.current
  {
    StepWellFormed(c, s, it, t);
    StepCosted(c, s, it, t);
    StepHistory(c, s, it, t);
    StepIncumbent(c, s, it, t);
    RecordSlides(visited, t.current, c.tabuSize);
    var vis := visited + [t.current];
    forall q | 0 <= q < |vis|
      ensures InRange(vis[q], |c.tempo|) && t.bestCost <= Cost(c, vis[q])
    {
      if q < |visited| {
        assert vis[q] == visited[q];
      }
    }
  }

  /** Copies of tours i and j swapped in place by `echanger_clients`, put
      back into a copy of the solution. */
  method BuildNeighbour(c: Config, s: Solution, it: nat, i: nat, j: nat) returns (voisin: Solution)
    requires i < j < |s| && Sized(s)
    ensures voisin == Candidate(c, s, it, i, j) && Sized(voisin)
  {
    var d := c.draws(it, i, j);
    var route1 := new int[|s[i]|](q requires 0 <= q < |s[i]| => s[i][q]);
    var route2 := new int[|s[j]|](q requires 0 <= q < |s[j]| => s[j][q]);
    assert route1[..] == s[i] && route2[..] == s[j];
    EchangerClients(route1, route2, d.0, d.1);
    voisin := s[i := route1[..]][j := route2[..]];
    CandidateSized(c, s, it, i, j);
  }

  /** The double loop that builds `voisinage`, pair by pair. */
  method GenerateNeighbours(c: Config, s: Solution, it: nat, tabu: seq<Solution>) returns (voisinage: seq<Solution>)
    requires |s| == c.k && Sized(s)
    ensures voisinage == Neighbours(c, s, it, tabu, |s|)
  {
    voisinage := [];
    var i := 0;
    while i < c.k
      invariant 0 <= i <= c.k
      invariant voisinage == Neighbours(c, s, it, tabu, i)
    {
      var j := i + 1;
      assert RowNeighbours(c, s, it, tabu, i, j) == [];
      while j < c.k
        invariant i + 1 <= j <= c.k
        invariant voisinage == ListedBefore(c, s, it, tabu, i, j)
      {
        var voisin := BuildNeighbour(c, s, it, i, j);
        ListedBeforeGrows(c, s, it, tabu, i, j + 1);
        if (!c.knobs.swapMustHappen || (|s[i]| > 2 && |s[j]| > 2))
          && AllValid(voisin, c.knobs.lengthGuard) && voisin !in tabu
        {
          voisinage := voisinage + [voisin];
        }
        j := j + 1;
      }
      i := i + 1;
    }
  }

  /** The selection loop; `float('inf')` as the starting cost is the absence
      of a selected neighbour. */
  method SelectBest(c: Config, vs: seq<Solution>) returns (sel: Option<nat>, cout: int)
    requires IsTable(c.tempo) && AllInRange(vs, |c.tempo|)
    ensures sel == SelectIndex(c, vs, |vs|)
    ensures sel.Some? ==> cout == Cost(c, vs[sel.value])
  {
    sel, cout := None, 0;
    var n := 0;
    while n < |vs|
      invariant 0 <= n <= |vs|
      invariant sel == SelectIndex(c, vs, n)
      invariant sel.Some? ==> cout == Cost(c, vs[sel.value])
    {
      var coutVoisin := TotalCost(c.knobs.formula, vs[n], c.tempo);
      assert coutVoisin == Cost(c, vs[n]);
      assert sel.Some? ==> cout == Cost(c, vs[sel.value]);
      if sel.None? || coutVoisin < cout {
        sel, cout := Some(n), coutVoisin;
      }
      n := n + 1;
    }
  }

  /** The body of the main loop: build the neighbourhood, move to its first
      cheapest entry, update the incumbent on a strict improvement, record the
      move in the tabu list and the incumbent's cost in the history. */
  method Iterate(c: Config, s: State, it: nat) returns (t: State)
    requires Inv(c, s)
    ensures t == Step(c, s, it)
  {
    var solutionActuelle, meilleureSolution, meilleurCout := s.current, s.best, s.bestCost;
    var voisinage := GenerateNeighbours(c, solutionActuelle, it, s.tabu);
    assert voisinage == NeighbourhoodAt(c, s, it);
    var sel, coutMeilleurVoisin := SelectBest(c, voisinage);
    if sel.Some? {
      solutionActuelle := voisinage[sel.value];
      if coutMeilleurVoisin < meilleurCout {
        meilleureSolution, meilleurCout := solutionActuelle, coutMeilleurVoisin;
      }
    }
    var listeTabou := s.tabu + [solutionActuelle];
    if |listeTabou| > c.tabuSize {
      listeTabou := listeTabou[1..];
    }
    t := State(solutionActuelle, meilleureSolution, meilleurCout, listeTabou, s.history + [meilleurCout]);
    ChosenIsSelected(c, s, it);
  }
}
