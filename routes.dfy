/**
 * The solution representation shared by every copy of the search.
 * A tour is a list of city indices, city 0 is the depot, and a solution is
 * a list of tours, one per vehicle.
 */
module Routes {

  type Tour = seq<int>
  type Solution = seq<Tour>

  /** An integer travel-time table: `tempo[i][j]` is the time from city i to city j. */
  type Table = seq<seq<int>>

  /** A square table with a zero diagonal and no negative entry, as the city
      generator builds it (the distance from a city to itself is never written). */
  predicate IsTable(tempo: Table)
  {
    && (forall i :: 0 <= i < |tempo| ==> |tempo[i]| == |tempo|)
    && (forall i :: 0 <= i < |tempo| ==> tempo[i][i] == 0)
    && (forall i, j :: 0 <= i < |tempo| && 0 <= j < |tempo| ==> tempo[i][j] >= 0)
  }

  /** Every index of the tour is a city of an n-city instance. */
  predicate InRangeTour(t: Tour, n: int)
  {
    forall i :: 0 <= i < |t| ==> 0 <= t[i] < n
  }

  predicate InRange(sol: Solution, n: int)
  {
    forall q :: 0 <= q < |sol| ==> InRangeTour(sol[q], n)
  }

  /** `est_tournee_valide` with its length guard (vrp_solver.py, space.py). */
  function IsValidTour(t: Tour): bool
  {
    |t| >= 2 && t[0] == 0 && t[|t| - 1] == 0
  }

  /** `est_tournee_valide` without the length guard (stats.py, vrp.py, test.py);
      Python raises IndexError on an empty list, so the caller must not pass one. */
  function IsAnchored(t: Tour): bool
    requires |t| > 0
  {
    t[0] == 0 && t[|t| - 1] == 0
  }

  /** The two copies of the validity check agree on every tour of two or more
      cities; they differ on the one-element tour `[0]`. */
  lemma ValidityChecksAgree(t: Tour)
    requires |t| > 0
    ensures |t| >= 2 ==> (IsValidTour(t) <==> IsAnchored(t))
    ensures IsValidTour(t) <==> |t| >= 2 && IsAnchored(t)
    ensures IsAnchored([0]) && !IsValidTour([0])
  {
  }

  /** The customers a tour visits: everything between its two end points. */
  function Interior(t: Tour): seq<int>
  {
    if |t| >= 2 then t[1..|t| - 1] else []
  }

  /** The customers of all tours, with multiplicity. */
  function CustomerBag(sol: Solution): multiset<int>
  {
    if sol == [] then multiset{} else CustomerBag(sol[..|sol| - 1]) + multiset(Interior(sol[|sol| - 1]))
  }

  /** The customer list `list(range(1, nbr))`. */
  function Customers(nbr: int): (cs: seq<int>)
    ensures |cs| == if nbr >= 1 then nbr - 1 else 0
    ensures forall i :: 0 <= i < |cs| ==> cs[i] == i + 1
  {
    if nbr <= 1 then [] else seq(nbr - 1, i requires 0 <= i < nbr - 1 => i + 1)
  }

  /** `clients` is a shuffle of the customers 1 .. nbr-1. */
  predicate Shuffled(clients: seq<int>, nbr: int)
  {
    multiset(clients) == multiset(Customers(nbr))
  }

  /** The customers 1 .. nbr-1 as a bag, built one customer at a time. */
  function CustomerSet(nbr: int): multiset<int>
  {
    if nbr <= 1 then multiset{} else CustomerSet(nbr - 1) + multiset{nbr - 1}
  }

  /** Every customer 1 .. nbr-1 is visited by exactly one tour, exactly once,
      and nothing else is visited between the depot markers. */
  predicate Partition(sol: Solution, nbr: int)
  {
    CustomerBag(sol) == CustomerSet(nbr)
  }

  /** A depot-anchored tour with at least one customer. */
  predicate GoodTour(t: Tour)
  {
    |t| > 2 && t[0] == 0 && t[|t| - 1] == 0
  }

  /** A solution as the search keeps it: k non-degenerate depot-anchored tours
      over the cities of the instance that partition the customers. */
  predicate WellFormed(sol: Solution, k: int, nbr: int)
  {
    && |sol| == k
    && (forall q :: 0 <= q < |sol| ==> GoodTour(sol[q]))
    && InRange(sol, nbr)
    && Partition(sol, nbr)
  }

  lemma {:induction false} CustomersCount(nbr: int, c: int)
    ensures multiset(Customers(nbr))[c] == if 1 <= c < nbr then 1 else 0
    decreases nbr
  {
    if nbr > 1 {
      assert Customers(nbr) == Customers(nbr - 1) + [nbr - 1];
      CustomersCount(nbr - 1, c);
    } else {
      assert Customers(nbr) == [];
    }
  }

  /** The bag of the customer list is the customer bag. */
  lemma {:induction false} CustomerSetIsCustomers(nbr: int)
    ensures CustomerSet(nbr) == multiset(Customers(nbr))
    decreases nbr
  {
    if nbr > 1 {
      assert Customers(nbr) == Customers(nbr - 1) + [nbr - 1];
      CustomerSetIsCustomers(nbr - 1);
    } else {
      assert Customers(nbr) == [];
    }
  }

  /** A partition visits every customer exactly once and visits no other city. */
  lemma PartitionExactlyOnce(sol: Solution, nbr: int, c: int)
    requires Partition(sol, nbr)
    ensures CustomerBag(sol)[c] == if 1 <= c < nbr then 1 else 0
  {
    CustomerSetIsCustomers(nbr);
    CustomersCount(nbr, c);
  }

  /** A shuffle holds each customer once, so it has nbr-1 entries, all in 1 .. nbr-1. */
  lemma ShuffledFacts(clients: seq<int>, nbr: int)
    requires Shuffled(clients, nbr)
    ensures |clients| == if nbr >= 1 then nbr - 1 else 0
    ensures forall i :: 0 <= i < |clients| ==> 1 <= clients[i] < nbr
  {
    assert |multiset(clients)| == |multiset(Customers(nbr))|;
    forall i | 0 <= i < |clients|
      ensures 1 <= clients[i] < nbr
    {
      assert clients[i] in multiset(clients);
      CustomersCount(nbr, clients[i]);
    }
  }

  /** Bags add up in any order. */
  lemma UnionSwap(a: multiset<int>, x: multiset<int>, y: multiset<int>)
    ensures a + x + y == a + y + x
  {
    forall e
      ensures (a + x + y)[e] == (a + y + x)[e]
    {
    }
  }

  /** Adding the same bag to both sides of an equation keeps it. */
  lemma AddToBoth(a: multiset<int>, b: multiset<int>, c: multiset<int>, x: multiset<int>, y: multiset<int>)
    requires a + x == b + y
    ensures a + c + x == b + c + y
  {
    forall e
      ensures (a + c + x)[e] == (b + c + y)[e]
    {
      assert (a + x)[e] == (b + y)[e];
    }
  }

  /** Replacing the last tour replaces the last term of the bag. */
  lemma BagUpdateLast(sol: Solution, t: Tour)
    requires |sol| > 0
    ensures CustomerBag(sol[|sol| - 1 := t]) == CustomerBag(sol[..|sol| - 1]) + multiset(Interior(t))
  {
    var upd := sol[|sol| - 1 := t];
    assert upd[..|sol| - 1] == sol[..|sol| - 1];
  }

  /** Replacing an earlier tour leaves the last term of the bag alone. */
  lemma BagUpdateEarlier(sol: Solution, q: int, t: Tour)
    requires 0 <= q < |sol| - 1
    ensures CustomerBag(sol[q := t]) == CustomerBag(sol[..|sol| - 1][q := t]) + multiset(Interior(sol[|sol| - 1]))
  {
    var upd := sol[q := t];
    assert upd[..|sol| - 1] == sol[..|sol| - 1][q := t];
    assert upd[|sol| - 1] == sol[|sol| - 1];
  }

  /** Replacing tour q changes the customer bag by exactly the two interiors. */
  lemma {:induction false} BagUpdate(sol: Solution, q: int, t: Tour)
    requires 0 <= q < |sol|
    ensures CustomerBag(sol[q := t]) + multiset(Interior(sol[q])) == CustomerBag(sol) + multiset(Interior(t))
    decreases |sol|
  {
    var n := |sol|;
    var oldQ, newQ := multiset(Interior(sol[q])), multiset(Interior(t));
    var before := CustomerBag(sol[..n - 1]);
    assert CustomerBag(sol) == before + multiset(Interior(sol[n - 1]));
    if q == n - 1 {
      BagUpdateLast(sol, t);
      UnionSwap(before, newQ, oldQ);
    } else {
      var last := multiset(Interior(sol[n - 1]));
      var after := CustomerBag(sol[..n - 1][q := t]);
      BagUpdateEarlier(sol, q, t);
      assert sol[..n - 1][q] == sol[q];
      BagUpdate(sol[..n - 1], q, t);
      AddToBoth(after, before, last, oldQ, newQ);
    }
  }

  /** The bag of a solution is the sum of its tours' interiors, counted from the front. */
  lemma {:induction false} BagCons(t: Tour, sol: Solution)
    ensures CustomerBag([t] + sol) == multiset(Interior(t)) + CustomerBag(sol)
    decreases |sol|
  {
    if sol == [] {
      assert [t] + sol == [t];
      assert ([t] + sol)[..0] == [];
    } else {
      var n := |sol|;
      assert ([t] + sol)[..n] == [t] + sol[..n - 1];
      BagCons(t, sol[..n - 1]);
    }
  }

  /** The travel time of hops lo -> lo+1, ..., hi-1 -> hi along a tour. */
  function Hops(tempo: Table, t: Tour, lo: int, hi: int): int
    requires IsTable(tempo) && InRangeTour(t, |tempo|)
    requires 0 <= lo && hi < |t|
    decreases hi - lo
  {
    if hi <= lo then 0 else Hops(tempo, t, lo, hi - 1) + tempo[t[hi - 1]][t[hi]]
  }

  /** Sum of `tempo` over the consecutive pairs of a tour (0 for fewer than two cities). */
  function HopSum(tempo: Table, t: Tour): int
    requires IsTable(tempo) && InRangeTour(t, |tempo|)
  {
    if |t| == 0 then 0 else Hops(tempo, t, 0, |t| - 1)
  }

  /** The hop sums of all tours added up. */
  function SolHops(tempo: Table, sol: Solution): int
    requires IsTable(tempo) && InRange(sol, |tempo|)
  {
    if sol == [] then 0 else SolHops(tempo, sol[..|sol| - 1]) + HopSum(tempo, sol[|sol| - 1])
  }

  /** Hops split off their first leg. */
  lemma {:induction false} HopsFront(tempo: Table, t: Tour, lo: int, hi: int)
    requires IsTable(tempo) && InRangeTour(t, |tempo|)
    requires 0 <= lo < hi < |t|
    ensures Hops(tempo, t, lo, hi) == tempo[t[lo]][t[lo + 1]] + Hops(tempo, t, lo + 1, hi)
    decreases hi - lo
  {
    if hi > lo + 1 {
      HopsFront(tempo, t, lo, hi - 1);
    }
  }

  /** With non-negative travel times no hop sum is negative. */
  lemma {:induction false} HopsNonNegative(tempo: Table, t: Tour, lo: int, hi: int)
    requires IsTable(tempo) && InRangeTour(t, |tempo|)
    requires 0 <= lo && hi < |t|
    ensures Hops(tempo, t, lo, hi) >= 0
    decreases hi - lo
  {
    if hi > lo {
      HopsNonNegative(tempo, t, lo, hi - 1);
    }
  }
}
