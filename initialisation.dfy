/**
 * `initialiser_solution` of the French copies: a round-robin distribution
 * of the shuffled customers, the depot added at both ends of every tour,
 * then a repair loop meant to fill tours left without a customer.
 *
 * The repair loop only ever moves customers, so when there are fewer
 * customers than vehicles some tour always stays `[0, 0]` and the loop
 * never ends. The model keeps that loop's single pass as written
 * (`RepairPass`), proves that repeating it never empties the guard
 * (`RepairLoopNeverEnds`), and uses a corrected initialiser that reports
 * the instance as unsolvable instead (`InitialiserSolution`).
 */
module Initialisation {
  import opened Outcomes
  import opened Routes
  import opened RoundRobin

  /** The guard of the repair loop: some tour is `[0, 0]`-sized. */
  predicate HasEmptyTour(tours: Solution)
  {
    exists q :: 0 <= q < |tours| && |tours[q]| == 2
  }

  /** No tour shorter than the two depot markers. */
  predicate AtLeastDepots(tours: Solution)
  {
    forall q :: 0 <= q < |tours| ==> |tours[q]| >= 2
  }

  /** The first tour with a customer to spare: the `j` the inner loop breaks at. */
  function FirstLong(tours: Solution, from: nat): (o: Option<nat>)
    requires from <= |tours|
    ensures o.Some? ==> from <= o.value < |tours| && |tours[o.value]| > 2
    ensures o.Some? ==> forall q :: from <= q < o.value ==> |tours[q]| <= 2
    ensures o.None? ==> forall q :: from <= q < |tours| ==> |tours[q]| <= 2
    decreases |tours| - from
  {
    if from == |tours| then None
    else if |tours[from]| > 2 then Some(from)
    else FirstLong(tours, from + 1)
  }

  /** `tournees[j].pop(1)` followed by `tournees[i].insert(1, ...)`. */
  function MoveFirstCustomer(tours: Solution, j: int, i: int): (res: Solution)
    requires 0 <= i < |tours| && 0 <= j < |tours| && i != j
    requires |tours[j]| > 2 && |tours[i]| >= 1
    ensures |res| == |tours|
    ensures |res[j]| == |tours[j]| - 1 && |res[i]| == |tours[i]| + 1
    ensures forall q :: 0 <= q < |tours| && q != i && q != j ==> res[q] == tours[q]
  {
    var c := tours[j][1];
    tours[j := tours[j][..1] + tours[j][2..]][i := tours[i][..1] + [c] + tours[i][1..]]
  }

  /** Moving a customer keeps the depot markers where they were. */
  lemma MoveKeepsEnds(tours: Solution, j: int, i: int)
    requires 0 <= i < |tours| && 0 <= j < |tours| && i != j
    requires |tours[j]| > 2 && |tours[i]| >= 2
    ensures var res := MoveFirstCustomer(tours, j, i);
      && res[j][0] == tours[j][0] && res[j][|res[j]| - 1] == tours[j][|tours[j]| - 1]
      && res[i][0] == tours[i][0] && res[i][|res[i]| - 1] == tours[i][|tours[i]| - 1]
  {
  }

  /** Moving a customer keeps two cities per tour and the depot markers. */
  lemma MoveKeepsShape(tours: Solution, j: int, i: int)
    requires 0 <= i < |tours| && 0 <= j < |tours| && i != j
    requires |tours[j]| > 2 && AtLeastDepots(tours)
    ensures AtLeastDepots(MoveFirstCustomer(tours, j, i))
    ensures DepotEnds(tours) ==> DepotEnds(MoveFirstCustomer(tours, j, i))
  {
    var res := MoveFirstCustomer(tours, j, i);
    MoveKeepsEnds(tours, j, i);
    if DepotEnds(tours) {
      forall q | 0 <= q < |res|
        ensures res[q][0] == 0 && res[q][|res[q]| - 1] == 0
      {
        if q != i && q != j {
          assert res[q] == tours[q];
        }
      }
    }
  }

  /** Moving a customer keeps the customer multiset. */
  lemma MoveKeepsCustomers(tours: Solution, j: int, i: int)
    requires 0 <= i < |tours| && 0 <= j < |tours| && i != j
    requires |tours[j]| > 2 && |tours[i]| >= 2
    ensures CustomerBag(MoveFirstCustomer(tours, j, i)) == CustomerBag(tours)
  {
    var tj, ti := tours[j], tours[i];
    var c := tj[1];
    var nj, ni := tj[..1] + tj[2..], ti[..1] + [c] + ti[1..];
    var mid := tours[j := nj];
    assert Interior(tj) == [c] + Interior(nj);
    assert Interior(ni) == [c] + Interior(ti);
    BagUpdate(tours, j, nj);
    BagUpdate(mid, i, ni);
    assert mid[i] == ti;
    var bi, bj := multiset(Interior(ti)), multiset(Interior(nj));
    forall x
      ensures CustomerBag(mid[i := ni])[x] == CustomerBag(tours)[x]
    {
      assert (CustomerBag(mid) + (multiset{c} + bj))[x] == (CustomerBag(tours) + bj)[x];
      assert (CustomerBag(mid[i := ni]) + bi)[x] == (CustomerBag(mid) + (multiset{c} + bi))[x];
    }
  }

  /** One pass of the repair loop's body, from tour i on. */
  function RepairFrom(tours: Solution, i: nat): Solution
    requires i <= |tours| && AtLeastDepots(tours)
    decreases |tours| - i
  {
    if i == |tours| then tours
    else if |tours[i]| == 2 then
      match FirstLong(tours, 0)
      case None => RepairFrom(tours, i + 1)
      case Some(j) => RepairFrom(MoveFirstCustomer(tours, j, i), i + 1)
    else RepairFrom(tours, i + 1)
  }

  /** A pass keeps the number of tours, the depot markers, the customers,
      and at least two cities per tour. */
  lemma {:induction false} RepairKeepsShape(tours: Solution, i: nat)
    requires i <= |tours| && AtLeastDepots(tours)
    ensures var res := RepairFrom(tours, i);
      && |res| == |tours| && AtLeastDepots(res)
      && CustomerBag(res) == CustomerBag(tours)
      && (DepotEnds(tours) ==> DepotEnds(res))
    decreases |tours| - i
  {
    if i < |tours| && |tours[i]| == 2 {
      match FirstLong(tours, 0)
      case None =>
        RepairKeepsShape(tours, i + 1);
      case Some(j) =>
        MoveKeepsCustomers(tours, j, i);
        MoveKeepsShape(tours, j, i);
        RepairKeepsShape(MoveFirstCustomer(tours, j, i), i + 1);
    } else if i < |tours| {
      RepairKeepsShape(tours, i + 1);
    }
  }

  /** Every tour starts and ends at the depot. */
  predicate DepotEnds(tours: Solution)
    requires AtLeastDepots(tours)
  {
    forall q :: 0 <= q < |tours| ==> tours[q][0] == 0 && tours[q][|tours[q]| - 1] == 0
  }

  /** The for-loops inside `while any(len(t) == 2 ...)`, as written, with the
      inner loop's `break`. */
  method RepairPass(tours: Solution) returns (res: Solution)
    requires AtLeastDepots(tours)
    ensures res == RepairFrom(tours, 0)
  {
    res := tours;
    var i := 0;
    while i < |res|
      invariant 0 <= i <= |res| == |tours|
      invariant AtLeastDepots(res)
      invariant RepairFrom(res, i) == RepairFrom(tours, 0)
    {
      if |res[i]| == 2 {
        ghost var before := res;
        var j := 0;
        while j < |res|
          invariant 0 <= j <= |res| && res == before
          invariant forall q :: 0 <= q < j ==> |res[q]| <= 2
        {
          if |res[j]| > 2 {
            assert FirstLong(before, 0) == Some(j);
            var client := res[j][1];
            res := res[j := res[j][..1] + res[j][2..]];
            res := res[i := res[i][..1] + [client] + res[i][1..]];
            assert res == MoveFirstCustomer(before, j, i);
            break;
          }
          j := j + 1;
        }
      }
      i := i + 1;
    }
  }

  /** The repair loop run for n rounds. */
  function Passes(tours: Solution, n: nat): Solution
    requires AtLeastDepots(tours)
    ensures AtLeastDepots(Passes(tours, n))
    decreases n
  {
    if n == 0 then tours
    else
      RepairKeepsShape(tours, 0);
      Passes(RepairFrom(tours, 0), n - 1)
  }

  /** With every tour holding a customer there are at least as many customers as tours. */
  lemma {:induction false} CustomersAtLeastTours(tours: Solution)
    requires forall q :: 0 <= q < |tours| ==> |tours[q]| > 2
    ensures |CustomerBag(tours)| >= |tours|
    decreases |tours|
  {
    if tours != [] {
      CustomersAtLeastTours(tours[..|tours| - 1]);
    }
  }

  /** Fewer customers than tours always leaves some tour without one, so the
      guard `any(len(t) == 2 ...)` holds after every round: the loop of
      `initialiser_solution` never ends. */
  lemma {:induction false} RepairLoopNeverEnds(tours: Solution, n: nat)
    requires AtLeastDepots(tours) && |CustomerBag(tours)| < |tours|
    ensures HasEmptyTour(Passes(tours, n))
    decreases n
  {
    if n == 0 {
      if !HasEmptyTour(tours) {
        CustomersAtLeastTours(tours);
      }
    } else {
      RepairKeepsShape(tours, 0);
      RepairLoopNeverEnds(RepairFrom(tours, 0), n - 1);
    }
  }

  /** The loop is entered exactly when there are fewer customers than
      vehicles; otherwise the round-robin tours are returned untouched. */
  lemma RepairGuard(clients: seq<int>, k: int, nbr: int)
    requires k >= 1 && Shuffled(clients, nbr)
    ensures HasEmptyTour(AnchoredTours(clients, k)) <==> nbr - 1 < k
  {
    var tours := AnchoredTours(clients, k);
    ShuffledFacts(clients, nbr);
    BucketsFilled(clients, k);
    if nbr - 1 < k {
      assert |tours[k - 1]| == 2;
    } else {
      forall q | 0 <= q < k
        ensures |tours[q]| > 2
      {
        assert |tours[q]| == |Bucket(clients, k, q)| + 2;
      }
    }
  }

  /** Once entered, the loop of `initialiser_solution` never ends: after any
      number of rounds its guard still holds. */
  lemma InitialiserLoopsForever(clients: seq<int>, k: int, nbr: int, n: nat)
    requires k >= 1 && Shuffled(clients, nbr) && nbr - 1 < k
    ensures HasEmptyTour(Passes(AnchoredTours(clients, k), n))
  {
    var tours := AnchoredTours(clients, k);
    ShuffledFacts(clients, nbr);
    BucketsBag(clients, k);
    assert |CustomerBag(tours)| == |clients|;
    RepairLoopNeverEnds(tours, n);
  }

  /** The concrete instance of the finding: two vehicles, one customer. The
      tours `[[0, 1, 0], [0, 0]]` become `[[0, 0], [0, 1, 0]]`, which every
      further round maps to itself, with a tour still empty. */
  lemma RepairCycles()
    ensures AnchoredTours([1], 2) == [[0, 1, 0], [0, 0]]
    ensures RepairFrom([[0, 1, 0], [0, 0]], 0) == [[0, 0], [0, 1, 0]]
    ensures RepairFrom([[0, 0], [0, 1, 0]], 0) == [[0, 0], [0, 1, 0]]
    ensures HasEmptyTour([[0, 0], [0, 1, 0]])
  {
    var one: seq<int> := [1];
    assert one[..0] == [];
    assert Bucket(one, 2, 0) == [1];
    assert Bucket(one, 2, 1) == [];
    var start := AnchoredTours(one, 2);
    assert start[0] == [0, 1, 0] && start[1] == [0, 0];
    var a: Solution := [[0, 1, 0], [0, 0]];
    var b: Solution := [[0, 0], [0, 1, 0]];
    var full, empty := a[0], a[1];
    assert full[..1] + full[2..] == [0, 0];
    assert empty[..1] + [1] + empty[1..] == [0, 1, 0];
    assert FirstLong(a, 0) == Some(0);
    assert MoveFirstCustomer(a, 0, 1) == b;
    assert RepairFrom(b, 2) == b;
    assert RepairFrom(a, 1) == b;
    assert FirstLong(b, 0) == Some(1);
    assert MoveFirstCustomer(b, 1, 0) == a;
    assert |b[0]| == 2;
  }

  /** `initialiser_solution` with the repair loop replaced by what it is
      evidently meant to achieve: the round-robin tours when every tour got a
      customer, which is exactly when the loop would not run, and an error
      where the source would loop forever. */
  method InitialiserSolution(k: int, nbr: int, clients: seq<int>) returns (r: Result<Solution>)
    requires k >= 1 && Shuffled(clients, nbr)
    ensures r.Failure? <==> nbr - 1 < k
    ensures r.Success? ==> r.value == AnchoredTours(clients, k) && WellFormed(r.value, k, nbr)
  {
    var tournees: Solution := seq(k, _ => []);
    var idx := 0;
    while idx < |clients|
      invariant 0 <= idx <= |clients| && |tournees| == k
      invariant forall q :: 0 <= q < k ==> tournees[q] == Bucket(clients[..idx], k, q)
    {
      assert clients[..idx + 1][..idx] == clients[..idx];
      tournees := tournees[idx % k := tournees[idx % k] + [clients[idx]]];
      idx := idx + 1;
    }
    assert clients[..idx] == clients;
    var i := 0;
    while i < k
      invariant 0 <= i <= k && |tournees| == k
      invariant forall q :: 0 <= q < i ==> tournees[q] == [0] + Bucket(clients, k, q) + [0]
      invariant forall q :: i <= q < k ==> tournees[q] == Bucket(clients, k, q)
    {
      tournees := tournees[i := [0] + tournees[i] + [0]];
      i := i + 1;
    }
    assert tournees == AnchoredTours(clients, k);
    RepairGuard(clients, k, nbr);
    if exists q :: 0 <= q < k && |tournees[q]| == 2 {
      return Failure(InstanceUnsolvable);
    }
    AnchoredToursWellFormed(clients, k, nbr);
    return Success(tournees);
  }
}
