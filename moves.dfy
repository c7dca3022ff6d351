/**
 * The cross-tour swap: one interior customer of one tour is exchanged with
 * one interior customer of another. The random positions come in as raw
 * draws of the random generator, reduced into the range `randint` uses.
 */
module Moves {
  import opened Routes

  /** `random.randint(1, len - 2)`, given the generator's raw draw. */
  function Pick(raw: nat, len: int): (p: int)
    requires len > 2
    ensures 1 <= p <= len - 2
  {
    1 + raw % (len - 2)
  }

  /** Every value `randint(1, len - 2)` can return is the pick of some draw,
      so taking draws as parameters leaves no run of the source out. */
  lemma PickCovers(len: int, p: int)
    requires len > 2 && 1 <= p <= len - 2
    ensures Pick(p - 1, len) == p
  {
  }

  /** `echanger_clients` on two tours: when both have a customer, the customers
      at the drawn interior positions change places; otherwise nothing happens. */
  function Exchange(r1: Tour, r2: Tour, a: nat, b: nat): (Tour, Tour)
  {
    if |r1| > 2 && |r2| > 2 then
      var i1, i2 := Pick(a, |r1|), Pick(b, |r2|);
      (r1[i1 := r2[i2]], r2[i2 := r1[i1]])
    else
      (r1, r2)
  }

  /** The exchange changes exactly one interior position of each tour when
      both have a customer, and nothing otherwise; it keeps lengths and end
      points. */
  lemma ExchangeShape(r1: Tour, r2: Tour, a: nat, b: nat)
    ensures var res := Exchange(r1, r2, a, b);
      && |res.0| == |r1| && |res.1| == |r2|
      && (|r1| > 0 ==> res.0[0] == r1[0] && res.0[|r1| - 1] == r1[|r1| - 1])
      && (|r2| > 0 ==> res.1[0] == r2[0] && res.1[|r2| - 1] == r2[|r2| - 1])
      && (|r1| > 2 && |r2| > 2 ==>
            exists i1, i2 :: 1 <= i1 <= |r1| - 2 && 1 <= i2 <= |r2| - 2 &&
              res.0 == r1[i1 := r2[i2]] && res.1 == r2[i2 := r1[i1]])
      && (!(|r1| > 2 && |r2| > 2) ==> res == (r1, r2))
  {
    if |r1| > 2 && |r2| > 2 {
      var i1, i2 := Pick(a, |r1|), Pick(b, |r2|);
      assert 1 <= i1 <= |r1| - 2 && 1 <= i2 <= |r2| - 2;
    }
  }

  /** The exchange keeps the multiset of customers of the two tours, and
      that of their cities. */
  lemma ExchangeKeepsCustomers(r1: Tour, r2: Tour, a: nat, b: nat)
    ensures var res := Exchange(r1, r2, a, b);
      && multiset(Interior(res.0)) + multiset(Interior(res.1)) == multiset(Interior(r1)) + multiset(Interior(r2))
      && multiset(res.0) + multiset(res.1) == multiset(r1) + multiset(r2)
  {
    if |r1| > 2 && |r2| > 2 {
      var i1, i2 := Pick(a, |r1|), Pick(b, |r2|);
      var x, y := r1[i1], r2[i2];
      assert Exchange(r1, r2, a, b) == (r1[i1 := y], r2[i2 := x]);
      var m1, m2 := Interior(r1), Interior(r2);
      assert m1[i1 - 1] == x && m2[i2 - 1] == y;
      assert Interior(r1[i1 := y]) == m1[i1 - 1 := y];
      assert Interior(r2[i2 := x]) == m2[i2 - 1 := x];
      TradeBags(m1, m2, i1 - 1, i2 - 1);
      TradeBags(r1, r2, i1, i2);
    }
  }

  /** Trading one entry of each of two lists keeps their joint bag. */
  lemma TradeBags(s1: seq<int>, s2: seq<int>, p1: int, p2: int)
    requires 0 <= p1 < |s1| && 0 <= p2 < |s2|
    ensures multiset(s1[p1 := s2[p2]]) + multiset(s2[p2 := s1[p1]]) == multiset(s1) + multiset(s2)
  {
    var x, y := s1[p1], s2[p2];
    assert multiset(s1[p1 := y]) == multiset(s1) - multiset{x} + multiset{y};
    assert multiset(s2[p2 := x]) == multiset(s2) - multiset{y} + multiset{x};
    assert x in multiset(s1) && y in multiset(s2);
    forall e
      ensures (multiset(s1[p1 := y]) + multiset(s2[p2 := x]))[e] == (multiset(s1) + multiset(s2))[e]
    {
    }
  }

  /** The source's in-place form: the cells of the two lists are swapped where
      they are. The two lists are distinct tours of one solution. */
  method EchangerClients(route1: array<int>, route2: array<int>, a: nat, b: nat)
    requires route1 != route2
    modifies route1, route2
    ensures (route1[..], route2[..]) == Exchange(old(route1[..]), old(route2[..]), a, b)
  {
    if route1.Length > 2 && route2.Length > 2 {
      var idx1 := Pick(a, route1.Length);
      var idx2 := Pick(b, route2.Length);
      route1[idx1], route2[idx2] := route2[idx2], route1[idx1];
    }
  }

  /** A swap between tours i and j of a solution, done on a copy. */
  function SwapInSolution(sol: Solution, i: int, j: int, a: nat, b: nat): Solution
    requires 0 <= i < |sol| && 0 <= j < |sol| && i != j
  {
    var e := Exchange(sol[i], sol[j], a, b);
    sol[i := e.0][j := e.1]
  }

  /** A swap visits the same customers as before. */
  lemma SwapKeepsCustomers(sol: Solution, i: int, j: int, a: nat, b: nat)
    requires 0 <= i < |sol| && 0 <= j < |sol| && i != j
    ensures CustomerBag(SwapInSolution(sol, i, j, a, b)) == CustomerBag(sol)
  {
    var e := Exchange(sol[i], sol[j], a, b);
    ExchangeKeepsCustomers(sol[i], sol[j], a, b);
    var mid := sol[i := e.0];
    var s := mid[j := e.1];
    BagUpdate(sol, i, e.0);
    BagUpdate(mid, j, e.1);
    assert mid[j] == sol[j];
    var oi, oj, ni, nj := multiset(Interior(sol[i])), multiset(Interior(sol[j])), multiset(Interior(e.0)), multiset(Interior(e.1));
    forall x
      ensures CustomerBag(s)[x] == CustomerBag(sol)[x]
    {
      assert (CustomerBag(mid) + oi)[x] == (CustomerBag(sol) + ni)[x];
      assert (CustomerBag(s) + oj)[x] == (CustomerBag(mid) + nj)[x];
      assert (ni + nj)[x] == (oi + oj)[x];
    }
    assert CustomerBag(s) == CustomerBag(sol);
  }

  /** A swap keeps every tour's length and end points. */
  lemma SwapKeepsTours(sol: Solution, i: int, j: int, a: nat, b: nat)
    requires 0 <= i < |sol| && 0 <= j < |sol| && i != j
    ensures var s := SwapInSolution(sol, i, j, a, b);
      && |s| == |sol|
      && (forall q :: 0 <= q < |s| ==> |s[q]| == |sol[q]|)
      && (forall q :: 0 <= q < |s| && |s[q]| > 0 ==> s[q][0] == sol[q][0] && s[q][|s[q]| - 1] == sol[q][|sol[q]| - 1])
  {
    var e := Exchange(sol[i], sol[j], a, b);
    ExchangeShape(sol[i], sol[j], a, b);
    var s := sol[i := e.0][j := e.1];
    forall q | 0 <= q < |s|
      ensures |s[q]| == |sol[q]|
      ensures |s[q]| > 0 ==> s[q][0] == sol[q][0] && s[q][|s[q]| - 1] == sol[q][|sol[q]| - 1]
    {
      if q == j {
        assert s[q] == e.1;
      } else if q == i {
        assert s[q] == e.0;
      } else {
        assert s[q] == sol[q];
      }
    }
  }

  /** A swap only moves cities around, so they stay in range. */
  lemma SwapKeepsRange(sol: Solution, i: int, j: int, a: nat, b: nat, n: int)
    requires 0 <= i < |sol| && 0 <= j < |sol| && i != j
    requires InRange(sol, n)
    ensures InRange(SwapInSolution(sol, i, j, a, b), n)
  {
    var e := Exchange(sol[i], sol[j], a, b);
    ExchangeShape(sol[i], sol[j], a, b);
    var s := SwapInSolution(sol, i, j, a, b);
    forall q | 0 <= q < |s|
      ensures InRangeTour(s[q], n)
    {
      if q == i || q == j {
        forall p | 0 <= p < |s[q]|
          ensures 0 <= s[q][p] < n
        {
          assert s[q][p] in multiset(e.0) + multiset(e.1);
          assert s[q][p] in multiset(sol[i]) + multiset(sol[j]);
        }
      }
    }
  }

  /** A swap keeps a well-formed solution well-formed. */
  lemma SwapKeepsWellFormed(sol: Solution, i: int, j: int, a: nat, b: nat, k: int, nbr: int)
    requires 0 <= i < |sol| && 0 <= j < |sol| && i != j
    requires WellFormed(sol, k, nbr)
    ensures WellFormed(SwapInSolution(sol, i, j, a, b), k, nbr)
  {
    SwapKeepsCustomers(sol, i, j, a, b);
    SwapKeepsTours(sol, i, j, a, b);
    SwapKeepsRange(sol, i, j, a, b, nbr);
  }
}
