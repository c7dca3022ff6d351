/**
 * The round-robin distribution every initialiser starts with: the customer
 * at position idx of the shuffled list is appended to tour idx % k.
 */
module RoundRobin {
  import opened Routes

  /** The customers that land in tour r, in the order they were appended. */
  function Bucket(clients: seq<int>, k: int, r: int): seq<int>
    requires k >= 1
  {
    if clients == [] then []
    else
      var n := |clients| - 1;
      Bucket(clients[..n], k, r) + (if n % k == r then [clients[n]] else [])
  }

  /** Tour r of the French initialisers after the depot is added at both ends. */
  function AnchoredTours(clients: seq<int>, k: int): Solution
    requires k >= 1
  {
    seq(k, r requires 0 <= r < k => [0] + Bucket(clients, k, r) + [0])
  }

  /** Route r of test2.py and charge.py: the depot is added only around a
      non-empty route, an empty one stays empty. */
  function WrappedTours(clients: seq<int>, k: int): Solution
    requires k >= 1
  {
    seq(k, r requires 0 <= r < k => if Bucket(clients, k, r) == [] then [] else [0] + Bucket(clients, k, r) + [0])
  }

  /** A value is in bucket r exactly when it sits at a position idx of the
      list with idx % k == r. */
  lemma {:induction false} BucketMembers(clients: seq<int>, k: int, r: int, x: int)
    requires k >= 1
    ensures x in Bucket(clients, k, r) <==> exists idx :: 0 <= idx < |clients| && idx % k == r && clients[idx] == x
    decreases |clients|
  {
    if clients != [] {
      var n := |clients| - 1;
      BucketMembers(clients[..n], k, r, x);
      if x in Bucket(clients, k, r) && !(x in Bucket(clients[..n], k, r)) {
        assert clients[n] == x && n % k == r;
      }
      if exists idx :: 0 <= idx < |clients| && idx % k == r && clients[idx] == x {
        var idx :| 0 <= idx < |clients| && idx % k == r && clients[idx] == x;
        if idx < n {
          assert clients[..n][idx] == x;
        }
      }
    }
  }

  /** The customer at position idx is appended to tour idx % k. */
  lemma CustomerLandsInTour(clients: seq<int>, k: int, idx: int)
    requires k >= 1 && 0 <= idx < |clients|
    ensures clients[idx] in AnchoredTours(clients, k)[idx % k]
    ensures clients[idx] in WrappedTours(clients, k)[idx % k]
  {
    BucketMembers(clients, k, idx % k, clients[idx]);
  }

  /** With at least k customers every tour receives one; with fewer, the last
      tour receives none. */
  lemma BucketsFilled(clients: seq<int>, k: int)
    requires k >= 1
    ensures |clients| >= k ==> forall r :: 0 <= r < k ==> |Bucket(clients, k, r)| >= 1
    ensures |clients| < k ==> Bucket(clients, k, k - 1) == []
  {
    if |clients| >= k {
      forall r | 0 <= r < k
        ensures |Bucket(clients, k, r)| >= 1
      {
        ModBelow(r, k);
        BucketMembers(clients, k, r, clients[r]);
      }
    } else {
      var b := Bucket(clients, k, k - 1);
      if b != [] {
        BucketMembers(clients, k, k - 1, b[0]);
        var idx :| 0 <= idx < |clients| && idx % k == k - 1 && clients[idx] == b[0];
        ModBelow(idx, k);
      }
    }
  }

  /** A residue below the modulus is itself. */
  lemma ModBelow(a: int, k: int)
    requires 0 <= a < k
    ensures a % k == a
  {
  }

  /** The customer bag of a solution depends only on the interiors of its tours. */
  lemma {:induction false} BagByInteriors(s: Solution, t: Solution)
    requires |s| == |t|
    requires forall q :: 0 <= q < |s| ==> Interior(s[q]) == Interior(t[q])
    ensures CustomerBag(s) == CustomerBag(t)
    decreases |s|
  {
    if s != [] {
      BagByInteriors(s[..|s| - 1], t[..|t| - 1]);
    }
  }

  /** Appending one customer grows exactly the tour its position selects. */
  lemma AnchoredSnoc(prev: seq<int>, x: int, k: int)
    requires k >= 1
    ensures var q := |prev| % k;
      AnchoredTours(prev + [x], k) == AnchoredTours(prev, k)[q := [0] + Bucket(prev, k, q) + [x] + [0]]
  {
    var clients := prev + [x];
    assert clients[..|prev|] == prev;
    var q := |prev| % k;
    var lhs, rhs := AnchoredTours(clients, k), AnchoredTours(prev, k)[q := [0] + Bucket(prev, k, q) + [x] + [0]];
    forall r | 0 <= r < k
      ensures lhs[r] == rhs[r]
    {
      assert Bucket(clients, k, r) == Bucket(prev, k, r) + (if q == r then [x] else []);
    }
  }

  /** Cancelling the same bag from both sides of an equation. */
  lemma Cancel(a: multiset<int>, b: multiset<int>, c: multiset<int>, x: int)
    requires a + b == c + (b + multiset{x})
    ensures a == c + multiset{x}
  {
    forall e
      ensures a[e] == (c + multiset{x})[e]
    {
      assert (a + b)[e] == (c + (b + multiset{x}))[e];
    }
  }

  /** The buckets together hold the whole customer list. */
  lemma {:induction false} BucketsBag(clients: seq<int>, k: int)
    requires k >= 1
    ensures CustomerBag(AnchoredTours(clients, k)) == multiset(clients)
    decreases |clients|
  {
    if clients == [] {
      var tours, blank := AnchoredTours(clients, k), seq(k, r => [0, 0]);
      forall q | 0 <= q < k
        ensures Interior(tours[q]) == Interior(blank[q])
      {
        assert tours[q] == [0, 0];
      }
      EmptyInteriorsBag(blank);
      BagByInteriors(tours, blank);
    } else {
      var n := |clients| - 1;
      var prev, x := clients[..n], clients[n];
      assert clients == prev + [x];
      var q := n % k;
      var before := AnchoredTours(prev, k);
      var grown := [0] + Bucket(prev, k, q) + [x] + [0];
      BucketsBag(prev, k);
      AnchoredSnoc(prev, x, k);
      assert Interior(before[q]) == Bucket(prev, k, q);
      assert Interior(grown) == Bucket(prev, k, q) + [x];
      BagUpdate(before, q, grown);
      Cancel(CustomerBag(before[q := grown]), multiset(Bucket(prev, k, q)), multiset(prev), x);
    }
  }

  /** Tours with nothing between their ends contribute no customer. */
  lemma {:induction false} EmptyInteriorsBag(s: Solution)
    requires forall q :: 0 <= q < |s| ==> Interior(s[q]) == []
    ensures CustomerBag(s) == multiset{}
    decreases |s|
  {
    if s != [] {
      EmptyInteriorsBag(s[..|s| - 1]);
    }
  }

  /** Routes of test2.py and charge.py hold the same customers as the buckets. */
  lemma WrappedBag(clients: seq<int>, k: int)
    requires k >= 1
    ensures CustomerBag(WrappedTours(clients, k)) == multiset(clients)
  {
    var w, a := WrappedTours(clients, k), AnchoredTours(clients, k);
    forall q | 0 <= q < k
      ensures Interior(w[q]) == Interior(a[q])
    {
      assert Interior(a[q]) == Bucket(clients, k, q);
    }
    BagByInteriors(w, a);
    BucketsBag(clients, k);
  }

  /** Every bucket element is an element of the list. */
  lemma BucketInRange(clients: seq<int>, k: int, r: int, lo: int, hi: int)
    requires k >= 1
    requires forall i :: 0 <= i < |clients| ==> lo <= clients[i] < hi
    ensures forall i :: 0 <= i < |Bucket(clients, k, r)| ==> lo <= Bucket(clients, k, r)[i] < hi
  {
    var b := Bucket(clients, k, r);
    forall i | 0 <= i < |b|
      ensures lo <= b[i] < hi
    {
      BucketMembers(clients, k, r, b[i]);
    }
  }

  /** Given a shuffle of the customers of an nbr-city instance and at least
      as many customers as vehicles, the anchored round-robin tours are a
      well-formed solution. */
  lemma AnchoredToursWellFormed(clients: seq<int>, k: int, nbr: int)
    requires k >= 1 && Shuffled(clients, nbr) && nbr - 1 >= k
    ensures WellFormed(AnchoredTours(clients, k), k, nbr)
  {
    var tours := AnchoredTours(clients, k);
    ShuffledFacts(clients, nbr);
    CustomerSetIsCustomers(nbr);
    BucketsFilled(clients, k);
    BucketsBag(clients, k);
    forall q | 0 <= q < k
      ensures GoodTour(tours[q]) && InRangeTour(tours[q], nbr)
    {
      BucketInRange(clients, k, q, 1, nbr);
    }
  }

  /** One route of test2.py: empty, or a depot-anchored route whose
      customers come from the list. */
  lemma WrappedTourShape(clients: seq<int>, k: int, q: int, hi: int)
    requires k >= 1 && 0 <= q < k
    requires forall i :: 0 <= i < |clients| ==> 1 <= clients[i] < hi
    ensures InRangeTour(WrappedTours(clients, k)[q], hi)
    ensures WrappedTours(clients, k)[q] == [] || GoodTour(WrappedTours(clients, k)[q])
  {
    var b := Bucket(clients, k, q);
    BucketInRange(clients, k, q, 1, hi);
    if b != [] {
      var t := [0] + b + [0];
      assert WrappedTours(clients, k)[q] == t;
      assert 1 <= b[0] < hi;
      forall i | 0 <= i < |t|
        ensures 0 <= t[i] < hi
      {
        if 0 < i < |t| - 1 {
          assert t[i] == b[i - 1];
        }
      }
    }
  }

  /** The routes of test2.py partition the customers 1 .. n and every
      non-empty route is depot-anchored. */
  lemma {:induction false} WrappedToursPartition(clients: seq<int>, k: int, n: int)
    requires k >= 1 && Shuffled(clients, n + 1)
    ensures Partition(WrappedTours(clients, k), n + 1)
    ensures InRange(WrappedTours(clients, k), n + 1)
    ensures forall q :: 0 <= q < k ==> WrappedTours(clients, k)[q] == [] || GoodTour(WrappedTours(clients, k)[q])
  {
    WrappedBag(clients, k);
    CustomerSetIsCustomers(n + 1);
    ShuffledFacts(clients, n + 1);
    forall q | 0 <= q < k
      ensures InRangeTour(WrappedTours(clients, k)[q], n + 1)
      ensures WrappedTours(clients, k)[q] == [] || GoodTour(WrappedTours(clients, k)[q])
    {
      WrappedTourShape(clients, k, q, n + 1);
    }
  }
}
