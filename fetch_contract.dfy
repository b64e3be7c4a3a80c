/** What `findAllById` promises about the products it returns, and what
    the count check then implies. The repository returns only products that
    exist, each at most once, each for an id that was requested, with its
    current stock. Under that promise the count check alone already rules
    out missing ids and duplicate ids in the request, so the defensive
    "Product not found" branch of the stock scan is never taken. */
module FetchContract {
  import opened Domain
  import opened Validation

  /** The ids of a product list, in order. */
  function ProductIdSeq(ps: seq<Product>): seq<Id>
  {
    seq(|ps|, i requires 0 <= i < |ps| => ps[i].id)
  }

  /** The ids of a request, in order. */
  function RequestIdSeq(reqs: seq<Request>): seq<Id>
  {
    seq(|reqs|, i requires 0 <= i < |reqs| => reqs[i].id)
  }

  ghost predicate Distinct(s: seq<Id>)
  {
    forall i, j :: 0 <= i < j < |s| ==> s[i] != s[j]
  }

  function Elements(s: seq<Id>): set<Id>
  {
    set x | x in s
  }

  /** The ids of a request, as a set. */
  function RequestIds(reqs: seq<Request>): set<Id>
  {
    Elements(RequestIdSeq(reqs))
  }

  /** A sequence is without repeats exactly when its head does not recur
      in its tail and its tail is without repeats. */
  lemma DistinctCons(s: seq<Id>)
    requires s != []
    ensures Distinct(s) <==> s[0] !in s[1..] && Distinct(s[1..])
  {
  }

  /** A sequence has at most as many distinct elements as it has entries,
      and exactly as many when no element is repeated. */
  lemma {:induction false} ElementsCard(s: seq<Id>)
    ensures |Elements(s)| <= |s|
    ensures |Elements(s)| == |s| <==> Distinct(s)
  {
    if s != [] {
      var t := s[1..];
      ElementsCard(t);
      DistinctCons(s);
      assert s == [s[0]] + t;
      assert Elements(s) == {s[0]} + Elements(t);
      if s[0] in t {
        assert Elements(s) == Elements(t);
      } else {
        assert |Elements(s)| == |Elements(t)| + 1;
      }
    }
  }

  /** A subset that is as large as its superset is the whole of it. */
  lemma SubsetOfSameSize(a: set<Id>, b: set<Id>)
    requires a <= b && |b| <= |a|
    ensures a == b
  {
    var d := b - a;
    assert b == a + d;
    assert a * d == {};
    assert |b| == |a| + |d|;
    assert |d| == 0;
  }

  /** `findAllById`'s promise: the products returned are distinct, each was
      requested, and each carries the product's current stock. */
  ghost predicate FetchedFrom(stock: map<Id, int>, reqs: seq<Request>, ps: seq<Product>)
  {
    Distinct(ProductIdSeq(ps)) &&
    forall i :: 0 <= i < |ps| ==>
      ps[i].id in RequestIds(reqs) && ps[i].id in stock && stock[ps[i].id] == ps[i].quantity
  }

  /** When no more products came back than were requested, each distinct
      and each requested, the count check forces every requested id to be
      found and no requested id to be repeated. */
  lemma {:induction false} CountCheckForcesMatch(reqs: seq<Request>, ps: seq<Product>)
    requires Distinct(ProductIdSeq(ps))
    requires forall i :: 0 <= i < |ps| ==> ps[i].id in RequestIds(reqs)
    requires |ps| == |reqs|
    ensures forall i, j :: 0 <= i < j < |reqs| ==> reqs[i].id != reqs[j].id
    ensures forall i :: 0 <= i < |reqs| ==> Find(ps, reqs[i].id).Some?
  {
    var pids, rids := ProductIdSeq(ps), RequestIdSeq(reqs);
    ElementsCard(pids);
    ElementsCard(rids);
    forall x | x in Elements(pids) ensures x in Elements(rids) {
      var i :| 0 <= i < |pids| && pids[i] == x;
      assert ps[i].id in RequestIds(reqs);
    }
    SubsetOfSameSize(Elements(pids), Elements(rids));
    forall i | 0 <= i < |reqs| ensures Find(ps, reqs[i].id).Some? {
      assert rids[i] in Elements(rids);
      var j :| 0 <= j < |pids| && pids[j] == rids[i];
      assert ps[j].id == reqs[i].id;
    }
    forall i, j | 0 <= i < j < |reqs| ensures reqs[i].id != reqs[j].id {
      assert rids[i] != rids[j];
    }
  }

  /** An id that does not exist leaves the fetched list shorter than the
      request, so the order is refused as invalid products. */
  lemma UnknownIdIsInvalid(c: Customer, stock: map<Id, int>, reqs: seq<Request>, ps: seq<Product>, i: nat)
    requires FetchedFrom(stock, reqs, ps)
    requires i < |reqs| && reqs[i].id !in stock
    ensures Decide(Some(c), reqs, ps) == Err(ProductsInvalid)
  {
    if |ps| == |reqs| {
      CountCheckForcesMatch(reqs, ps);
      assert false;
    }
  }

  /** A product id requested twice also leaves the fetched list shorter
      than the request: the count check catches duplicates. */
  lemma DuplicateIdIsInvalid(c: Customer, stock: map<Id, int>, reqs: seq<Request>, ps: seq<Product>, i: nat, j: nat)
    requires FetchedFrom(stock, reqs, ps)
    requires i < j < |reqs| && reqs[i].id == reqs[j].id
    ensures Decide(Some(c), reqs, ps) == Err(ProductsInvalid)
  {
    if |ps| == |reqs| {
      CountCheckForcesMatch(reqs, ps);
      assert false;
    }
  }

  /** With products fetched as promised, the stock scan's "Product not
      found" error cannot occur: every refusal after the count check is for
      insufficient stock. */
  lemma ProductNotFoundUnreachable(customer: Option<Customer>, stock: map<Id, int>, reqs: seq<Request>, ps: seq<Product>)
    requires FetchedFrom(stock, reqs, ps)
    ensures Decide(customer, reqs, ps) != Err(ProductNotFound)
  {
    if customer.Some? && 0 < |reqs| == |ps| {
      CountCheckForcesMatch(reqs, ps);
      var r := StockCheck(reqs, ps);
      if r.Fail? {
        var w :| 0 <= w < |reqs| && r == ItemCheck(reqs[w], ps);
        assert Find(ps, reqs[w].id).Some?;
      } else {
        NotFoundUnreachableAfterScan(reqs, ps);
      }
    }
  }
}
