/** Routes of a compiled contract under reordering (tools/ojos-service/src/lib.rs): the order in
    which a service source declares exposures and operations changes only the order of routes. */
module CanonicalOrder {
  import opened ContractRoutes
  import opened Ordering

  lemma {:induction false} RoutesForWithout(e: Exposure, ops: seq<Operation>, k: nat)
    requires k < |ops|
    ensures multiset(RoutesFor(e, ops)) == multiset(RoutesFor(e, Without(ops, k))) + multiset(Contribution(e, ops[k]))
    decreases |ops|
  {
    hide Contribution;
    var n := |ops| - 1;
    RoutesForLast(e, ops, ops[..n], ops[n]);
    if k < n {
      RoutesForWithout(e, ops[..n], k);
      assert ops[..n][k] == ops[k];
      RoutesForLast(e, Without(ops, k), Without(ops[..n], k), ops[n]);
    } else {
      assert Without(ops, k) == ops[..n];
    }
  }

  lemma RoutesForLast(e: Exposure, ops: seq<Operation>, init: seq<Operation>, last: Operation)
    requires ops == init + [last]
    ensures multiset(RoutesFor(e, ops)) == multiset(RoutesFor(e, init)) + multiset(Contribution(e, last))
  {
    hide Contribution;
    assert ops[..|ops|-1] == init;
  }

  lemma {:induction false} RoutesForPermuted(e: Exposure, a: seq<Operation>, b: seq<Operation>)
    requires multiset(a) == multiset(b)
    ensures multiset(RoutesFor(e, a)) == multiset(RoutesFor(e, b))
    decreases |a|
  {
    SameLength(a, b);
    if a != [] {
      var k := MatchLast(a, b);
      RoutesForWithout(e, b, k);
      RoutesForPermuted(e, a[..|a|-1], Without(b, k));
    }
  }

  lemma {:induction false} AllRoutesWithout(es: seq<Exposure>, ops: seq<Operation>, k: nat)
    requires k < |es|
    ensures multiset(AllRoutes(es, ops)) == multiset(AllRoutes(Without(es, k), ops)) + multiset(RoutesFor(es[k], ops))
    decreases |es|
  {
    hide RoutesFor;
    var n := |es| - 1;
    assert es == es[..n] + [es[n]];
    AllRoutesLast(es, es[..n], es[n], ops);
    if k < n {
      AllRoutesWithout(es[..n], ops, k);
      assert es[..n][k] == es[k];
      assert Without(es, k) == Without(es[..n], k) + [es[n]];
      AllRoutesLast(Without(es, k), Without(es[..n], k), es[n], ops);
    } else {
      assert Without(es, k) == es[..n];
    }
  }

  lemma AllRoutesLast(es: seq<Exposure>, init: seq<Exposure>, last: Exposure, ops: seq<Operation>)
    requires es == init + [last]
    ensures multiset(AllRoutes(es, ops)) == multiset(AllRoutes(init, ops)) + multiset(RoutesFor(last, ops))
  {
    hide RoutesFor;
    assert es[..|es|-1] == init;
  }

  /** Reordering exposures and operations reorders the routes and nothing else. */
  lemma {:induction false} AllRoutesPermuted(a: seq<Exposure>, b: seq<Exposure>, ops: seq<Operation>, ops': seq<Operation>)
    requires multiset(a) == multiset(b) && multiset(ops) == multiset(ops')
    ensures multiset(AllRoutes(a, ops)) == multiset(AllRoutes(b, ops'))
    decreases |a|
  {
    SameLength(a, b);
    if a != [] {
      var k := MatchLast(a, b);
      AllRoutesWithout(b, ops', k);
      AllRoutesPermuted(a[..|a|-1], Without(b, k), ops, ops');
      RoutesForPermuted(b[k], ops, ops');
    }
  }

  lemma {:induction false} CountSelectingWithout(es: seq<Exposure>, o: Operation, k: nat)
    requires k < |es|
    ensures CountSelecting(es, o) == CountSelecting(Without(es, k), o) + if Selects(es[k], o) then 1 else 0
    decreases |es|
  {
    var n := |es| - 1;
    if k < n {
      CountSelectingWithout(es[..n], o, k);
      assert Without(es, k)[..n-1] == Without(es[..n], k);
      assert Without(es, k)[n-1] == es[n];
    } else {
      assert Without(es, k) == es[..n];
    }
  }

  lemma {:induction false} CountSelectingPermuted(a: seq<Exposure>, b: seq<Exposure>, o: Operation)
    requires multiset(a) == multiset(b)
    ensures CountSelecting(a, o) == CountSelecting(b, o)
    decreases |a|
  {
    SameLength(a, b);
    if a != [] {
      var k := MatchLast(a, b);
      CountSelectingWithout(b, o, k);
      CountSelectingPermuted(a[..|a|-1], Without(b, k), o);
    }
  }

  // ----- collisions -------------------------------------------------------------------------

  lemma CollisionFreePermuted(a: seq<Route>, b: seq<Route>)
    requires multiset(a) == multiset(b) && CollisionFree(a)
    ensures CollisionFree(b)
  {
    forall i, j | 0 <= i < j < |b| ensures !Collides(b[i], b[j]) {
      if b[i] == b[j] {
        TwoPositions(b, i, j);
        CountPositions(a, b[i]);
        var p, q :| 0 <= p < q < |a| && a[p] == b[i] && a[q] == b[i];
        assert !Collides(a[p], a[q]);
      } else {
        assert b[i] in multiset(a) && b[j] in multiset(a);
        var p :| 0 <= p < |a| && a[p] == b[i];
        var q :| 0 <= q < |a| && a[q] == b[j];
        if p < q { assert !Collides(a[p], a[q]); } else { assert !Collides(a[q], a[p]); }
      }
    }
  }

  lemma CompilablePermuted(a: seq<Exposure>, b: seq<Exposure>, ops: seq<Operation>, ops': seq<Operation>, apis: set<string>)
    requires multiset(a) == multiset(b) && multiset(ops) == multiset(ops')
    requires Compilable(a, ops, apis)
    ensures Compilable(b, ops', apis)
  {
    forall i | 0 <= i < |b| ensures b[i].api in apis && SelectsSome(b[i], ops') {
      assert b[i] in multiset(a);
      var p :| 0 <= p < |a| && a[p] == b[i];
      var q :| 0 <= q < |ops| && Selects(a[p], ops[q]);
      assert ops[q] in multiset(ops');
      var r :| 0 <= r < |ops'| && ops'[r] == ops[q];
    }
    forall i | 0 <= i < |ops'|
      ensures CountSelecting(b, ops'[i]) == if ops'[i].audience == INTERNAL then 0 else 1
    {
      assert ops'[i] in multiset(ops);
      var p :| 0 <= p < |ops| && ops[p] == ops'[i];
      CountSelectingPermuted(a, b, ops[p]);
    }
    AllRoutesPermuted(a, b, ops, ops');
    CollisionFreePermuted(AllRoutes(a, ops), AllRoutes(b, ops'));
  }
}
