/** Sorting lists by keys: sorted lists without ties are canonical, and what is said about a list
    through its members, keys and counts does not depend on its order. */
module Ordering {

  ghost predicate SortedBy<T(!new)>(s: seq<T>, leq: (T, T) -> bool) {
    forall i, j :: 0 <= i < j < |s| ==> leq(s[i], s[j])
  }

  /** Only equal elements tie. */
  ghost predicate DistinctKeys<T(!new)>(s: seq<T>, leq: (T, T) -> bool) {
    forall x, y :: x in s && y in s && leq(x, y) && leq(y, x) ==> x == y
  }

  /** Sorting is canonical: two sorted permutations of one list without ties are the same
      list. This is what each `sort_by` of `compile` and `sort_contract` relies on. */
  lemma {:induction false} SortedIsUnique<T(!new)>(a: seq<T>, b: seq<T>, leq: (T, T) -> bool)
    requires multiset(a) == multiset(b) && DistinctKeys(a, leq)
    requires SortedBy(a, leq) && SortedBy(b, leq)
    ensures a == b
    decreases |a|
  {
    hide SortedBy, DistinctKeys;
    SameLength(a, b);
    if a != [] {
      SameFirst(a, b, leq);
      TailMultiset(a, b);
      SortedTail(a, leq);
      SortedTail(b, leq);
      SortedIsUnique(a[1..], b[1..], leq);
      assert a == [a[0]] + a[1..] && b == [b[0]] + b[1..];
    }
  }

  lemma SameLength<T>(a: seq<T>, b: seq<T>)
    requires multiset(a) == multiset(b)
    ensures |a| == |b|
  {
    assert |multiset(a)| == |a| && |multiset(b)| == |b|;
  }

  lemma TailMultiset<T>(a: seq<T>, b: seq<T>)
    requires multiset(a) == multiset(b) && |a| > 0 && |b| > 0 && a[0] == b[0]
    ensures multiset(a[1..]) == multiset(b[1..])
  {
    MultisetWithout(a, 0);
    MultisetWithout(b, 0);
    assert Without(a, 0) == a[1..] && Without(b, 0) == b[1..];
    Cancel(multiset(a[1..]), multiset(b[1..]), a[0]);
  }

  lemma SameFirst<T(!new)>(a: seq<T>, b: seq<T>, leq: (T, T) -> bool)
    requires multiset(a) == multiset(b) && DistinctKeys(a, leq) && |a| > 0 && |b| > 0
    requires SortedBy(a, leq) && SortedBy(b, leq)
    ensures a[0] == b[0]
  {
    assert a[0] in multiset(b) && b[0] in multiset(a);
    var i :| 0 <= i < |b| && b[i] == a[0];
    var j :| 0 <= j < |a| && a[j] == b[0];
    if i > 0 && j > 0 {
      assert leq(b[0], b[i]) && leq(a[0], a[j]);
    }
  }

  lemma SortedTail<T(!new)>(s: seq<T>, leq: (T, T) -> bool)
    requires SortedBy(s, leq) && |s| > 0
    ensures SortedBy(s[1..], leq)
    ensures DistinctKeys(s, leq) ==> DistinctKeys(s[1..], leq)
  {
    assert forall x :: x in s[1..] ==> x in s;
  }

  // ----- sorting by keys --------------------------------------------------------------------

  /** A total order, as `cmp` of a key is. */
  ghost predicate IsOrder<K(!new)>(leq: (K, K) -> bool) {
    && (forall x, y :: leq(x, y) || leq(y, x))
    && (forall x, y :: leq(x, y) && leq(y, x) ==> x == y)
    && (forall x, y, z :: leq(x, y) && leq(y, z) ==> leq(x, z))
  }

  /** A stable sort by key, as `sort_by` is. */
  function SortByKey<T, K>(s: seq<T>, key: T -> K, leq: (K, K) -> bool): seq<T> {
    if s == [] then [] else Insert(s[0], SortByKey(s[1..], key, leq), key, leq)
  }

  function Insert<T, K>(x: T, s: seq<T>, key: T -> K, leq: (K, K) -> bool): seq<T> {
    if s == [] then [x]
    else if leq(key(x), key(s[0])) then [x] + s
    else [s[0]] + Insert(x, s[1..], key, leq)
  }

  ghost predicate SortedByKey<T, K>(s: seq<T>, key: T -> K, leq: (K, K) -> bool) {
    forall i, j :: 0 <= i < j < |s| ==> leq(key(s[i]), key(s[j]))
  }

  lemma {:induction false} InsertAdds<T, K>(x: T, s: seq<T>, key: T -> K, leq: (K, K) -> bool)
    ensures multiset(Insert(x, s, key, leq)) == multiset{x} + multiset(s)
  {
    if s != [] {
      assert s == [s[0]] + s[1..];
      InsertAdds(x, s[1..], key, leq);
    }
  }

  lemma {:induction false} InsertSorts<T, K(!new)>(x: T, s: seq<T>, key: T -> K, leq: (K, K) -> bool)
    requires IsOrder(leq) && SortedByKey(s, key, leq)
    ensures SortedByKey(Insert(x, s, key, leq), key, leq)
  {
    if s != [] && !leq(key(x), key(s[0])) {
      var tail := s[1..];
      var rest := Insert(x, tail, key, leq);
      InsertSorts(x, tail, key, leq);
      InsertAdds(x, tail, key, leq);
      forall i | 0 <= i < |rest| ensures leq(key(s[0]), key(rest[i])) {
        assert rest[i] in multiset(rest);
        if rest[i] != x { var k :| 0 <= k < |tail| && tail[k] == rest[i]; }
      }
      SortedCons(s[0], rest, key, leq);
    } else if s != [] {
      forall i | 0 <= i < |s| ensures leq(key(x), key(s[i])) {
        assert leq(key(x), key(s[0])) && (i > 0 ==> leq(key(s[0]), key(s[i])));
      }
      SortedCons(x, s, key, leq);
    }
  }

  lemma SortedCons<T, K>(x: T, s: seq<T>, key: T -> K, leq: (K, K) -> bool)
    requires SortedByKey(s, key, leq) && forall i :: 0 <= i < |s| ==> leq(key(x), key(s[i]))
    ensures SortedByKey([x] + s, key, leq)
  {
  }

  lemma {:induction false} SortSorts<T, K(!new)>(s: seq<T>, key: T -> K, leq: (K, K) -> bool)
    requires IsOrder(leq)
    ensures Sorts(SortByKey(s, key, leq), s, key, leq)
  {
    if s != [] {
      SortSorts(s[1..], key, leq);
      InsertSorts(s[0], SortByKey(s[1..], key, leq), key, leq);
      InsertAdds(s[0], SortByKey(s[1..], key, leq), key, leq);
      assert s == [s[0]] + s[1..];
    }
  }

  /** No two entries share a key. */
  ghost predicate Distinct<T, K>(s: seq<T>, key: T -> K) {
    forall i, j :: 0 <= i < j < |s| ==> key(s[i]) != key(s[j])
  }

  /** `out` lists the entries of `s` in the order of their keys. */
  ghost predicate Sorts<T, K>(out: seq<T>, s: seq<T>, key: T -> K, leq: (K, K) -> bool) {
    multiset(out) == multiset(s) && SortedByKey(out, key, leq)
  }

  /** A keyed list is canonical: with distinct keys, any two orders of declaration are sorted
      into the same list, by whatever algorithm. */
  lemma KeyedListIsCanonical<T(!new), K(!new)>(declared: seq<T>, reordered: seq<T>, a: seq<T>, b: seq<T>,
                                               key: T -> K, leq: (K, K) -> bool)
    requires multiset(declared) == multiset(reordered) && Distinct(declared, key) && IsOrder(leq)
    requires Sorts(a, declared, key, leq) && Sorts(b, reordered, key, leq)
    ensures a == b
  {
    var order := (x, y) => leq(key(x), key(y));
    forall x, y | x in a && y in a && order(x, y) && order(y, x) ensures x == y {
      assert x in multiset(declared) && y in multiset(declared);
      var i :| 0 <= i < |declared| && declared[i] == x;
      var j :| 0 <= j < |declared| && declared[j] == y;
      assert key(x) == key(y);
    }
    SortedIsUnique(a, b, order);
  }

  // ----- permutations -----------------------------------------------------------------------

  function Without<T>(s: seq<T>, k: nat): seq<T>
    requires k < |s|
  {
    s[..k] + s[k+1..]
  }

  /** The last element of one permutation sits somewhere in the other. */
  lemma MatchLast<T>(a: seq<T>, b: seq<T>) returns (k: nat)
    requires multiset(a) == multiset(b) && a != []
    ensures k < |b| && b[k] == a[|a|-1]
    ensures multiset(a[..|a|-1]) == multiset(Without(b, k))
  {
    var n := |a| - 1;
    assert a == a[..n] + [a[n]];
    assert a[n] in multiset(b);
    k :| 0 <= k < |b| && b[k] == a[n];
    MultisetWithout(a, n);
    MultisetWithout(b, k);
    assert Without(a, n) == a[..n];
    Cancel(multiset(a[..n]), multiset(Without(b, k)), a[n]);
  }

  lemma Cancel<T>(a: multiset<T>, b: multiset<T>, x: T)
    requires a + multiset{x} == b + multiset{x}
    ensures a == b
  {
    assert a == (a + multiset{x}) - multiset{x};
    assert b == (b + multiset{x}) - multiset{x};
  }

  lemma MultisetWithout<T>(s: seq<T>, k: nat)
    requires k < |s|
    ensures multiset(s) == multiset(Without(s, k)) + multiset{s[k]}
  {
    assert s == s[..k] + [s[k]] + s[k+1..];
  }

  lemma {:induction false} CountPositions<T>(s: seq<T>, x: T)
    requires multiset(s)[x] >= 2
    ensures exists i, j :: 0 <= i < j < |s| && s[i] == x && s[j] == x
    decreases |s|
  {
    var n := |s| - 1;
    assert s == s[..n] + [s[n]];
    if s[n] == x {
      assert x in multiset(s[..n]);
      var i :| 0 <= i < n && s[..n][i] == x;
      assert s[i] == x && s[n] == x;
    } else {
      CountPositions(s[..n], x);
      var i, j :| 0 <= i < j < n && s[..n][i] == x && s[..n][j] == x;
      assert s[i] == x && s[j] == x;
    }
  }

  lemma TwoPositions<T>(s: seq<T>, i: nat, j: nat)
    requires i < j < |s| && s[i] == s[j]
    ensures multiset(s)[s[i]] >= 2
  {
    assert s == s[..i] + [s[i]] + s[i+1..j] + [s[j]] + s[j+1..];
  }

  lemma DistinctPermuted<T, K>(a: seq<T>, b: seq<T>, key: T -> K)
    requires multiset(a) == multiset(b) && Distinct(a, key)
    ensures Distinct(b, key)
  {
    forall i, j | 0 <= i < j < |b| ensures key(b[i]) != key(b[j]) {
      if b[i] == b[j] {
        TwoPositions(b, i, j);
        CountPositions(a, b[i]);
        assert false;
      } else {
        assert b[i] in multiset(a) && b[j] in multiset(a);
        var p :| 0 <= p < |a| && a[p] == b[i];
        var q :| 0 <= q < |a| && a[q] == b[j];
        if p < q { assert key(a[p]) != key(a[q]); } else { assert key(a[q]) != key(a[p]); }
      }
    }
  }

  lemma SameMembers<T>(a: seq<T>, b: seq<T>)
    requires multiset(a) == multiset(b)
    ensures forall x :: x in a <==> x in b
    ensures |a| == |b|
  {
    SameLength(a, b);
    forall x ensures x in a <==> x in b {
      assert x in a <==> x in multiset(a);
      assert x in b <==> x in multiset(b);
    }
  }

  /** The lists of all entries, one after the other. */
  function Flat<T, U>(s: seq<T>, of: T -> seq<U>): seq<U> {
    if s == [] then [] else Flat(s[..|s|-1], of) + of(s[|s|-1])
  }

  lemma {:induction false} FlatMember<T, U>(s: seq<T>, of: T -> seq<U>, x: T, y: U)
    requires x in s && y in of(x)
    ensures y in Flat(s, of)
  {
    var n := |s| - 1;
    if s[n] != x {
      assert s == s[..n] + [s[n]];
      FlatMember(s[..n], of, x, y);
    }
  }

  lemma FlatLast<T, U>(s: seq<T>, init: seq<T>, last: T, of: T -> seq<U>)
    requires s == init + [last]
    ensures multiset(Flat(s, of)) == multiset(Flat(init, of)) + multiset(of(last))
  {
    assert s[..|s|-1] == init;
  }

  lemma {:induction false} FlatWithout<T, U>(s: seq<T>, k: nat, of: T -> seq<U>)
    requires k < |s|
    ensures multiset(Flat(s, of)) == multiset(Flat(Without(s, k), of)) + multiset(of(s[k]))
    decreases |s|
  {
    var n := |s| - 1;
    FlatLast(s, s[..n], s[n], of);
    if k < n {
      FlatWithout(s[..n], k, of);
      FlatLast(Without(s, k), Without(s[..n], k), s[n], of);
    } else {
      assert Without(s, k) == s[..n];
    }
  }

  lemma {:induction false} FlatPermuted<T, U>(a: seq<T>, b: seq<T>, of: T -> seq<U>)
    requires multiset(a) == multiset(b)
    ensures multiset(Flat(a, of)) == multiset(Flat(b, of))
    decreases |a|
  {
    SameLength(a, b);
    if a != [] {
      var k := MatchLast(a, b);
      FlatWithout(b, k, of);
      FlatPermuted(a[..|a|-1], Without(b, k), of);
    }
  }

  // ----- lexicographic orders ---------------------------------------------------------------

  /** Comparing by the first elements that differ; a prefix comes first. */
  predicate LexLeq<T(==)>(a: seq<T>, b: seq<T>, leq: (T, T) -> bool) {
    if a == [] then true
    else if b == [] then false
    else if a[0] != b[0] then leq(a[0], b[0])
    else LexLeq(a[1..], b[1..], leq)
  }

  lemma {:induction false} LexTotal<T(!new)>(a: seq<T>, b: seq<T>, leq: (T, T) -> bool)
    requires IsOrder(leq)
    ensures LexLeq(a, b, leq) || LexLeq(b, a, leq)
  {
    if a != [] && b != [] { LexTotal(a[1..], b[1..], leq); }
  }

  lemma {:induction false} LexAntisymmetric<T(!new)>(a: seq<T>, b: seq<T>, leq: (T, T) -> bool)
    requires IsOrder(leq) && LexLeq(a, b, leq) && LexLeq(b, a, leq)
    ensures a == b
    decreases |a|
  {
    if a != [] {
      LexAntisymmetric(a[1..], b[1..], leq);
      assert a == [a[0]] + a[1..] && b == [b[0]] + b[1..];
    }
  }

  lemma {:induction false} LexTransitive<T(!new)>(a: seq<T>, b: seq<T>, c: seq<T>, leq: (T, T) -> bool)
    requires IsOrder(leq) && LexLeq(a, b, leq) && LexLeq(b, c, leq)
    ensures LexLeq(a, c, leq)
  {
    if a != [] && a[0] == b[0] == c[0] { LexTransitive(a[1..], b[1..], c[1..], leq); }
  }

  lemma LexIsOrder<T(!new)>(leq: (T, T) -> bool, lex: (seq<T>, seq<T>) -> bool)
    requires IsOrder(leq) && forall a, b :: lex(a, b) == LexLeq(a, b, leq)
    ensures IsOrder(lex)
  {
    forall a, b ensures lex(a, b) || lex(b, a) { LexTotal(a, b, leq); }
    forall a, b | lex(a, b) && lex(b, a) ensures a == b { LexAntisymmetric(a, b, leq); }
    forall a, b, c | lex(a, b) && lex(b, c) ensures lex(a, c) { LexTransitive(a, b, c, leq); }
  }

  /** One list comes first if it begins the other, or has less where they first differ. */
  lemma {:induction false} LexSpelledOut<T>(a: seq<T>, b: seq<T>, leq: (T, T) -> bool)
    ensures LexLeq(a, b, leq) <==> a <= b || exists k :: DiffersAt(a, b, k) && leq(a[k], b[k])
  {
    if a != [] && b != [] {
      if a[0] != b[0] {
        assert DiffersAt(a, b, 0);
        forall k | 0 < k <= |a| && k <= |b| ensures a[..k] != b[..k] {
          assert a[..k][0] == a[0] && b[..k][0] == b[0];
        }
      } else {
        LexSpelledOut(a[1..], b[1..], leq);
        forall k: nat ensures DiffersAt(a[1..], b[1..], k) <==> DiffersAt(a, b, k + 1) {
          if k < |a| - 1 && k < |b| - 1 {
            assert a[..k+1] == [a[0]] + a[1..][..k] && b[..k+1] == [b[0]] + b[1..][..k];
            assert a[1..][..k] == a[..k+1][1..] && b[1..][..k] == b[..k+1][1..];
          }
        }
        assert a <= b <==> a[1..] <= b[1..] by {
          assert a == [a[0]] + a[1..] && b == [b[0]] + b[1..];
        }
        assert !DiffersAt(a, b, 0);
        if k :| DiffersAt(a[1..], b[1..], k) && leq(a[1..][k], b[1..][k]) {
          assert DiffersAt(a, b, k + 1) && leq(a[k + 1], b[k + 1]);
        }
        if k :| DiffersAt(a, b, k) && leq(a[k], b[k]) {
          assert DiffersAt(a[1..], b[1..], k - 1);
        }
      }
    }
  }

  ghost predicate DiffersAt<T>(a: seq<T>, b: seq<T>, k: int) {
    0 <= k < |a| && k < |b| && a[..k] == b[..k] && a[k] != b[k]
  }

  predicate CharLeq(a: char, b: char) { a <= b }

  /** Texts are in order as their characters are. */
  lemma TextSpelledOut(a: string, b: string)
    ensures TextLeq(a, b) <==> a <= b || exists k :: DiffersAt(a, b, k) && a[k] < b[k]
  {
    LexSpelledOut(a, b, CharLeq);
    hide LexLeq;
  }

  predicate TextLeq(a: string, b: string) {
    LexLeq(a, b, CharLeq)
  }

  lemma TextIsOrder()
    ensures IsOrder(TextLeq)
  {
    LexIsOrder(CharLeq, TextLeq);
  }

  /** Comparing by a first text, then by a second one, and so on. */
  predicate TextsLeq(a: seq<string>, b: seq<string>) {
    LexLeq(a, b, TextLeq)
  }

  lemma TextsAreOrdered()
    ensures IsOrder(TextsLeq)
  {
    TextIsOrder();
    LexIsOrder(TextLeq, TextsLeq);
  }

  /** Comparing by a text and then by a number. */
  predicate NumberedLeq(a: (string, nat), b: (string, nat)) {
    if a.0 != b.0 then TextLeq(a.0, b.0) else a.1 <= b.1
  }

  lemma NumberedIsOrder()
    ensures IsOrder(NumberedLeq)
  {
    TextIsOrder();
    assert forall x: string, y: string, z: string :: TextLeq(x, y) && TextLeq(y, z) ==> TextLeq(x, z);
  }
}
