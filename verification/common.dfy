/** Small sequence helpers shared by the store, the change detector and the
    rule engine: an Option type, SQL's LIMIT, an order-preserving filter, the
    newest-first selection that `ORDER BY ... DESC` produces over an
    append-only table, and a first-match search. */
module Common {

  datatype Option<+T> = None | Some(value: T)

  /** SQL `LIMIT n` as SQLite reads it: a negative n places no bound. */
  function Take<T>(xs: seq<T>, limit: int): (r: seq<T>)
    ensures r <= xs
    ensures limit >= 0 ==> |r| == if |xs| <= limit then |xs| else limit
    ensures limit < 0 ==> r == xs
  {
    if limit < 0 || |xs| <= limit then xs else xs[..limit]
  }

  /** Appending one more candidate to a limited result keeps it only while
      the limit is not yet reached. */
  lemma TakeSnoc<T>(xs: seq<T>, x: T, limit: int)
    ensures Take(xs + [x], limit)
            == if limit < 0 || |xs| < limit then Take(xs, limit) + [x] else Take(xs, limit)
  {
    if limit >= 0 && |xs| >= limit {
      assert (xs + [x])[..limit] == xs[..limit];
    }
  }

  /** The elements of `xs` that satisfy `p`, in their original order. */
  function Filter<T>(xs: seq<T>, p: T -> bool): (r: seq<T>)
    ensures |r| <= |xs|
    ensures forall k :: 0 <= k < |r| ==> p(r[k])
  {
    if xs == [] then []
    else Filter(xs[..|xs| - 1], p) + (if p(xs[|xs| - 1]) then [xs[|xs| - 1]] else [])
  }

  /** Filtering only drops elements. */
  lemma {:induction false} FilterSubset<T>(xs: seq<T>, p: T -> bool)
    ensures forall x :: x in Filter(xs, p) ==> x in xs
  {
    if xs != [] {
      var init := xs[..|xs| - 1];
      FilterSubset(init, p);
      forall x | x in init ensures x in xs {
        var i :| 0 <= i < |init| && init[i] == x;
        assert xs[i] == x;
      }
    }
  }

  /** Filtering one more element. */
  lemma FilterSnoc<T>(xs: seq<T>, x: T, p: T -> bool)
    ensures Filter(xs + [x], p) == Filter(xs, p) + if p(x) then [x] else []
  {
    assert (xs + [x])[..|xs|] == xs;
  }

  /** A predicate and its complement split a sequence between them. */
  lemma {:induction false} FilterSplit<T>(xs: seq<T>, p: T -> bool, q: T -> bool)
    requires forall k :: 0 <= k < |xs| ==> q(xs[k]) == !p(xs[k])
    ensures multiset(Filter(xs, p)) + multiset(Filter(xs, q)) == multiset(xs)
    decreases |xs|
  {
    if xs != [] {
      var init, last := xs[..|xs| - 1], xs[|xs| - 1];
      assert xs == init + [last];
      FilterSplit(init, p, q);
      FilterSnoc(init, last, p);
      FilterSnoc(init, last, q);
    }
  }

  /** Filtering first by a weaker predicate changes nothing. */
  lemma {:induction false} FilterNarrow<T>(xs: seq<T>, p: T -> bool, q: T -> bool)
    requires forall k :: 0 <= k < |xs| ==> p(xs[k]) ==> q(xs[k])
    ensures Filter(Filter(xs, q), p) == Filter(xs, p)
    decreases |xs|
  {
    if xs != [] {
      var init, last := xs[..|xs| - 1], xs[|xs| - 1];
      assert xs == init + [last];
      assert forall k :: 0 <= k < |init| ==> init[k] == xs[k];
      FilterNarrow(init, p, q);
      var fq := Filter(init, q);
      if q(last) {
        assert Filter(xs, q) == fq + [last];
        FilterSnoc(fq, last, p);
      } else {
        assert !p(last);
        assert Filter(xs, q) == fq;
      }
    }
  }

  /** Filtering with a predicate every element satisfies keeps everything. */
  lemma {:induction false} FilterAll<T>(xs: seq<T>, p: T -> bool)
    requires forall k :: 0 <= k < |xs| ==> p(xs[k])
    ensures Filter(xs, p) == xs
    decreases |xs|
  {
    if xs != [] {
      var init := xs[..|xs| - 1];
      assert forall k :: 0 <= k < |init| ==> init[k] == xs[k];
      FilterAll(init, p);
      assert xs == init + [xs[|xs| - 1]];
    }
  }

  /** Filtering with a predicate no element satisfies keeps nothing. */
  lemma {:induction false} FilterNone<T>(xs: seq<T>, p: T -> bool)
    requires forall k :: 0 <= k < |xs| ==> !p(xs[k])
    ensures Filter(xs, p) == []
    decreases |xs|
  {
    if xs != [] {
      var init := xs[..|xs| - 1];
      assert forall k :: 0 <= k < |init| ==> init[k] == xs[k];
      FilterNone(init, p);
    }
  }

  /** Predicates that agree on every element filter alike. */
  lemma {:induction false} FilterSame<T>(xs: seq<T>, p: T -> bool, q: T -> bool)
    requires forall k :: 0 <= k < |xs| ==> p(xs[k]) == q(xs[k])
    ensures Filter(xs, p) == Filter(xs, q)
    decreases |xs|
  {
    if xs != [] {
      var init := xs[..|xs| - 1];
      assert forall k :: 0 <= k < |init| ==> init[k] == xs[k];
      FilterSame(init, p, q);
    }
  }

  lemma {:induction false} FilterAppend<T>(a: seq<T>, b: seq<T>, p: T -> bool)
    ensures Filter(a + b, p) == Filter(a, p) + Filter(b, p)
    decreases |b|
  {
    if b != [] {
      var b' := b[..|b| - 1];
      assert (a + b)[..|a + b| - 1] == a + b';
      FilterAppend(a, b', p);
    } else {
      assert a + b == a;
    }
  }

  /** Filtering keeps every element that satisfies the predicate. */
  lemma {:induction false} FilterComplete<T>(xs: seq<T>, p: T -> bool, x: T)
    requires x in xs && p(x)
    ensures x in Filter(xs, p)
  {
    var last := xs[|xs| - 1];
    if x == last {
    } else {
      assert x in xs[..|xs| - 1] by {
        var i :| 0 <= i < |xs| && xs[i] == x;
        assert i < |xs| - 1;
        assert xs[..|xs| - 1][i] == x;
      }
      FilterComplete(xs[..|xs| - 1], p, x);
    }
  }

  /** The elements of an append-only table `xs` that satisfy `p`, the most
      recently appended first. */
  function NewestFirst<T>(xs: seq<T>, p: T -> bool): (r: seq<T>)
    ensures |r| <= |xs|
    ensures forall k :: 0 <= k < |r| ==> p(r[k])
  {
    if xs == [] then []
    else NewestFirst(xs[1..], p) + (if p(xs[0]) then [xs[0]] else [])
  }

  /** The selection only holds elements of the table. */
  lemma {:induction false} NewestFirstSubset<T>(xs: seq<T>, p: T -> bool)
    ensures forall x :: x in NewestFirst(xs, p) ==> x in xs
  {
    if xs != [] {
      NewestFirstSubset(xs[1..], p);
      forall x | x in xs[1..] ensures x in xs {
        var i :| 0 <= i < |xs[1..]| && xs[1..][i] == x;
        assert xs[i + 1] == x;
      }
    }
  }

  /** Every selected element comes later in the table than every element
      selected after it: given a key that grows along the table, the keys of
      the selection strictly decrease. */
  lemma {:induction false} NewestFirstDescending<T>(xs: seq<T>, p: T -> bool, key: T -> int)
    requires forall i, j :: 0 <= i < j < |xs| ==> key(xs[i]) < key(xs[j])
    ensures forall a, b :: 0 <= a < b < |NewestFirst(xs, p)| ==>
              key(NewestFirst(xs, p)[a]) > key(NewestFirst(xs, p)[b])
  {
    if xs != [] {
      var rest := NewestFirst(xs[1..], p);
      NewestFirstDescending(xs[1..], p, key);
      NewestFirstSubset(xs[1..], p);
      forall k | 0 <= k < |rest|
        ensures key(rest[k]) > key(xs[0])
      {
        assert rest[k] in rest;
        var i :| 0 <= i < |xs[1..]| && xs[1..][i] == rest[k];
        assert xs[i + 1] == rest[k];
      }
    }
  }

  /** The element appended last comes first in the selection. */
  lemma {:induction false} NewestFirstSnoc<T>(xs: seq<T>, x: T, p: T -> bool)
    ensures NewestFirst(xs + [x], p) == (if p(x) then [x] else []) + NewestFirst(xs, p)
    decreases |xs|
  {
    if xs == [] {
      assert [x][1..] == [];
    } else {
      assert (xs + [x])[1..] == xs[1..] + [x];
      assert (xs + [x])[0] == xs[0];
      NewestFirstSnoc(xs[1..], x, p);
    }
  }

  /** Every element of the table that satisfies `p` is selected. */
  lemma {:induction false} NewestFirstComplete<T>(xs: seq<T>, p: T -> bool, i: nat)
    requires i < |xs| && p(xs[i])
    ensures xs[i] in NewestFirst(xs, p)
  {
    if i > 0 {
      assert xs[1..][i - 1] == xs[i];
      NewestFirstComplete(xs[1..], p, i - 1);
    }
  }

  /** With a predicate that holds everywhere the selection is the table
      reversed. */
  lemma {:induction false} NewestFirstAll<T>(xs: seq<T>, p: T -> bool)
    requires forall x :: x in xs ==> p(x)
    ensures |NewestFirst(xs, p)| == |xs|
    ensures forall k :: 0 <= k < |xs| ==> NewestFirst(xs, p)[k] == xs[|xs| - 1 - k]
  {
    if xs != [] {
      forall x | x in xs[1..] ensures p(x) { }
      NewestFirstAll(xs[1..], p);
    }
  }

  /** A limited newest-first selection holds the newest matching elements:
      a matching element left out means the limit was reached, and everything
      returned is newer than it. */
  lemma NewestFirstLimited<T>(xs: seq<T>, p: T -> bool, key: T -> int, limit: int, i: nat)
    requires forall i, j :: 0 <= i < j < |xs| ==> key(xs[i]) < key(xs[j])
    requires i < |xs| && p(xs[i])
    requires xs[i] !in Take(NewestFirst(xs, p), limit)
    ensures limit >= 0 && |Take(NewestFirst(xs, p), limit)| == limit
    ensures forall y :: y in Take(NewestFirst(xs, p), limit) ==> key(y) > key(xs[i])
  {
    var r := NewestFirst(xs, p);
    NewestFirstComplete(xs, p, i);
    NewestFirstDescending(xs, p, key);
    var q :| 0 <= q < |r| && r[q] == xs[i];
    assert limit >= 0 && q >= limit;
    forall y | y in Take(r, limit)
      ensures key(y) > key(xs[i])
    {
      var m :| 0 <= m < |Take(r, limit)| && Take(r, limit)[m] == y;
      assert r[m] == y;
    }
  }

  /** Position of the first element satisfying `p`, if any. */
  function FirstWhere<T>(xs: seq<T>, p: T -> bool): (r: Option<nat>)
    ensures r.Some? ==> r.value < |xs| && p(xs[r.value])
    ensures r.Some? ==> forall j :: 0 <= j < r.value ==> !p(xs[j])
    ensures r.None? <==> forall j :: 0 <= j < |xs| ==> !p(xs[j])
  {
    if xs == [] then None
    else if p(xs[0]) then Some(0)
    else match FirstWhere(xs[1..], p)
      case None => None
      case Some(k) => Some(k + 1)
  }

  /** The first match found by a left-to-right scan is the one `FirstWhere`
      names. */
  lemma FirstWhereAt<T>(xs: seq<T>, p: T -> bool, k: nat)
    requires k < |xs| && p(xs[k])
    requires forall j :: 0 <= j < k ==> !p(xs[j])
    ensures FirstWhere(xs, p) == Some(k)
  {
    var r := FirstWhere(xs, p);
    assert r.Some?;
    assert !(r.value < k);
    assert !(r.value > k);
  }

  // ---------------------------------------------------------------- text order

  /** `a` sorts strictly before `b` in code-point order, the order of
      SQLite's default BINARY collation: the first differing character
      decides, and a proper prefix comes first. */
  predicate Before(a: string, b: string)
    decreases |a|
  {
    if a == [] then b != []
    else if b == [] then false
    else if a[0] != b[0] then a[0] < b[0]
    else Before(a[1..], b[1..])
  }

  lemma {:induction false} BeforeIrreflexive(a: string)
    ensures !Before(a, a)
    decreases |a|
  {
    if a != [] {
      BeforeIrreflexive(a[1..]);
    }
  }

  lemma {:induction false} BeforeAsymmetric(a: string, b: string)
    ensures Before(a, b) ==> !Before(b, a)
    decreases |a|
  {
    if a != [] && b != [] && a[0] == b[0] {
      BeforeAsymmetric(a[1..], b[1..]);
    }
  }

  lemma {:induction false} BeforeTransitive(a: string, b: string, c: string)
    requires Before(a, b) && Before(b, c)
    ensures Before(a, c)
    decreases |a|
  {
    if a != [] && a[0] == b[0] && b[0] == c[0] {
      BeforeTransitive(a[1..], b[1..], c[1..]);
    }
  }

  /** Two different strings are always ordered one way or the other. */
  lemma {:induction false} BeforeTotal(a: string, b: string)
    requires a != b
    ensures Before(a, b) || Before(b, a)
    decreases |a|
  {
    if a != [] && b != [] && a[0] == b[0] {
      assert a == [a[0]] + a[1..] && b == [b[0]] + b[1..];
      BeforeTotal(a[1..], b[1..]);
    }
  }

  // ---------------------------------------------------------------- ORDER BY a text key

  /** No element sorts before the one ahead of it. */
  predicate InOrder<T>(xs: seq<T>, key: T -> string) {
    forall i :: 0 < i < |xs| ==> !Before(key(xs[i]), key(xs[i - 1]))
  }

  /** `x` placed ahead of the first element it does not sort after. */
  function InsertByKey<T>(x: T, xs: seq<T>, key: T -> string): seq<T> {
    if xs == [] || !Before(key(xs[0]), key(x)) then [x] + xs
    else [xs[0]] + InsertByKey(x, xs[1..], key)
  }

  /** The rows of a query ordered by a text key. */
  function SortByKey<T>(xs: seq<T>, key: T -> string): seq<T> {
    if xs == [] then [] else InsertByKey(xs[0], SortByKey(xs[1..], key), key)
  }

  lemma {:induction false} InsertByKeyInOrder<T>(x: T, xs: seq<T>, key: T -> string)
    requires InOrder(xs, key)
    ensures InOrder(InsertByKey(x, xs, key), key)
    ensures multiset(InsertByKey(x, xs, key)) == multiset(xs) + multiset{x}
    ensures InsertByKey(x, xs, key)[0] == x || InsertByKey(x, xs, key)[0] == xs[0]
    decreases |xs|
  {
    if xs == [] || !Before(key(xs[0]), key(x)) {
    } else {
      var rest := InsertByKey(x, xs[1..], key);
      InsertByKeyInOrder(x, xs[1..], key);
      BeforeAsymmetric(key(xs[0]), key(x));
      assert xs == [xs[0]] + xs[1..];
      var r := [xs[0]] + rest;
      forall i | 0 < i < |r|
        ensures !Before(key(r[i]), key(r[i - 1]))
      {
        if i > 1 {
          assert r[i] == rest[i - 1] && r[i - 1] == rest[i - 2];
        }
      }
    }
  }

  /** Sorting by a key orders the rows and keeps every one of them. */
  lemma {:induction false} SortByKeySorts<T>(xs: seq<T>, key: T -> string)
    ensures InOrder(SortByKey(xs, key), key)
    ensures multiset(SortByKey(xs, key)) == multiset(xs)
    decreases |xs|
  {
    if xs != [] {
      SortByKeySorts(xs[1..], key);
      InsertByKeyInOrder(xs[0], SortByKey(xs[1..], key), key);
      assert xs == [xs[0]] + xs[1..];
    }
  }

  /** No two elements share a key, as under a UNIQUE column. */
  predicate DistinctKeys<T>(xs: seq<T>, key: T -> string) {
    forall i, j :: 0 <= i < j < |xs| ==> key(xs[i]) != key(xs[j])
  }

  lemma NotBeforeTransitive(a: string, b: string, c: string)
    requires !Before(c, b) && !Before(b, a)
    ensures !Before(c, a)
  {
    if Before(c, a) {
      if a != b && b != c {
        BeforeTotal(a, b);
        BeforeTotal(b, c);
        BeforeTransitive(a, b, c);
      }
      BeforeAsymmetric(a, c);
    }
  }

  /** In an ordered sequence nothing sorts before an element further ahead. */
  lemma {:induction false} InOrderFirst<T>(xs: seq<T>, key: T -> string, j: nat)
    requires InOrder(xs, key) && j < |xs|
    ensures !Before(key(xs[j]), key(xs[0]))
    decreases j
  {
    if j == 0 {
      BeforeIrreflexive(key(xs[0]));
    } else {
      InOrderFirst(xs, key, j - 1);
      NotBeforeTransitive(key(xs[0]), key(xs[j - 1]), key(xs[j]));
    }
  }

  /** With distinct keys there is one ordered arrangement of the elements
      only: whatever sort produced it, ordering by the key gives `SortByKey`. */
  lemma {:induction false} InOrderUnique<T>(xs: seq<T>, ys: seq<T>, key: T -> string)
    requires InOrder(xs, key) && InOrder(ys, key) && DistinctKeys(xs, key)
    requires multiset(xs) == multiset(ys)
    ensures xs == ys
    decreases |xs|
  {
    assert |xs| == |multiset(xs)| == |multiset(ys)| == |ys|;
    if xs != [] {
      SameFirst(xs, ys, key);
      SameRest(xs, ys);
      assert InOrder(xs[1..], key) && InOrder(ys[1..], key) && DistinctKeys(xs[1..], key) by {
        forall i | 0 < i < |xs| - 1
          ensures !Before(key(xs[1..][i]), key(xs[1..][i - 1]))
        {
          assert xs[1..][i] == xs[i + 1] && xs[1..][i - 1] == xs[i];
        }
        forall i | 0 < i < |ys| - 1
          ensures !Before(key(ys[1..][i]), key(ys[1..][i - 1]))
        {
          assert ys[1..][i] == ys[i + 1] && ys[1..][i - 1] == ys[i];
        }
      }
      InOrderUnique(xs[1..], ys[1..], key);
      assert xs == [xs[0]] + xs[1..] && ys == [ys[0]] + ys[1..];
    }
  }

  /** Two ordered arrangements of the same distinct-keyed elements start alike. */
  lemma SameFirst<T>(xs: seq<T>, ys: seq<T>, key: T -> string)
    requires InOrder(xs, key) && InOrder(ys, key) && DistinctKeys(xs, key)
    requires multiset(xs) == multiset(ys) && xs != []
    ensures ys != [] && xs[0] == ys[0]
  {
    assert xs[0] in multiset(ys);
    assert ys != [] && ys[0] in multiset(xs);
    var j :| 0 <= j < |xs| && xs[j] == ys[0];
    var k :| 0 <= k < |ys| && ys[k] == xs[0];
    InOrderFirst(xs, key, j);
    InOrderFirst(ys, key, k);
    if key(xs[0]) != key(ys[0]) {
      BeforeTotal(key(xs[0]), key(ys[0]));
      assert false;
    }
    assert j == 0;
  }

  lemma SameRest<T>(xs: seq<T>, ys: seq<T>)
    requires multiset(xs) == multiset(ys) && xs != [] && ys != [] && xs[0] == ys[0]
    ensures multiset(xs[1..]) == multiset(ys[1..])
  {
    assert xs == [xs[0]] + xs[1..] && ys == [ys[0]] + ys[1..];
    assert multiset(xs) == multiset{xs[0]} + multiset(xs[1..]);
    assert multiset(ys) == multiset{xs[0]} + multiset(ys[1..]);
    assert multiset(xs[1..]) == multiset(xs) - multiset{xs[0]};
    assert multiset(ys[1..]) == multiset(ys) - multiset{xs[0]};
  }

}
