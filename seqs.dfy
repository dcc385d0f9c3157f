/** Sequence operations behind the pandas and Python idioms of the stamp services: boolean-mask
    filtering (`df[mask]`, list comprehensions with `if`), `Series.unique()` (distinct values in
    order of first occurrence) and `sorted()` together with the code-point order Python uses to
    compare strings. */
module Seqs {

  /** The elements of `s` that satisfy `p`, in their order in `s`. */
  function Filter<T(!new)>(s: seq<T>, p: T -> bool): (r: seq<T>)
    ensures |r| <= |s|
    ensures forall x :: x in r <==> x in s && p(x)
  {
    if s == [] then []
    else Filter(s[..|s| - 1], p) + (if p(s[|s| - 1]) then [s[|s| - 1]] else [])
  }

  /** Filtering keeps an element's multiplicity when it passes and drops it otherwise. */
  lemma {:induction false} FilterCount<T(!new)>(s: seq<T>, p: T -> bool, x: T)
    ensures multiset(Filter(s, p))[x] == if p(x) then multiset(s)[x] else 0
  {
    if s != [] {
      FilterCount(s[..|s| - 1], p, x);
      assert s == s[..|s| - 1] + [s[|s| - 1]];
    }
  }

  /** Filters by tests that agree on every value give the same result. */
  lemma {:induction false} FilterExt<T(!new)>(s: seq<T>, p: T -> bool, q: T -> bool)
    requires forall x :: p(x) == q(x)
    ensures Filter(s, p) == Filter(s, q)
  {
    if s != [] {
      FilterExt(s[..|s| - 1], p, q);
    }
  }

  /** Two filters in a row are one filter by the conjunction. */
  lemma {:induction false} FilterFilter<T(!new)>(s: seq<T>, p: T -> bool, q: T -> bool, pq: T -> bool)
    requires forall x :: pq(x) == (p(x) && q(x))
    ensures Filter(Filter(s, p), q) == Filter(s, pq)
  {
    if s != [] {
      var init, last := s[..|s| - 1], s[|s| - 1];
      FilterFilter(init, p, q, pq);
      var f := Filter(s, p);
      if p(last) {
        assert f[..|f| - 1] == Filter(init, p);
      } else {
        assert f == Filter(init, p);
      }
    }
  }

  /** Applying the same filter twice is the same as applying it once. */
  lemma FilterIdempotent<T(!new)>(s: seq<T>, p: T -> bool)
    ensures Filter(Filter(s, p), p) == Filter(s, p)
  {
    FilterFilter(s, p, p, p);
  }

  /** A filter that every element passes changes nothing. */
  lemma {:induction false} FilterAll<T(!new)>(s: seq<T>, p: T -> bool)
    requires forall i :: 0 <= i < |s| ==> p(s[i])
    ensures Filter(s, p) == s
  {
    if s != [] {
      var init := s[..|s| - 1];
      assert s == init + [s[|s| - 1]];
      forall i | 0 <= i < |init|
        ensures p(init[i])
      {
        assert init[i] == s[i];
      }
      FilterAll(init, p);
      assert p(s[|s| - 1]);
      assert Filter(s, p) == Filter(init, p) + [s[|s| - 1]];
    }
  }

  /** One more filter of the chain, applied or skipped, is a filter by the conjunction. */
  lemma FilterStep<T(!new)>(s: seq<T>, acc: T -> bool, on: bool, p: T -> bool, next: T -> bool)
    requires forall x :: next(x) == (acc(x) && (on ==> p(x)))
    ensures (if on then Filter(Filter(s, acc), p) else Filter(s, acc)) == Filter(s, next)
  {
    if on {
      FilterFilter(s, acc, p, next);
    } else {
      FilterExt(s, acc, next);
    }
  }

  /** A column of a table: `f` applied to every row, in row order. */
  function Column<R, T>(db: seq<R>, f: R -> T): seq<T>
  {
    seq(|db|, i requires 0 <= i < |db| => f(db[i]))
  }

  /** The column of one more row is the column before it with that row's value appended. */
  lemma ColumnAppend<R, T>(db: seq<R>, f: R -> T, k: nat)
    requires k < |db|
    ensures Column(db[..k + 1], f) == Column(db[..k], f) + [f(db[k])]
  {
    var a, b := Column(db[..k + 1], f), Column(db[..k], f) + [f(db[k])];
    assert |a| == |b|;
    forall j | 0 <= j < |a| ensures a[j] == b[j] {
      assert db[..k + 1][j] == db[j];
    }
  }

  /** The values of a column are the values `f` takes on the rows. */
  lemma ColumnMembers<R(!new), T>(db: seq<R>, f: R -> T)
    ensures |Column(db, f)| == |db|
    ensures forall x :: x in Column(db, f) <==> exists s :: s in db && f(s) == x
  {
    var c := Column(db, f);
    forall x | x in c ensures exists s :: s in db && f(s) == x {
      var i :| 0 <= i < |c| && c[i] == x;
      assert db[i] in db && f(db[i]) == x;
    }
    forall s | s in db ensures f(s) in c {
      var i :| 0 <= i < |db| && db[i] == s;
      assert c[i] == f(s);
    }
  }

  /** Every element passes a test or its negation: the two filters share out `s`. */
  lemma {:induction false} FilterComplement<T(!new)>(s: seq<T>, p: T -> bool, np: T -> bool)
    requires forall x :: np(x) == !p(x)
    ensures |Filter(s, p)| + |Filter(s, np)| == |s|
  {
    if s != [] {
      FilterComplement(s[..|s| - 1], p, np);
    }
  }

  /** The first element a filter keeps is the first element of `s` that passes. */
  lemma {:induction false} FilterFirst<T(!new)>(s: seq<T>, p: T -> bool)
    requires Filter(s, p) != []
    ensures exists i ::
      && 0 <= i < |s| && s[i] == Filter(s, p)[0] && p(s[i])
      && forall j :: 0 <= j < i ==> !p(s[j])
  {
    var init, last := s[..|s| - 1], s[|s| - 1];
    var tail := if p(last) then [last] else [];
    assert Filter(s, p) == Filter(init, p) + tail;
    if Filter(init, p) != [] {
      FilterFirst(init, p);
      var i :|
        && 0 <= i < |init| && init[i] == Filter(init, p)[0] && p(init[i])
        && forall j :: 0 <= j < i ==> !p(init[j]);
      assert Filter(s, p)[0] == Filter(init, p)[0];
      assert s[i] == init[i];
      assert forall j :: 0 <= j < i ==> s[j] == init[j];
    } else {
      assert p(last) && Filter(s, p)[0] == last;
      forall j | 0 <= j < |s| - 1
        ensures !p(s[j])
      {
        assert s[j] == init[j] && init[j] in init;
      }
      assert s[|s| - 1] == last;
    }
  }

  /** No value occurs twice. */
  predicate NoDup<T(==)>(s: seq<T>)
  {
    forall i, j :: 0 <= i < j < |s| ==> s[i] != s[j]
  }

  /** `Series.unique()`: the distinct values of `s` in the order of their first occurrence. */
  function Unique<T(==,!new)>(s: seq<T>): (r: seq<T>)
    ensures NoDup(r)
    ensures forall x :: x in r <==> x in s
    ensures |r| <= |s|
  {
    if s == [] then []
    else
      var u := Unique(s[..|s| - 1]);
      if s[|s| - 1] in u then u else u + [s[|s| - 1]]
  }

  /** A sequence without repetitions is its own `unique()`. */
  lemma {:induction false} UniqueOfDistinct<T(!new)>(s: seq<T>)
    requires NoDup(s)
    ensures Unique(s) == s
  {
    if s != [] {
      UniqueOfDistinct(s[..|s| - 1]);
    }
  }

  /** Taking distinct values and filtering commute: both give the distinct passing values in
      order of first occurrence. */
  lemma {:induction false} UniqueFilter<T(!new)>(s: seq<T>, p: T -> bool)
    ensures Unique(Filter(s, p)) == Filter(Unique(s), p)
  {
    if s != [] {
      var init, last := s[..|s| - 1], s[|s| - 1];
      UniqueFilter(init, p);
      var fi, v := Filter(init, p), Unique(init);
      var u := Unique(fi);
      assert u == Filter(v, p);
      assert (v + [last])[..|v|] == v;
      if p(last) {
        assert Filter(s, p) == fi + [last];
        assert (fi + [last])[..|fi|] == fi;
        assert last in u <==> last in v;
        if last in v {
          assert Unique(s) == v;
        } else {
          assert Filter(v + [last], p) == Filter(v, p) + [last];
        }
      } else {
        assert Filter(s, p) == fi;
        assert Filter(v + [last], p) == Filter(v, p);
      }
    }
  }

  /** `le` is a total preorder: what `sorted()` needs of a comparison. */
  ghost predicate TotalPreorder<T(!new)>(le: (T, T) -> bool)
  {
    && (forall a, b :: le(a, b) || le(b, a))
    && (forall a, b, c :: le(a, b) && le(b, c) ==> le(a, c))
  }

  /** `le` also identifies no two distinct values: a total order. */
  ghost predicate TotalOrder<T(!new)>(le: (T, T) -> bool)
  {
    && TotalPreorder(le)
    && (forall a, b :: le(a, b) && le(b, a) ==> a == b)
  }

  /** `s` is in ascending order under `le`. */
  ghost predicate Sorted<T>(s: seq<T>, le: (T, T) -> bool)
  {
    forall i, j :: 0 <= i < j < |s| ==> le(s[i], s[j])
  }

  /** `x` put in front of the first element it does not exceed. */
  function Insert<T>(x: T, s: seq<T>, le: (T, T) -> bool): (r: seq<T>)
    ensures multiset(r) == multiset(s) + multiset{x}
  {
    if s == [] then [x]
    else if le(x, s[0]) then [x] + s
    else
      assert s == [s[0]] + s[1..];
      [s[0]] + Insert(x, s[1..], le)
  }

  /** Python's `sorted()` (an insertion sort gives the same result for a total order). */
  function Sort<T>(s: seq<T>, le: (T, T) -> bool): (r: seq<T>)
    ensures multiset(r) == multiset(s)
  {
    if s == [] then []
    else
      assert s == [s[0]] + s[1..];
      Insert(s[0], Sort(s[1..], le), le)
  }

  lemma {:induction false} InsertSorted<T(!new)>(x: T, s: seq<T>, le: (T, T) -> bool)
    requires TotalPreorder(le)
    requires Sorted(s, le)
    ensures Sorted(Insert(x, s, le), le)
  {
    if s != [] && !le(x, s[0]) {
      InsertSorted(x, s[1..], le);
      var r := Insert(x, s, le);
      var t := Insert(x, s[1..], le);
      assert r == [s[0]] + t;
      forall k | 0 <= k < |t| ensures le(s[0], t[k]) {
        assert t[k] in multiset(t);
        assert t[k] == x || t[k] in multiset(s[1..]);
        if t[k] != x {
          var m :| 0 <= m < |s[1..]| && s[1..][m] == t[k];
          assert s[1..][m] == s[m + 1];
        }
      }
    }
  }

  /** `sorted()` returns an ascending permutation of its input. */
  lemma {:induction false} SortSorted<T(!new)>(s: seq<T>, le: (T, T) -> bool)
    requires TotalPreorder(le)
    ensures Sorted(Sort(s, le), le)
    ensures multiset(Sort(s, le)) == multiset(s)
  {
    if s != [] {
      SortSorted(s[1..], le);
      InsertSorted(s[0], Sort(s[1..], le), le);
    }
  }

  /** `sorted(column.unique())`: the distinct values of `s` in ascending order. */
  function SortedDistinct<T(==,!new)>(s: seq<T>, le: (T, T) -> bool): (r: seq<T>)
    ensures NoDup(r)
    ensures forall x :: x in r <==> x in s
  {
    var u := Unique(s);
    var r := Sort(u, le);
    assert forall x :: x in r <==> x in u by {
      forall x ensures x in r <==> x in u {
        assert x in r <==> x in multiset(r);
      }
    }
    NoDupPermutation(u, r);
    r
  }

  /** A permutation of a sequence without repetitions has none either. */
  lemma NoDupPermutation<T>(a: seq<T>, b: seq<T>)
    requires NoDup(a)
    requires multiset(a) == multiset(b)
    ensures NoDup(b)
  {
    forall x ensures multiset(a)[x] <= 1 {
      NoDupCount(a, x);
    }
    forall i, j | 0 <= i < j < |b| ensures b[i] != b[j] {
      Occurrences(b, i, j);
    }
  }

  /** Two equal positions count twice in the multiset. */
  lemma Occurrences<T>(b: seq<T>, i: nat, j: nat)
    requires i < j < |b|
    ensures multiset(b)[b[i]] >= if b[i] == b[j] then 2 else 1
  {
    assert b == b[..i] + [b[i]] + b[i + 1..j] + [b[j]] + b[j + 1..];
  }

  lemma {:induction false} NoDupCount<T>(a: seq<T>, x: T)
    requires NoDup(a)
    ensures multiset(a)[x] <= 1
  {
    if a != [] {
      var init := a[..|a| - 1];
      assert NoDup(init);
      NoDupCount(init, x);
      assert a == init + [a[|a| - 1]];
      if a[|a| - 1] == x {
        assert x !in init;
      }
    }
  }

  /** The distinct values come out strictly ascending, every value of `s` once. */
  lemma SortedDistinctStrict<T(!new)>(s: seq<T>, le: (T, T) -> bool)
    requires TotalOrder(le)
    ensures var r := SortedDistinct(s, le);
      && Sorted(r, le)
      && (forall i, j :: 0 <= i < j < |r| ==> r[i] != r[j])
      && (forall x :: x in r <==> x in s)
  {
    SortSorted(Unique(s), le);
  }

  /** Python's `<=` on strings: lexicographic by code point, a proper prefix first. */
  predicate StrLe(a: string, b: string)
  {
    if a == [] then true
    else if b == [] then false
    else if a[0] != b[0] then a[0] < b[0]
    else StrLe(a[1..], b[1..])
  }

  lemma {:induction false} StrLeTotal(a: string, b: string)
    ensures StrLe(a, b) || StrLe(b, a)
  {
    if a != [] && b != [] && a[0] == b[0] {
      StrLeTotal(a[1..], b[1..]);
    }
  }

  lemma {:induction false} StrLeTransitive(a: string, b: string, c: string)
    requires StrLe(a, b) && StrLe(b, c)
    ensures StrLe(a, c)
  {
    if a != [] && b != [] && c != [] && a[0] == b[0] == c[0] {
      StrLeTransitive(a[1..], b[1..], c[1..]);
    }
  }

  lemma {:induction false} StrLeAntisymmetric(a: string, b: string)
    requires StrLe(a, b) && StrLe(b, a)
    ensures a == b
  {
    if a != [] && b != [] {
      StrLeAntisymmetric(a[1..], b[1..]);
      assert a == [a[0]] + a[1..] && b == [b[0]] + b[1..];
    }
  }

  /** Code-point order on strings is a total order, so `sorted()` of distinct strings is
      strictly ascending. */
  lemma StrLeTotalOrder()
    ensures TotalOrder(StrLe)
  {
    forall a, b ensures StrLe(a, b) || StrLe(b, a) { StrLeTotal(a, b); }
    forall a, b, c | StrLe(a, b) && StrLe(b, c) ensures StrLe(a, c) { StrLeTransitive(a, b, c); }
    forall a, b | StrLe(a, b) && StrLe(b, a) ensures a == b { StrLeAntisymmetric(a, b); }
  }

  /** Python's `<=` on integers. */
  predicate IntLe(a: int, b: int)
  {
    a <= b
  }

  lemma IntLeTotalOrder()
    ensures TotalOrder(IntLe)
  {
  }
}
