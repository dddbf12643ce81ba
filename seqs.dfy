/** The three primitives the statistics engine is built from, stated once over
    sequences of rows: selecting rows (a boolean mask), summing a column, and
    picking the best group. */
module Seqs {

  /** The rows of `s` for which `p` holds, in their original order. */
  function Filter<T(!new)>(s: seq<T>, p: T -> bool): (r: seq<T>)
    ensures |r| <= |s|
    ensures forall x :: x in r <==> x in s && p(x)
  {
    if s == [] then []
    else if p(s[0]) then [s[0]] + Filter(s[1..], p)
    else Filter(s[1..], p)
  }

  /** The complement of a row mask. */
  function Not<T(!new)>(p: T -> bool): T -> bool
  {
    x => !p(x)
  }

  /** The sum of column `f` over the rows of `s`. */
  function Sum<T>(s: seq<T>, f: T -> int): int
  {
    if s == [] then 0 else f(s[0]) + Sum(s[1..], f)
  }

  /** The column `f` of the rows of `s`. */
  function Column<T, U>(s: seq<T>, f: T -> U): (r: seq<U>)
    ensures |r| == |s|
    ensures forall i :: 0 <= i < |s| ==> r[i] == f(s[i])
  {
    if s == [] then [] else [f(s[0])] + Column(s[1..], f)
  }

  /** A key of `keys` whose score is largest; on equal scores the earlier key
      is kept. */
  function ArgMax(keys: seq<int>, score: int -> int): (k: int)
    requires |keys| > 0
    ensures k in keys
    ensures forall j :: j in keys ==> score(j) <= score(k)
  {
    if |keys| == 1 then keys[0]
    else
      var rest := ArgMax(keys[1..], score);
      assert forall j :: j in keys ==> j == keys[0] || j in keys[1..];
      if score(keys[0]) >= score(rest) then keys[0] else rest
  }

  /** Ordering of two keys by a primary score, higher first, then by a
      secondary score, lower first. */
  predicate Ranks(primary: int -> int, secondary: int -> int, a: int, b: int)
  {
    primary(a) > primary(b) || (primary(a) == primary(b) && secondary(a) <= secondary(b))
  }

  /** A key of `keys` ranked first by `Ranks`: largest primary score and,
      among those, smallest secondary score. */
  function ArgBest(keys: seq<int>, primary: int -> int, secondary: int -> int): (k: int)
    requires |keys| > 0
    ensures k in keys
    ensures forall j :: j in keys ==> Ranks(primary, secondary, k, j)
  {
    if |keys| == 1 then keys[0]
    else
      var rest := ArgBest(keys[1..], primary, secondary);
      assert forall j :: j in keys ==> j == keys[0] || j in keys[1..];
      if Ranks(primary, secondary, keys[0], rest) then keys[0] else rest
  }

  lemma {:induction false} SumSplit<T(!new)>(s: seq<T>, f: T -> int, p: T -> bool)
    ensures Sum(s, f) == Sum(Filter(s, p), f) + Sum(Filter(s, Not(p)), f)
  {
    if s != [] {
      SumSplit(s[1..], f, p);
    }
  }

  lemma {:induction false} CountSplit<T(!new)>(s: seq<T>, p: T -> bool)
    ensures |Filter(s, p)| + |Filter(s, Not(p))| == |s|
  {
    if s != [] {
      CountSplit(s[1..], p);
    }
  }

  /** Summing a column that is `c` on the rows a mask keeps and 0 elsewhere
      counts those rows `c` times. */
  lemma {:induction false} SumCount<T(!new)>(s: seq<T>, f: T -> int, p: T -> bool, c: int)
    requires forall x :: x in s ==> f(x) == (if p(x) then c else 0)
    ensures Sum(s, f) == c * |Filter(s, p)|
  {
    if s != [] {
      var rest := Filter(s[1..], p);
      SumCount(s[1..], f, p, c);
      if p(s[0]) {
        assert Filter(s, p) == [s[0]] + rest;
        MulSucc(c, |rest|);
      } else {
        assert Filter(s, p) == rest;
      }
    }
  }

  lemma MulSucc(c: int, n: int)
    ensures c * (n + 1) == c + c * n
  {
  }

  lemma {:induction false} SumMonotone<T>(s: seq<T>, f: T -> int, g: T -> int)
    requires forall x :: x in s ==> f(x) <= g(x)
    ensures Sum(s, f) <= Sum(s, g)
  {
    if s != [] {
      SumMonotone(s[1..], f, g);
    }
  }

  lemma {:induction false} SumNonNegative<T>(s: seq<T>, f: T -> int)
    requires forall x :: x in s ==> 0 <= f(x)
    ensures 0 <= Sum(s, f)
  {
    if s != [] {
      SumNonNegative(s[1..], f);
    }
  }

  /** Selecting with `q` after `p` is selecting with `q` alone when `q` implies `p`. */
  lemma {:induction false} FilterNarrow<T(!new)>(s: seq<T>, p: T -> bool, q: T -> bool)
    requires forall x :: x in s && q(x) ==> p(x)
    ensures Filter(Filter(s, p), q) == Filter(s, q)
  {
    if s != [] {
      FilterNarrow(s[1..], p, q);
    }
  }

  /** Selecting with `p` and then `q` is selecting with any mask that agrees
      with their conjunction on every row. */
  lemma {:induction false} FilterFilter<T(!new)>(s: seq<T>, p: T -> bool, q: T -> bool, r: T -> bool)
    requires forall x :: x in s ==> (p(x) && q(x)) == r(x)
    ensures Filter(Filter(s, p), q) == Filter(s, r)
  {
    if s != [] {
      FilterFilter(s[1..], p, q, r);
    }
  }

  /** Two masks that agree on every row select the same rows. */
  lemma {:induction false} FilterAgree<T(!new)>(s: seq<T>, p: T -> bool, q: T -> bool)
    requires forall x :: x in s ==> p(x) == q(x)
    ensures Filter(s, p) == Filter(s, q)
  {
    if s != [] {
      FilterAgree(s[1..], p, q);
    }
  }

  /** A mask that holds on no row keeps nothing. */
  lemma {:induction false} FilterNone<T(!new)>(s: seq<T>, p: T -> bool)
    requires forall x :: x in s ==> !p(x)
    ensures Filter(s, p) == []
  {
    if s != [] {
      FilterNone(s[1..], p);
    }
  }

  /** A mask that holds on every row keeps them all. */
  lemma {:induction false} FilterAll<T(!new)>(s: seq<T>, p: T -> bool)
    requires forall x :: x in s ==> p(x)
    ensures Filter(s, p) == s
  {
    if s != [] {
      FilterAll(s[1..], p);
    }
  }

  /** A ratio scaled by `k` and multiplied back by its denominator. */
  lemma RatioScales(num: int, den: int, k: real)
    requires den != 0
    ensures (num as real / den as real) * k * den as real == k * num as real
  {
    var d := den as real;
    assert (num as real / d) * d == num as real;
  }

  lemma SubsetCardinality<T>(a: set<T>, b: set<T>)
    requires a <= b
    ensures |a| <= |b|
  {
    assert b == a + (b - a);
  }

  /** A value is in a column exactly when some row maps to it. */
  lemma InColumn<T, U>(s: seq<T>, f: T -> U, x: U)
    ensures x in Column(s, f) <==> exists y :: y in s && f(y) == x
  {
    var c := Column(s, f);
    if x in c {
      var i :| 0 <= i < |c| && c[i] == x;
      assert s[i] in s;
    }
    if y :| y in s && f(y) == x {
      var i :| 0 <= i < |s| && s[i] == y;
      assert c[i] == x;
    }
  }
}
