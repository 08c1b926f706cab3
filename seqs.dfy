/** Sequence helpers that stand in for the data-frame operations of the source. */
module Seqs {

  /** Number of occurrences of `x` in `xs`. */
  function Count<T(==)>(xs: seq<T>, x: T): nat
  {
    if xs == [] then 0 else (if xs[0] == x then 1 else 0) + Count(xs[1..], x)
  }

  lemma {:induction false} CountAppend<T>(a: seq<T>, b: seq<T>, x: T)
    ensures Count(a + b, x) == Count(a, x) + Count(b, x)
  {
    if a == [] {
      assert a + b == b;
    } else {
      assert (a + b)[0] == a[0] && (a + b)[1..] == a[1..] + b;
      CountAppend(a[1..], b, x);
    }
  }

  lemma {:induction false} CountPositive<T>(xs: seq<T>, x: T)
    ensures Count(xs, x) > 0 <==> x in xs
  {
    if xs != [] {
      CountPositive(xs[1..], x);
      assert xs == [xs[0]] + xs[1..];
    }
  }

  /** Number of elements of `xs` satisfying `p`. */
  function CountIf<T>(xs: seq<T>, p: T -> bool): nat
  {
    if xs == [] then 0 else (if p(xs[0]) then 1 else 0) + CountIf(xs[1..], p)
  }

  lemma {:induction false} CountIfAppend<T>(a: seq<T>, b: seq<T>, p: T -> bool)
    ensures CountIf(a + b, p) == CountIf(a, p) + CountIf(b, p)
  {
    if a == [] {
      assert a + b == b;
    } else {
      assert (a + b)[0] == a[0] && (a + b)[1..] == a[1..] + b;
      CountIfAppend(a[1..], b, p);
    }
  }

  /** The elements of `xs` satisfying `p`, in their original order. */
  function Filter<T>(xs: seq<T>, p: T -> bool): seq<T>
  {
    if xs == [] then [] else (if p(xs[0]) then [xs[0]] else []) + Filter(xs[1..], p)
  }

  lemma {:induction false} FilterMember<T>(xs: seq<T>, p: T -> bool, x: T)
    ensures x in Filter(xs, p) <==> x in xs && p(x)
  {
    if xs != [] {
      FilterMember(xs[1..], p, x);
      assert xs == [xs[0]] + xs[1..];
    }
  }

  /** A relation that holds between every earlier and later element still
    * holds after filtering, which keeps the order. */
  lemma {:induction false} FilterPairwise<T>(xs: seq<T>, p: T -> bool, apart: (T, T) -> bool)
    requires forall i, j :: 0 <= i < j < |xs| ==> apart(xs[i], xs[j])
    ensures var ys := Filter(xs, p);
            forall i, j :: 0 <= i < j < |ys| ==> apart(ys[i], ys[j])
  {
    if xs != [] {
      var tail := xs[1..];
      forall i, j | 0 <= i < j < |tail|
        ensures apart(tail[i], tail[j])
      {
        assert tail[i] == xs[i + 1] && tail[j] == xs[j + 1];
      }
      FilterPairwise(tail, p, apart);
      var rest := Filter(tail, p);
      if p(xs[0]) {
        var ys := Filter(xs, p);
        assert ys == [xs[0]] + rest;
        forall j | 0 <= j < |rest|
          ensures apart(xs[0], rest[j])
        {
          FilterMember(tail, p, rest[j]);
          var k :| 0 <= k < |tail| && tail[k] == rest[j];
          assert xs[k + 1] == rest[j];
        }
        forall i, j | 0 <= i < j < |ys|
          ensures apart(ys[i], ys[j])
        {
          assert ys[j] == rest[j - 1];
          if i > 0 {
            assert ys[i] == rest[i - 1];
          }
        }
      } else {
        assert Filter(xs, p) == rest;
      }
    }
  }

  lemma {:induction false} FilterAppend<T>(a: seq<T>, b: seq<T>, p: T -> bool)
    ensures Filter(a + b, p) == Filter(a, p) + Filter(b, p)
  {
    if a == [] {
      assert a + b == b;
    } else {
      var ab := a + b;
      var head := if p(a[0]) then [a[0]] else [];
      assert ab[0] == a[0] && ab[1..] == a[1..] + b;
      assert Filter(ab, p) == head + Filter(a[1..] + b, p);
      FilterAppend(a[1..], b, p);
      assert Filter(a, p) == head + Filter(a[1..], p);
    }
  }

  lemma {:induction false} FilterCount<T>(xs: seq<T>, p: T -> bool, x: T)
    ensures Count(Filter(xs, p), x) == if p(x) then Count(xs, x) else 0
  {
    if xs != [] {
      FilterCount(xs[1..], p, x);
      CountAppend(if p(xs[0]) then [xs[0]] else [], Filter(xs[1..], p), x);
    }
  }

  /** `a` is obtained from `b` by deleting elements: the order of what is kept is preserved. */
  predicate IsSubsequence<T(==)>(a: seq<T>, b: seq<T>)
  {
    if b == [] then a == []
    else (a != [] && a[0] == b[0] && IsSubsequence(a[1..], b[1..])) || IsSubsequence(a, b[1..])
  }

  lemma {:induction false} FilterIsSubsequence<T>(xs: seq<T>, p: T -> bool)
    ensures IsSubsequence(Filter(xs, p), xs)
  {
    if xs != [] {
      FilterIsSubsequence(xs[1..], p);
      if p(xs[0]) {
        assert Filter(xs, p) == [xs[0]] + Filter(xs[1..], p);
        assert Filter(xs, p)[1..] == Filter(xs[1..], p);
      } else {
        assert [] + Filter(xs[1..], p) == Filter(xs[1..], p);
        assert Filter(xs, p) == Filter(xs[1..], p);
      }
    }
  }

  /** Concatenation of a sequence of tables (`pl.concat`). */
  function Flatten<T>(xss: seq<seq<T>>): seq<T>
  {
    if xss == [] then [] else xss[0] + Flatten(xss[1..])
  }

  lemma {:induction false} FlattenAppend<T>(a: seq<seq<T>>, b: seq<seq<T>>)
    ensures Flatten(a + b) == Flatten(a) + Flatten(b)
  {
    if a == [] {
      assert a + b == b;
    } else {
      assert (a + b)[0] == a[0] && (a + b)[1..] == a[1..] + b;
      FlattenAppend(a[1..], b);
    }
  }

  /** Sum of a sequence of reals. */
  function Sum(xs: seq<real>): real
  {
    if xs == [] then 0.0 else xs[0] + Sum(xs[1..])
  }

  lemma {:induction false} SumAppend(a: seq<real>, b: seq<real>)
    ensures Sum(a + b) == Sum(a) + Sum(b)
  {
    if a == [] {
      assert a + b == b;
    } else {
      assert (a + b)[0] == a[0] && (a + b)[1..] == a[1..] + b;
      SumAppend(a[1..], b);
    }
  }

  /** The distinct elements of `xs` in order of first occurrence. */
  function Distinct<T(==)>(xs: seq<T>): (d: seq<T>)
    ensures forall i :: 0 <= i < |d| ==> d[i] in xs
    ensures forall i :: 0 <= i < |xs| ==> xs[i] in d
    ensures forall i, j :: 0 <= i < j < |d| ==> d[i] != d[j]
  {
    if xs == [] then []
    else
      var init := Distinct(xs[..|xs| - 1]);
      assert xs == xs[..|xs| - 1] + [xs[|xs| - 1]];
      if xs[|xs| - 1] in init then init else init + [xs[|xs| - 1]]
  }

  /** `f` applied to every element (a derived data-frame column). */
  function MapSeq<A, B>(xs: seq<A>, f: A -> B): seq<B>
  {
    seq(|xs|, i requires 0 <= i < |xs| => f(xs[i]))
  }

  /** The test "the key of `x` satisfies `keep`". */
  function KeyTest<T, K>(key: T -> K, keep: K -> bool): T -> bool
  {
    x => keep(key(x))
  }

  /** Filtering on keys keeps, for every key, all or none of its occurrences. */
  lemma {:induction false} FilterKeysCount<T, K>(xs: seq<T>, key: T -> K, keep: K -> bool, q: K)
    ensures Count(MapSeq(Filter(xs, KeyTest(key, keep)), key), q) == if keep(q) then Count(MapSeq(xs, key), q) else 0
  {
    if xs != [] {
      var head := if KeyTest(key, keep)(xs[0]) then [xs[0]] else [];
      FilterKeysCount(xs[1..], key, keep, q);
      assert MapSeq(xs, key) == [key(xs[0])] + MapSeq(xs[1..], key);
      assert MapSeq(Filter(xs, KeyTest(key, keep)), key) == MapSeq(head, key) + MapSeq(Filter(xs[1..], KeyTest(key, keep)), key);
      CountAppend([key(xs[0])], MapSeq(xs[1..], key), q);
      CountAppend(MapSeq(head, key), MapSeq(Filter(xs[1..], KeyTest(key, keep)), key), q);
    }
  }

  /** Filtering by a weaker test first changes nothing. */
  lemma {:induction false} FilterFilterImplied<T>(xs: seq<T>, p: T -> bool, q: T -> bool)
    requires forall x :: q(x) ==> p(x)
    ensures Filter(Filter(xs, p), q) == Filter(xs, q)
  {
    if xs != [] {
      FilterFilterImplied(xs[1..], p, q);
      FilterAppend(if p(xs[0]) then [xs[0]] else [], Filter(xs[1..], p), q);
    }
  }

  /** At most one element survives a test that no two elements pass together. */
  lemma {:induction false} FilterAtMostOne<T>(xs: seq<T>, p: T -> bool)
    requires forall i, j :: 0 <= i < j < |xs| && p(xs[i]) ==> !p(xs[j])
    ensures |Filter(xs, p)| <= 1
  {
    if xs != [] {
      FilterAtMostOne(xs[1..], p);
      if p(xs[0]) {
        forall x | x in xs[1..]
          ensures !p(x)
        {
          var j :| 0 <= j < |xs[1..]| && xs[1..][j] == x;
          assert xs[j + 1] == x;
        }
        FilterMember(xs[1..], p, if Filter(xs[1..], p) == [] then xs[0] else Filter(xs[1..], p)[0]);
      }
    }
  }

  /** The elements whose key occurs exactly twice: the pair filter `count().over(key) == 2`. */
  function PairFilter<T>(xs: seq<T>, key: T -> string): seq<T>
  {
    Filter(xs, KeyTest(key, Twice(MapSeq(xs, key))))
  }

  function Twice(ks: seq<string>): string -> bool
  {
    q => Count(ks, q) == 2
  }

  /** After the pair filter every key occurs twice or not at all. */
  lemma PairFilterKeys<T>(xs: seq<T>, key: T -> string, q: string)
    ensures Count(MapSeq(PairFilter(xs, key), key), q) == if Count(MapSeq(xs, key), q) == 2 then 2 else 0
  {
    FilterKeysCount(xs, key, Twice(MapSeq(xs, key)), q);
  }

  /** Total of `val` over the elements whose key is `q`. */
  function SumWhere<T, K(==)>(xs: seq<T>, key: T -> K, val: T -> real, q: K): real
  {
    if xs == [] then 0.0 else (if key(xs[0]) == q then val(xs[0]) else 0.0) + SumWhere(xs[1..], key, val, q)
  }

  /** Filtering on keys keeps the whole total of a kept key. */
  lemma {:induction false} SumWhereFilterKeys<T, K>(xs: seq<T>, key: T -> K, keep: K -> bool, val: T -> real, q: K)
    requires keep(q)
    ensures SumWhere(Filter(xs, KeyTest(key, keep)), key, val, q) == SumWhere(xs, key, val, q)
  {
    if xs != [] {
      SumWhereFilterKeys(xs[1..], key, keep, val, q);
      var head := if KeyTest(key, keep)(xs[0]) then [xs[0]] else [];
      SumWhereAppend(head, Filter(xs[1..], KeyTest(key, keep)), key, val, q);
    }
  }

  lemma {:induction false} SumWhereAppend<T, K>(a: seq<T>, b: seq<T>, key: T -> K, val: T -> real, q: K)
    ensures SumWhere(a + b, key, val, q) == SumWhere(a, key, val, q) + SumWhere(b, key, val, q)
  {
    if a == [] {
      assert a + b == b;
    } else {
      assert (a + b)[0] == a[0] && (a + b)[1..] == a[1..] + b;
      SumWhereAppend(a[1..], b, key, val, q);
    }
  }

  /** A total over mapped elements is the total over the originals, when the
    * mapping keeps keys and values. */
  lemma {:induction false} SumWhereMap<A, B, K>(xs: seq<A>, f: A -> B, keyA: A -> K, valA: A -> real,
                                               keyB: B -> K, valB: B -> real, q: K)
    requires forall x :: keyB(f(x)) == keyA(x) && valB(f(x)) == valA(x)
    ensures SumWhere(MapSeq(xs, f), keyB, valB, q) == SumWhere(xs, keyA, valA, q)
  {
    if xs != [] {
      assert MapSeq(xs, f)[1..] == MapSeq(xs[1..], f);
      SumWhereMap(xs[1..], f, keyA, valA, keyB, valB, q);
    }
  }

  /** Deleting the element at `j` takes one occurrence of it out of the multiset. */
  lemma RemoveAt<T>(xs: seq<T>, j: nat)
    requires j < |xs|
    ensures multiset(xs[..j] + xs[j + 1..]) == multiset(xs) - multiset{xs[j]}
  {
    SplitAt(xs, j);
  }

  lemma SplitAt<T>(xs: seq<T>, j: nat)
    requires j < |xs|
    ensures xs == xs[..j] + [xs[j]] + xs[j + 1..]
  {
  }

  /** In a sequence without repeats every element occurs once. */
  lemma {:induction false} DistinctMultiplicity<T>(xs: seq<T>, x: T)
    requires forall i, j :: 0 <= i < j < |xs| ==> xs[i] != xs[j]
    ensures multiset(xs)[x] == if x in xs then 1 else 0
  {
    if xs != [] {
      assert xs == [xs[0]] + xs[1..];
      assert xs[0] !in xs[1..];
      DistinctMultiplicity(xs[1..], x);
    }
  }

  lemma MapSeqAppend<A, B>(a: seq<A>, b: seq<A>, f: A -> B)
    ensures MapSeq(a + b, f) == MapSeq(a, f) + MapSeq(b, f)
  {
  }

  lemma MapSeqMember<A, B>(xs: seq<A>, f: A -> B, x: A)
    requires x in xs
    ensures f(x) in MapSeq(xs, f)
  {
    var i :| 0 <= i < |xs| && xs[i] == x;
    assert MapSeq(xs, f)[i] == f(x);
  }

  /** Mapping a permutation gives a permutation. */
  lemma {:induction false} MapSeqPermutation<A, B>(xs: seq<A>, ys: seq<A>, f: A -> B)
    requires multiset(xs) == multiset(ys)
    ensures multiset(MapSeq(xs, f)) == multiset(MapSeq(ys, f))
    decreases |xs|
  {
    if xs == [] {
      assert |multiset(ys)| == 0;
    } else {
      var x := xs[0];
      assert xs == [x] + xs[1..];
      assert x in multiset(ys);
      var j :| 0 <= j < |ys| && ys[j] == x;
      var rest := ys[..j] + ys[j + 1..];
      RemoveAt(ys, j);
      MapSeqPermutation(xs[1..], rest, f);
      SplitAt(ys, j);
      MapSeqAppend(ys[..j] + [x], ys[j + 1..], f);
      MapSeqAppend(ys[..j], [x], f);
      MapSeqAppend(ys[..j], ys[j + 1..], f);
      MapSeqAppend([x], xs[1..], f);
    }
  }

  function Min(a: int, b: int): int { if a < b then a else b }
}
