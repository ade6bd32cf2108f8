/** Python's ordering of strings, `sorted`, and `list(set(...))`. */
module Ordering {

  /** `a <= b` in Python: lexicographic comparison by code point. */
  predicate Le(a: string, b: string)
    decreases |a|
  {
    a == [] || (b != [] && (a[0] < b[0] || (a[0] == b[0] && Le(a[1..], b[1..]))))
  }

  lemma {:induction false} LeTotal(a: string, b: string)
    ensures Le(a, b) || Le(b, a)
    decreases |a|
  {
    if a != [] && b != [] && a[0] == b[0] {
      LeTotal(a[1..], b[1..]);
    }
  }

  lemma {:induction false} LeReflexive(a: string)
    ensures Le(a, a)
    decreases |a|
  {
    if a != [] {
      LeReflexive(a[1..]);
    }
  }

  lemma {:induction false} LeTransitive(a: string, b: string, c: string)
    requires Le(a, b) && Le(b, c)
    ensures Le(a, c)
    decreases |a|
  {
    if a != [] && b[0] == a[0] && c[0] == b[0] {
      LeTransitive(a[1..], b[1..], c[1..]);
    }
  }

  lemma {:induction false} LeAntisymmetric(a: string, b: string)
    requires Le(a, b) && Le(b, a)
    ensures a == b
    decreases |a|
  {
    if a != [] {
      LeAntisymmetric(a[1..], b[1..]);
      assert a == [a[0]] + a[1..] && b == [b[0]] + b[1..];
    }
  }

  predicate Sorted(s: seq<string>) {
    forall i, j :: 0 <= i < j < |s| ==> Le(s[i], s[j])
  }

  predicate Distinct<T(==)>(s: seq<T>) {
    forall i, j :: 0 <= i < j < |s| ==> s[i] != s[j]
  }

  /** Inserts `x` before the first element it does not exceed. */
  function Insert(x: string, s: seq<string>): (r: seq<string>)
    ensures multiset(r) == multiset(s) + multiset{x}
    ensures Sorted(s) ==> Sorted(r)
  {
    if s == [] then [x]
    else if Le(x, s[0]) then
      LeBelowAll(x, s);
      [x] + s
    else
      var rest := Insert(x, s[1..]);
      LeTotal(x, s[0]);
      assert s == [s[0]] + s[1..];
      InsertHead(s[0], x, s[1..], rest);
      [s[0]] + rest
  }

  lemma {:induction false} LeBelowAll(x: string, s: seq<string>)
    requires s != [] && Sorted(s) ==> Le(x, s[0])
    ensures s != [] && Sorted(s) ==> Sorted([x] + s)
  {
    if s != [] && Sorted(s) {
      forall j | 0 < j < |s| + 1 ensures Le(x, ([x] + s)[j]) {
        if j > 1 { LeTransitive(x, s[0], s[j - 1]); }
      }
    }
  }

  lemma {:induction false} InsertHead(h: string, x: string, t: seq<string>, rest: seq<string>)
    requires Le(h, x)
    requires multiset(rest) == multiset(t) + multiset{x}
    requires Sorted([h] + t) ==> Sorted(rest)
    ensures Sorted([h] + t) ==> Sorted([h] + rest)
  {
    if Sorted([h] + t) {
      forall j | 0 <= j < |rest| ensures Le(h, rest[j]) {
        assert rest[j] in multiset(rest);
        if rest[j] == x {
          assert Le(h, x);
        } else {
          assert rest[j] in multiset(t);
          var k :| 0 <= k < |t| && t[k] == rest[j];
          assert ([h] + t)[0] == h && ([h] + t)[k + 1] == t[k];
          assert Le(([h] + t)[0], ([h] + t)[k + 1]);
        }
      }
    }
  }

  /** Python `sorted(s)`. */
  function Sort(s: seq<string>): (r: seq<string>)
    ensures Sorted(r)
    ensures multiset(r) == multiset(s)
  {
    if s == [] then []
    else
      assert s == [s[0]] + s[1..];
      Insert(s[0], Sort(s[1..]))
  }

  lemma {:induction false} SortedHeadLeast(a: seq<string>, x: string)
    requires Sorted(a) && x in multiset(a)
    ensures Le(a[0], x)
  {
    var i :| 0 <= i < |a| && a[i] == x;
    if i == 0 { LeReflexive(x); } else { assert Le(a[0], a[i]); }
  }

  lemma {:induction false} SortedTail(a: seq<string>)
    requires Sorted(a) && a != []
    ensures Sorted(a[1..])
    ensures multiset(a[1..]) == multiset(a) - multiset{a[0]}
  {
    assert a == [a[0]] + a[1..];
  }

  /** Two sorted sequences holding the same elements are equal, so a sort does not depend on the
      order of its input. */
  lemma {:induction false} SortedUnique(a: seq<string>, b: seq<string>)
    requires Sorted(a) && Sorted(b)
    requires multiset(a) == multiset(b)
    ensures a == b
  {
    assert |a| == |multiset(a)| == |b|;
    if a != [] {
      assert a[0] in multiset(a) && b[0] in multiset(b);
      SortedHeadLeast(b, a[0]);
      SortedHeadLeast(a, b[0]);
      LeAntisymmetric(a[0], b[0]);
      SortedTail(a);
      SortedTail(b);
      SortedUnique(a[1..], b[1..]);
      assert a == [a[0]] + a[1..] && b == [b[0]] + b[1..];
    }
  }

  lemma {:induction false} SortPermutationInvariant(p: seq<string>, q: seq<string>)
    requires multiset(p) == multiset(q)
    ensures Sort(p) == Sort(q)
  {
    SortedUnique(Sort(p), Sort(q));
  }

  /** `sorted(s)` holds the elements of `s`. */
  lemma {:induction false} SortSameElements(s: seq<string>)
    ensures forall x :: x in Sort(s) <==> x in s
  {
    forall x ensures x in Sort(s) <==> x in s {
      assert x in Sort(s) <==> x in multiset(Sort(s));
      assert x in s <==> x in multiset(s);
    }
  }

  /** Keeps the first occurrence of every element: a deterministic stand-in for Python's
      `list(set(s))`, whose order is unspecified. */
  function Dedup(s: seq<string>): seq<string> {
    if s == [] then []
    else
      var init := Dedup(s[..|s| - 1]);
      var last := s[|s| - 1];
      if last in init then init else init + [last]
  }

  /** `Dedup` keeps every element once: the result is duplicate-free and has the same elements. */
  lemma {:induction false} DedupSpec(s: seq<string>)
    ensures Distinct(Dedup(s))
    ensures forall x :: x in Dedup(s) <==> x in s
  {
    if s != [] {
      var init := s[..|s| - 1];
      var last := s[|s| - 1];
      assert s == init + [last];
      DedupSpec(init);
    }
  }

  lemma {:induction false} DistinctCount<T>(s: seq<T>, x: T)
    requires Distinct(s)
    ensures multiset(s)[x] == if x in s then 1 else 0
  {
    if s != [] {
      var init := s[..|s| - 1];
      assert s == init + [s[|s| - 1]];
      DistinctCount(init, x);
      assert s[|s| - 1] !in init;
    }
  }

  /** Duplicate-free sequences with the same elements are permutations of each other. */
  lemma {:induction false} DistinctSameMultiset<T>(a: seq<T>, b: seq<T>)
    requires Distinct(a) && Distinct(b)
    requires forall x :: x in a <==> x in b
    ensures multiset(a) == multiset(b)
  {
    forall x ensures multiset(a)[x] == multiset(b)[x] {
      DistinctCount(a, x);
      DistinctCount(b, x);
    }
  }

  predicate StrictlySorted(s: seq<string>) {
    Sorted(s) && Distinct(s)
  }

  /** `sorted(list(set(s)))`: the elements of `s`, once each, in order. */
  function Normalise(s: seq<string>): seq<string>
  {
    Sort(Dedup(s))
  }

  /** A permutation of a duplicate-free sequence is duplicate-free. */
  lemma {:induction false} DistinctPermutation<T>(d: seq<T>, r: seq<T>)
    requires Distinct(d) && multiset(r) == multiset(d)
    ensures Distinct(r)
  {
    forall i, j | 0 <= i < j < |r| ensures r[i] != r[j] {
      if r[i] == r[j] {
        assert multiset(r)[r[i]] >= 2 by {
          assert r == r[..i] + [r[i]] + r[i + 1..j] + [r[j]] + r[j + 1..];
        }
        DistinctCount(d, r[i]);
        assert false;
      }
    }
  }

  /** `sorted(list(set(s)))` is strictly increasing and holds exactly the elements of `s`. */
  lemma {:induction false} NormaliseSpec(s: seq<string>)
    ensures StrictlySorted(Normalise(s))
    ensures forall x :: x in Normalise(s) <==> x in s
  {
    var d := Dedup(s);
    DedupSpec(s);
    var r := Sort(d);
    forall x ensures x in r <==> x in d {
      assert x in r <==> x in multiset(r);
      assert x in d <==> x in multiset(d);
    }
    DistinctPermutation(d, r);
  }

  /** The normalised list depends only on which elements occur, not on their order or repetition. */
  lemma {:induction false} NormaliseDeterministic(a: seq<string>, b: seq<string>)
    requires forall x :: x in a <==> x in b
    ensures Normalise(a) == Normalise(b)
  {
    DedupSpec(a);
    DedupSpec(b);
    DistinctSameMultiset(Dedup(a), Dedup(b));
    SortPermutationInvariant(Dedup(a), Dedup(b));
  }
}
