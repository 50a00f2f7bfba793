/** Sorting by a relation that orders the elements at hand, and the byte order of strings. */
module Sorting {

  ghost predicate Orders<T>(le: (T, T) -> bool, dom: set<T>) {
    && (forall x, y | x in dom && y in dom :: le(x, y) || le(y, x))
    && (forall x, y | x in dom && y in dom && le(x, y) && le(y, x) :: x == y)
    && (forall x, y, z | x in dom && y in dom && z in dom && le(x, y) && le(y, z) :: le(x, z))
  }

  predicate Sorted<T>(le: (T, T) -> bool, s: seq<T>) {
    forall i, j :: 0 <= i < j < |s| ==> le(s[i], s[j])
  }

  predicate Within<T(==)>(s: seq<T>, dom: set<T>) {
    forall i :: 0 <= i < |s| ==> s[i] in dom
  }

  function Insert<T>(le: (T, T) -> bool, x: T, s: seq<T>): seq<T> {
    if s == [] then [x] else if le(x, s[0]) then [x] + s else [s[0]] + Insert(le, x, s[1..])
  }

  function Sort<T>(le: (T, T) -> bool, s: seq<T>): seq<T> {
    if s == [] then [] else Insert(le, s[0], Sort(le, s[1..]))
  }

  lemma {:induction false} InsertKeeps<T>(le: (T, T) -> bool, x: T, s: seq<T>)
    ensures multiset(Insert(le, x, s)) == multiset(s) + multiset{x}
  {
    if s != [] && !le(x, s[0]) {
      InsertKeeps(le, x, s[1..]);
      assert s == [s[0]] + s[1..];
    }
  }

  lemma {:induction false} InsertSorts<T>(le: (T, T) -> bool, x: T, s: seq<T>, dom: set<T>)
    requires Orders(le, dom) && x in dom && Within(s, dom) && Sorted(le, s)
    ensures Sorted(le, Insert(le, x, s)) && Within(Insert(le, x, s), dom)
  {
    if s != [] {
      var h := s[0];
      assert le(x, h) || le(h, x);
      if le(x, h) {
        forall j | 0 <= j < |s| ensures le(x, s[j]) { assert j == 0 || le(h, s[j]); }
      } else {
        var rest := Insert(le, x, s[1..]);
        InsertSorts(le, x, s[1..], dom);
        InsertKeeps(le, x, s[1..]);
        forall i | 0 <= i < |rest| ensures le(h, rest[i]) {
          assert rest[i] in multiset(rest);
          assert rest[i] == x || rest[i] in s[1..];
        }
      }
    }
  }

  lemma {:induction false} SortSorts<T>(le: (T, T) -> bool, s: seq<T>, dom: set<T>)
    requires Orders(le, dom) && Within(s, dom)
    ensures Sorted(le, Sort(le, s)) && Within(Sort(le, s), dom)
    ensures multiset(Sort(le, s)) == multiset(s)
  {
    if s != [] {
      SortSorts(le, s[1..], dom);
      InsertSorts(le, s[0], Sort(le, s[1..]), dom);
      InsertKeeps(le, s[0], Sort(le, s[1..]));
      assert s == [s[0]] + s[1..];
    }
  }

  lemma LeastIsFirst<T>(le: (T, T) -> bool, a: seq<T>, b: seq<T>, dom: set<T>)
    requires Orders(le, dom) && Within(b, dom) && Sorted(le, a) && a != [] && b != [] && multiset(a) == multiset(b)
    ensures le(a[0], b[0]) && a[0] in dom && b[0] in dom
  {
    assert b[0] in multiset(a) && a[0] in multiset(b);
    var j :| 0 <= j < |a| && a[j] == b[0];
    assert le(b[0], b[0]);
  }

  /** There is only one way to sort. */
  lemma {:induction false} SortedIsUnique<T>(le: (T, T) -> bool, a: seq<T>, b: seq<T>, dom: set<T>)
    requires Orders(le, dom) && Within(a, dom) && Within(b, dom) && Sorted(le, a) && Sorted(le, b)
    requires multiset(a) == multiset(b)
    ensures a == b
  {
    assert |a| == |multiset(a)| == |b|;
    if a != [] {
      LeastIsFirst(le, a, b, dom);
      LeastIsFirst(le, b, a, dom);
      assert a == [a[0]] + a[1..] && b == [b[0]] + b[1..];
      assert multiset(a[1..]) == multiset(a) - multiset{a[0]};
      SortedIsUnique(le, a[1..], b[1..], dom);
    }
  }

  /** Sorting two sequences and comparing them decides whether they are permutations of each other. */
  lemma SortDecidesPermutation<T>(le: (T, T) -> bool, a: seq<T>, b: seq<T>, dom: set<T>)
    requires Orders(le, dom) && Within(a, dom) && Within(b, dom)
    ensures Sort(le, a) == Sort(le, b) <==> multiset(a) == multiset(b)
  {
    SortSorts(le, a, dom);
    SortSorts(le, b, dom);
    if multiset(a) == multiset(b) {
      SortedIsUnique(le, Sort(le, a), Sort(le, b), dom);
    }
  }

  // ----- permutations -----

  function Map<S, T>(f: S -> T, s: seq<S>): (r: seq<T>)
    ensures |r| == |s| && forall i :: 0 <= i < |s| ==> r[i] == f(s[i])
  {
    seq(|s|, i requires 0 <= i < |s| => f(s[i]))
  }

  function Without<T>(s: seq<T>, k: int): seq<T> requires 0 <= k < |s| { s[..k] + s[k + 1..] }

  lemma WithoutIsRemoval<T>(s: seq<T>, k: int)
    requires 0 <= k < |s|
    ensures multiset(s) == multiset(Without(s, k)) + multiset{s[k]}
  {
    assert s == s[..k] + ([s[k]] + s[k + 1..]);
  }

  lemma MapWithout<S, T>(f: S -> T, s: seq<S>, k: int)
    requires 0 <= k < |s|
    ensures Map(f, Without(s, k)) == Without(Map(f, s), k)
  {}

  lemma CancelCommon<T>(a: multiset<T>, b: multiset<T>, x: T)
    ensures a + multiset{x} == b + multiset{x} <==> a == b
  {
    assert (a + multiset{x}) - multiset{x} == a && (b + multiset{x}) - multiset{x} == b;
  }

  lemma {:induction false} MapKeepsPermutation<S, T>(f: S -> T, a: seq<S>, b: seq<S>)
    requires multiset(a) == multiset(b)
    ensures multiset(Map(f, a)) == multiset(Map(f, b))
    decreases |a|
  {
    assert |multiset(a)| == |a| && |multiset(b)| == |b|;
    if a != [] {
      assert a[0] in multiset(b);
      var k :| 0 <= k < |b| && b[k] == a[0];
      WithoutIsRemoval(a, 0);
      WithoutIsRemoval(b, k);
      WithoutIsRemoval(Map(f, a), 0);
      WithoutIsRemoval(Map(f, b), k);
      MapWithout(f, a, 0);
      MapWithout(f, b, k);
      CancelCommon(multiset(Without(a, 0)), multiset(Without(b, k)), a[0]);
      MapKeepsPermutation(f, Without(a, 0), Without(b, k));
    }
  }

  predicate AllDistinct<T(==)>(s: seq<T>) { forall i, j :: 0 <= i < j < |s| ==> s[i] != s[j] }

  lemma {:induction false} DistinctByCount<T>(s: seq<T>)
    ensures AllDistinct(s) <==> forall x :: x in s ==> multiset(s)[x] == 1
  {
    if s != [] {
      var h, t := s[0], s[1..];
      assert s == [h] + t;
      DistinctByCount(t);
      assert multiset(s)[h] == 1 + multiset(t)[h] && (h in t <==> multiset(t)[h] > 0);
      if AllDistinct(s) {
        assert AllDistinct(t) && h !in t;
      }
      if forall x :: x in s ==> multiset(s)[x] == 1 {
        forall x | x in t ensures multiset(t)[x] == 1 { assert x in s; }
        forall i, j | 0 <= i < j < |s| ensures s[i] != s[j] {
          if i == 0 { assert s[j] in t; } else { assert t[i - 1] != t[j - 1]; }
        }
      }
    }
  }

  /** Being free of repetitions does not depend on the order. */
  lemma DistinctIsUnordered<T>(a: seq<T>, b: seq<T>)
    requires multiset(a) == multiset(b)
    ensures AllDistinct(a) <==> AllDistinct(b)
  {
    DistinctByCount(a);
    DistinctByCount(b);
    forall x ensures x in a <==> x in b { assert x in multiset(a) <==> x in multiset(b); }
  }

  // ----- strings -----

  /** Byte order, as Go compares strings. */
  predicate StringLe(a: string, b: string) {
    a == [] || (b != [] && (a[0] < b[0] || (a[0] == b[0] && StringLe(a[1..], b[1..]))))
  }

  lemma {:induction false} StringLeTotal(a: string, b: string)
    ensures StringLe(a, b) || StringLe(b, a)
  {
    if a != [] && b != [] { StringLeTotal(a[1..], b[1..]); }
  }

  lemma {:induction false} StringLeAntisymmetric(a: string, b: string)
    requires StringLe(a, b) && StringLe(b, a)
    ensures a == b
  {
    if a != [] && b != [] {
      StringLeAntisymmetric(a[1..], b[1..]);
      assert a == [a[0]] + a[1..] && b == [b[0]] + b[1..];
    }
  }

  lemma {:induction false} StringLeTransitive(a: string, b: string, c: string)
    requires StringLe(a, b) && StringLe(b, c)
    ensures StringLe(a, c)
  {
    if a != [] && a[0] == b[0] && b[0] == c[0] { StringLeTransitive(a[1..], b[1..], c[1..]); }
  }

  lemma StringsAreOrdered(dom: set<string>)
    ensures Orders(StringLe, dom)
  {
    forall x, y | x in dom && y in dom ensures StringLe(x, y) || StringLe(y, x) { StringLeTotal(x, y); }
    forall x, y | x in dom && y in dom && StringLe(x, y) && StringLe(y, x) ensures x == y {
      StringLeAntisymmetric(x, y);
    }
    forall x, y, z | x in dom && y in dom && z in dom && StringLe(x, y) && StringLe(y, z) ensures StringLe(x, z) {
      StringLeTransitive(x, y, z);
    }
  }
}
