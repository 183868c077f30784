/** Sorting as Go's sort package does it, and the byte order of strings. */
module Sorting {

  /** less orders by rank: elements of equal rank are incomparable, the others are ordered. */
  ghost predicate StrictWeak<T(!new)>(less: (T, T) -> bool) {
    && (forall x, y :: less(x, y) ==> !less(y, x))
    && (forall x, y, z :: less(x, z) ==> less(x, y) || less(y, z))
  }

  ghost predicate Sorted<T>(less: (T, T) -> bool, xs: seq<T>) {
    forall i, j :: 0 <= i < j < |xs| ==> !less(xs[j], xs[i])
  }

  function Insert<T>(less: (T, T) -> bool, x: T, xs: seq<T>): seq<T> {
    if xs == [] || !less(xs[0], x) then [x] + xs
    else [xs[0]] + Insert(less, x, xs[1..])
  }

  /** sort.SliceStable: equal elements keep their order. */
  function SortBy<T>(less: (T, T) -> bool, xs: seq<T>): seq<T> {
    if xs == [] then [] else Insert(less, xs[0], SortBy(less, xs[1..]))
  }

  lemma {:induction false} InsertPermutes<T>(less: (T, T) -> bool, x: T, xs: seq<T>)
    ensures multiset(Insert(less, x, xs)) == multiset(xs) + multiset{x}
  {
    if xs != [] && less(xs[0], x) {
      InsertPermutes(less, x, xs[1..]);
      assert xs == [xs[0]] + xs[1..];
    }
  }

  lemma {:induction false} SortPermutes<T>(less: (T, T) -> bool, xs: seq<T>)
    ensures multiset(SortBy(less, xs)) == multiset(xs)
    ensures |SortBy(less, xs)| == |xs|
  {
    if xs != [] {
      SortPermutes(less, xs[1..]);
      InsertPermutes(less, xs[0], SortBy(less, xs[1..]));
      assert xs == [xs[0]] + xs[1..];
    }
    assert |multiset(SortBy(less, xs))| == |multiset(xs)|;
  }

  lemma {:induction false} InsertSorts<T(!new)>(less: (T, T) -> bool, x: T, xs: seq<T>)
    requires StrictWeak(less) && Sorted(less, xs)
    ensures Sorted(less, Insert(less, x, xs))
  {
    if xs != [] && less(xs[0], x) {
      var rest := Insert(less, x, xs[1..]);
      InsertSorts(less, x, xs[1..]);
      InsertPermutes(less, x, xs[1..]);
      forall j | 0 <= j < |rest| ensures !less(rest[j], xs[0]) {
        assert rest[j] in multiset(rest);
        assert rest[j] == x || rest[j] in xs[1..];
      }
    }
  }

  lemma {:induction false} SortSorts<T(!new)>(less: (T, T) -> bool, xs: seq<T>)
    requires StrictWeak(less)
    ensures Sorted(less, SortBy(less, xs))
  {
    if xs != [] {
      SortSorts(less, xs[1..]);
      InsertSorts(less, xs[0], SortBy(less, xs[1..]));
    }
  }

  function Filter<T>(p: T -> bool, xs: seq<T>): seq<T> {
    if xs == [] then [] else (if p(xs[0]) then [xs[0]] else []) + Filter(p, xs[1..])
  }

  lemma {:induction false} InsertIsStable<T(!new)>(less: (T, T) -> bool, p: T -> bool, x: T, xs: seq<T>)
    requires forall y, z :: p(y) && p(z) ==> !less(y, z)
    ensures Filter(p, Insert(less, x, xs)) == Filter(p, [x] + xs)
  {
    assert ([x] + xs)[1..] == xs;
    if xs != [] && less(xs[0], x) {
      InsertIsStable(less, p, x, xs[1..]);
      assert ([x] + xs[1..])[1..] == xs[1..];
    }
  }

  /** Elements that less cannot tell apart come out in the order they went in. */
  lemma {:induction false} SortIsStable<T(!new)>(less: (T, T) -> bool, p: T -> bool, xs: seq<T>)
    requires forall y, z :: p(y) && p(z) ==> !less(y, z)
    ensures Filter(p, SortBy(less, xs)) == Filter(p, xs)
  {
    if xs != [] {
      SortIsStable(less, p, xs[1..]);
      var rest := SortBy(less, xs[1..]);
      InsertIsStable(less, p, xs[0], rest);
      assert ([xs[0]] + rest)[1..] == rest;
    }
  }

  // ------------------------------------------------------- strings

  /** Go's < on strings. */
  predicate Less(a: string, b: string) {
    b != "" && (a == "" || a[0] < b[0] || (a[0] == b[0] && Less(a[1..], b[1..])))
  }

  lemma {:induction false} LessOrdersTwo(a: string, b: string)
    ensures !(Less(a, b) && Less(b, a))
    ensures a == b || Less(a, b) || Less(b, a)
  {
    if a != "" && b != "" && a[0] == b[0] {
      LessOrdersTwo(a[1..], b[1..]);
      assert a == [a[0]] + a[1..] && b == [b[0]] + b[1..];
    }
  }

  lemma {:induction false} LessSplits(a: string, b: string, c: string)
    requires Less(a, c)
    ensures Less(a, b) || Less(b, c)
  {
    if a != "" && b != "" && a[0] == b[0] == c[0] {
      LessSplits(a[1..], b[1..], c[1..]);
    }
  }

  lemma LessIsStrictWeak()
    ensures StrictWeak(Less)
  {
    forall a, b ensures Less(a, b) ==> !Less(b, a) {
      LessOrdersTwo(a, b);
    }
    forall a, b, c | Less(a, c) ensures Less(a, b) || Less(b, c) {
      LessSplits(a, b, c);
    }
  }

  /** sort.Strings. */
  function SortStrings(xs: seq<string>): seq<string> {
    SortBy(Less, xs)
  }

  lemma SameHead(xs: seq<string>, ys: seq<string>)
    requires Sorted(Less, xs) && Sorted(Less, ys) && multiset(xs) == multiset(ys) && xs != [] && ys != []
    ensures xs[0] == ys[0]
  {
    assert xs[0] in multiset(ys) && ys[0] in multiset(xs);
    LessOrdersTwo(xs[0], ys[0]);
  }

  lemma TailMultiset(xs: seq<string>)
    requires xs != []
    ensures multiset(xs[1..]) == multiset(xs) - multiset{xs[0]}
  {
    assert xs == [xs[0]] + xs[1..];
  }

  lemma {:induction false} SortedStringsUnique(xs: seq<string>, ys: seq<string>)
    requires Sorted(Less, xs) && Sorted(Less, ys) && multiset(xs) == multiset(ys)
    ensures xs == ys
  {
    assert |xs| == |multiset(xs)| == |multiset(ys)| == |ys|;
    if xs != [] {
      SameHead(xs, ys);
      TailMultiset(xs);
      TailMultiset(ys);
      SortedStringsUnique(xs[1..], ys[1..]);
      assert xs == [xs[0]] + xs[1..] && ys == [ys[0]] + ys[1..];
    }
  }

  /** Two lists sort to the same list exactly when they hold the same strings equally often. */
  lemma SameSortIffSameMultiset(xs: seq<string>, ys: seq<string>)
    ensures SortStrings(xs) == SortStrings(ys) <==> multiset(xs) == multiset(ys)
  {
    SortPermutes(Less, xs);
    SortPermutes(Less, ys);
    if multiset(xs) == multiset(ys) {
      LessIsStrictWeak();
      SortSorts(Less, xs);
      SortSorts(Less, ys);
      SortedStringsUnique(SortStrings(xs), SortStrings(ys));
    }
  }
}
