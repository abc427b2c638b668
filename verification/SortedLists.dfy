/**
  `sort_unstable` followed by `dedup`: the one strictly increasing list with the given elements,
  whatever sorting algorithm produced it.
*/
module SortedLists {
  type Order<!T> = (T, T) -> bool

  ghost predicate StrictOrder<T(!new)>(less: Order<T>) {
    && (forall x :: !less(x, x))
    && (forall x, y :: x == y || less(x, y) || less(y, x))
    && (forall x, y, z :: less(x, y) && less(y, z) ==> less(x, z))
  }

  ghost predicate Increasing<T>(s: seq<T>, less: Order<T>) {
    forall i, j :: 0 <= i < j < |s| ==> less(s[i], s[j])
  }

  function Insert<T(==)>(x: T, s: seq<T>, less: Order<T>): seq<T> {
    if s == [] || less(x, s[0]) then [x] + s
    else if x == s[0] then s
    else [s[0]] + Insert(x, s[1..], less)
  }

  function SortDedup<T(==)>(s: seq<T>, less: Order<T>): seq<T> {
    if s == [] then [] else Insert(s[0], SortDedup(s[1..], less), less)
  }

  ghost predicate SameElements<T>(a: seq<T>, b: seq<T>) {
    (forall x :: x in a ==> x in b) && (forall x :: x in b ==> x in a)
  }

  lemma {:induction false} InsertInto<T(!new)>(x: T, s: seq<T>, less: Order<T>)
    requires StrictOrder(less) && Increasing(s, less)
    ensures Increasing(Insert(x, s, less), less)
    ensures SameElements(Insert(x, s, less), [x] + s)
  {
    if s == [] || less(x, s[0]) {
    } else if x == s[0] {
    } else {
      InsertInto(x, s[1..], less);
      var rest := Insert(x, s[1..], less);
      assert forall y :: y in rest ==> less(s[0], y);
      assert s == [s[0]] + s[1..];
      assert Insert(x, s, less) == [s[0]] + rest;
    }
  }

  /** The result is strictly increasing and has exactly the elements of the input. */
  lemma {:induction false} SortDedupSorts<T(!new)>(s: seq<T>, less: Order<T>)
    requires StrictOrder(less)
    ensures Increasing(SortDedup(s, less), less)
    ensures SameElements(SortDedup(s, less), s)
  {
    if s != [] {
      SortDedupSorts(s[1..], less);
      InsertInto(s[0], SortDedup(s[1..], less), less);
      assert s == [s[0]] + s[1..];
    }
  }

  /** No other list is. */
  lemma {:induction false} IncreasingUnique<T(!new)>(a: seq<T>, b: seq<T>, less: Order<T>)
    requires StrictOrder(less)
    requires Increasing(a, less) && Increasing(b, less) && SameElements(a, b)
    ensures a == b
  {
    assert b == [] || b[0] in b;
    if a == [] {
    } else {
      assert a[0] in b;
      assert b[0] in a;
      assert a[0] == b[0];
      forall x | x in a[1..] ensures x in b[1..] { assert x in a && x != a[0]; }
      forall x | x in b[1..] ensures x in a[1..] { assert x in b && x != b[0]; }
      IncreasingUnique(a[1..], b[1..], less);
      assert a == [a[0]] + a[1..] && b == [b[0]] + b[1..];
    }
  }

  lemma SortDedupOfIncreasing<T(!new)>(s: seq<T>, less: Order<T>)
    requires StrictOrder(less) && Increasing(s, less)
    ensures SortDedup(s, less) == s
  {
    SortDedupSorts(s, less);
    IncreasingUnique(SortDedup(s, less), s, less);
  }

  /** Lexicographic order of strings by character, which is also the order of their UTF-8 bytes. */
  predicate LessString(a: string, b: string) {
    b != [] && (a == [] || a[0] < b[0] || (a[0] == b[0] && LessString(a[1..], b[1..])))
  }

  lemma {:induction false} LessStringTotal(a: string, b: string)
    ensures !LessString(a, a)
    ensures a == b || LessString(a, b) || LessString(b, a)
    decreases |a| + |b|
  {
    if a != [] { LessStringTotal(a[1..], if b != [] then b[1..] else []); }
    if a != [] && b != [] { assert a == [a[0]] + a[1..] && b == [b[0]] + b[1..]; }
  }

  lemma {:induction false} LessStringTransitive(a: string, b: string, c: string)
    requires LessString(a, b) && LessString(b, c)
    ensures LessString(a, c)
    decreases |a|
  {
    if a != [] && a[0] == b[0] && b[0] == c[0] { LessStringTransitive(a[1..], b[1..], c[1..]); }
  }

  lemma LessStringStrict()
    ensures StrictOrder(LessString)
  {
    forall a, b ensures !LessString(a, a) && (a == b || LessString(a, b) || LessString(b, a)) {
      LessStringTotal(a, b);
    }
    forall a, b, c | LessString(a, b) && LessString(b, c) ensures LessString(a, c) {
      LessStringTransitive(a, b, c);
    }
  }
}
