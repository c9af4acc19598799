/** Whole-list specifications the scanning loops are proved against. */
module Lists {

  function Min(a: int, b: int): int {
    if a < b then a else b
  }

  function Filter<T>(xs: seq<T>, p: T -> bool): seq<T> {
    if xs == [] then [] else (if p(xs[0]) then [xs[0]] else []) + Filter(xs[1..], p)
  }

  function Map<T, U>(xs: seq<T>, f: T -> U): (r: seq<U>)
    ensures |r| == |xs| && forall i :: 0 <= i < |xs| ==> r[i] == f(xs[i])
  {
    seq(|xs|, i requires 0 <= i < |xs| => f(xs[i]))
  }

  function Flatten<T>(xss: seq<seq<T>>): seq<T> {
    if xss == [] then [] else xss[0] + Flatten(xss[1..])
  }

  /** At most `n` elements from position `offset` on. */
  function Slice<T>(xs: seq<T>, offset: nat, n: nat): seq<T> {
    if offset >= |xs| then [] else xs[offset..Min(offset + n, |xs|)]
  }

  predicate Distinct<T(==)>(xs: seq<T>) {
    forall i, j :: 0 <= i < j < |xs| ==> xs[i] != xs[j]
  }

  lemma SplitLast<T>(xs: seq<T>)
    requires xs != []
    ensures xs == xs[..|xs| - 1] + [xs[|xs| - 1]]
  {
  }

  lemma {:induction false} FilterAppend<T>(a: seq<T>, b: seq<T>, p: T -> bool)
    ensures Filter(a + b, p) == Filter(a, p) + Filter(b, p)
  {
    if a == [] {
      assert a + b == b;
    } else {
      FilterAppend(a[1..], b, p);
      var kept := if p(a[0]) then [a[0]] else [];
      assert (a + b)[0] == a[0] && (a + b)[1..] == a[1..] + b;
      assert Filter(a + b, p) == kept + Filter(a[1..] + b, p) && Filter(a, p) == kept + Filter(a[1..], p);
      hide Filter;
    }
  }

  lemma FilterSnoc<T>(a: seq<T>, x: T, p: T -> bool)
    ensures Filter(a + [x], p) == Filter(a, p) + if p(x) then [x] else []
  {
    FilterAppend(a, [x], p);
    assert Filter([x], p) == if p(x) then [x] else [];
  }

  lemma {:induction false} FilterMembers<T>(xs: seq<T>, p: T -> bool)
    ensures forall x :: x in Filter(xs, p) <==> x in xs && p(x)
    ensures |Filter(xs, p)| <= |xs|
  {
    if xs != [] {
      FilterMembers(xs[1..], p);
      assert xs == [xs[0]] + xs[1..];
    }
  }

  lemma {:induction false} FlattenAppend<T>(a: seq<seq<T>>, b: seq<seq<T>>)
    ensures Flatten(a + b) == Flatten(a) + Flatten(b)
  {
    if a == [] {
      assert a + b == b;
    } else {
      assert (a + b)[1..] == a[1..] + b;
      FlattenAppend(a[1..], b);
    }
  }

  lemma FlattenSnoc<T>(a: seq<seq<T>>, x: seq<T>)
    ensures Flatten(a + [x]) == Flatten(a) + x
  {
    FlattenAppend(a, [x]);
    assert Flatten([x]) == x + Flatten([]);
  }

  /** A page that is already full does not change when the list grows. */
  lemma SliceStable<T>(a: seq<T>, b: seq<T>, offset: nat, n: nat)
    requires offset + n <= |a|
    ensures Slice(a + b, offset, n) == Slice(a, offset, n)
  {
  }

  lemma MapAppend<T, U>(a: seq<T>, b: seq<T>, f: T -> U)
    ensures Map(a + b, f) == Map(a, f) + Map(b, f)
  {
  }

  /** Consecutive pages laid end to end give back the list. */
  lemma {:induction false} PagesTile<T>(xs: seq<T>, n: nat, pages: nat)
    requires n > 0
    ensures Flatten(Pages(xs, n, pages)) == xs[..Min(n * pages, |xs|)]
  {
    if pages == 0 {
      assert xs[..0] == [];
    } else {
      var before, start := Pages(xs, n, pages - 1), (pages - 1) * n;
      PagesTile(xs, n, pages - 1);
      FlattenSnoc(before, Slice(xs, start, n));
      assert n * pages == start + n && n * (pages - 1) == start by { Distribute(n, pages); }
      hide Flatten;
      TakeMore(xs, start, n);
    }
  }

  lemma Distribute(n: nat, pages: nat)
    requires pages > 0
    ensures n * pages == (pages - 1) * n + n && n * (pages - 1) == (pages - 1) * n
  {
  }

  lemma TakeMore<T>(xs: seq<T>, start: nat, n: nat)
    ensures xs[..Min(start, |xs|)] + Slice(xs, start, n) == xs[..Min(start + n, |xs|)]
  {
  }

  function Pages<T>(xs: seq<T>, n: nat, pages: nat): seq<seq<T>> {
    if pages == 0 then [] else Pages(xs, n, pages - 1) + [Slice(xs, (pages - 1) * n, n)]
  }
}
