/** Strict weak orders and stable sorting, for `sort.SliceStable`. */
module Ordering {
  import opened Lists

  ghost predicate StrictWeakOrder<T(!new)>(less: (T, T) -> bool) {
    && (forall a :: !less(a, a))
    && (forall a, b, c :: less(a, b) && less(b, c) ==> less(a, c))
    && (forall a, b, c :: !less(a, b) && !less(b, c) ==> !less(a, c))
  }

  /** Inserts in front of the first element that is not smaller. */
  function Insert<T>(x: T, xs: seq<T>, less: (T, T) -> bool): seq<T> {
    if xs == [] then [x]
    else if less(xs[0], x) then [xs[0]] + Insert(x, xs[1..], less)
    else [x] + xs
  }

  function StableSort<T>(xs: seq<T>, less: (T, T) -> bool): seq<T> {
    if xs == [] then [] else Insert(xs[0], StableSort(xs[1..], less), less)
  }

  ghost predicate Sorted<T>(xs: seq<T>, less: (T, T) -> bool) {
    forall i, j :: 0 <= i < j < |xs| ==> !less(xs[j], xs[i])
  }

  /** The elements that the order cannot tell from `x`, in sequence. */
  function Ties<T>(xs: seq<T>, x: T, less: (T, T) -> bool): seq<T> {
    if xs == [] then []
    else (if Tied(xs[0], x, less) then [xs[0]] else []) + Ties(xs[1..], x, less)
  }

  predicate Tied<T>(a: T, b: T, less: (T, T) -> bool) {
    !less(a, b) && !less(b, a)
  }

  lemma NotBothTied<T(!new)>(a: T, b: T, y: T, less: (T, T) -> bool)
    requires StrictWeakOrder(less) && less(a, b)
    ensures !(Tied(a, y, less) && Tied(b, y, less))
  {
  }

  lemma {:induction false} InsertKeeps<T>(x: T, xs: seq<T>, less: (T, T) -> bool)
    ensures multiset(Insert(x, xs, less)) == multiset(xs) + multiset{x}
    ensures |Insert(x, xs, less)| == |xs| + 1
    ensures forall y :: y in Insert(x, xs, less) <==> y == x || y in xs
  {
    if xs != [] {
      assert xs == [xs[0]] + xs[1..];
      if less(xs[0], x) {
        InsertKeeps(x, xs[1..], less);
      }
    }
  }

  lemma {:induction false} InsertSorted<T(!new)>(x: T, xs: seq<T>, less: (T, T) -> bool)
    requires StrictWeakOrder(less) && Sorted(xs, less)
    ensures Sorted(Insert(x, xs, less), less)
  {
    if xs != [] {
      if less(xs[0], x) {
        var tail := Insert(x, xs[1..], less);
        InsertSorted(x, xs[1..], less);
        InsertKeeps(x, xs[1..], less);
        forall j | 0 <= j < |tail| ensures !less(tail[j], xs[0]) {
          assert tail[j] in tail;
          if tail[j] != x {
            assert tail[j] in xs[1..];
          }
        }
      } else {
        forall j | 0 <= j < |xs| ensures !less(xs[j], x) {
          if j > 0 { assert !less(xs[j], xs[0]); }
        }
      }
    }
  }

  lemma {:induction false} InsertStable<T(!new)>(x: T, xs: seq<T>, y: T, less: (T, T) -> bool)
    requires StrictWeakOrder(less)
    ensures Ties(Insert(x, xs, less), y, less) == Ties([x] + xs, y, less)
  {
    hide StrictWeakOrder, Tied, Ties;
    if xs != [] && less(xs[0], x) {
      NotBothTied(xs[0], x, y, less);
      InsertStable(x, xs[1..], y, less);
      assert xs == [xs[0]] + xs[1..];
      TiesCons(xs[0], Insert(x, xs[1..], less), y, less);
      TiesCons(x, xs[1..], y, less);
      TiesCons(x, xs, y, less);
      TiesCons(xs[0], xs[1..], y, less);
    } else {
      assert Insert(x, xs, less) == [x] + xs;
    }
  }

  lemma TiesCons<T>(x: T, xs: seq<T>, y: T, less: (T, T) -> bool)
    ensures Ties([x] + xs, y, less) == if Tied(x, y, less) then [x] + Ties(xs, y, less) else Ties(xs, y, less)
  {
    hide Tied;
    assert ([x] + xs)[1..] == xs;
  }

  /** Stable sorting permutes, sorts, and keeps tied elements in their order. */
  lemma {:induction false} StableSortCorrect<T(!new)>(xs: seq<T>, less: (T, T) -> bool)
    requires StrictWeakOrder(less)
    ensures multiset(StableSort(xs, less)) == multiset(xs)
    ensures Sorted(StableSort(xs, less), less)
    ensures forall y :: Ties(StableSort(xs, less), y, less) == Ties(xs, y, less)
  {
    if xs != [] {
      var tail := StableSort(xs[1..], less);
      StableSortCorrect(xs[1..], less);
      InsertKeeps(xs[0], tail, less);
      InsertSorted(xs[0], tail, less);
      assert xs == [xs[0]] + xs[1..];
      forall y ensures Ties(StableSort(xs, less), y, less) == Ties(xs, y, less) {
        InsertStable(xs[0], tail, y, less);
        assert ([xs[0]] + tail)[1..] == tail;
      }
    }
  }

  // ----- strings compare by their characters -----

  predicate StringLess(a: string, b: string) {
    if b == "" then false
    else if a == "" then true
    else a[0] < b[0] || (a[0] == b[0] && StringLess(a[1..], b[1..]))
  }

  lemma {:induction false} StringLessIrreflexive(a: string)
    ensures !StringLess(a, a)
  {
    if a != "" {
      StringLessIrreflexive(a[1..]);
    }
  }

  lemma {:induction false} StringLessTransitive(a: string, b: string, c: string)
    ensures StringLess(a, b) && StringLess(b, c) ==> StringLess(a, c)
  {
    if a != "" && b != "" && c != "" {
      StringLessTransitive(a[1..], b[1..], c[1..]);
    }
  }

  lemma {:induction false} StringLessTotal(a: string, b: string)
    ensures StringLess(a, b) || a == b || StringLess(b, a)
  {
    if a != "" && b != "" {
      StringLessTotal(a[1..], b[1..]);
      assert a == [a[0]] + a[1..] && b == [b[0]] + b[1..];
    }
  }

  /** Two strings differ first at a position, or one ends there. */
  predicate DivergeAt(a: string, b: string, i: nat) {
    i <= |a| && i < |b| && a[..i] == b[..i] && (i == |a| || a[i] < b[i])
  }

  /** The order is that of dictionaries. */
  lemma {:induction false} StringLessMeans(a: string, b: string)
    ensures StringLess(a, b) <==> exists i: nat :: DivergeAt(a, b, i)
  {
    if b == "" {
    } else if a == "" {
      assert DivergeAt(a, b, 0);
    } else {
      StringLessMeans(a[1..], b[1..]);
      if a[0] < b[0] {
        assert DivergeAt(a, b, 0);
      }
      if i: nat :| a[0] == b[0] && DivergeAt(a[1..], b[1..], i) {
        assert a[..i + 1] == [a[0]] + a[1..][..i] && b[..i + 1] == [b[0]] + b[1..][..i];
        assert DivergeAt(a, b, i + 1);
      }
      if i: nat :| DivergeAt(a, b, i) && i > 0 {
        assert a[0] == a[..i][0] == b[..i][0] == b[0];
        assert a[1..][..i - 1] == a[..i][1..] && b[1..][..i - 1] == b[..i][1..];
        assert DivergeAt(a[1..], b[1..], i - 1);
      }
    }
  }
}
