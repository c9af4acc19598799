/** When two imported rows belong to one contact, over the fields of the rows, and the round trip of an export in
    those terms (internal/api/contacts_io.go). */
module ContactKeys {
  import opened Text
  import opened Lists
  import opened Ordering
  import opened ContactsCSV
  import opened ContactsRoundTrip

  /** The character that keys put between fields. */
  const SEPARATOR: char := '\U{1F}'

  /** No field holds the separator. */
  predicate Separable(c: Imported) {
    && SEPARATOR !in c.name && SEPARATOR !in c.notes && SEPARATOR !in c.account && SEPARATOR !in c.sender
    && FreeOf(c.nicknames, SEPARATOR) && FreeOf(c.groups, SEPARATOR)
  }

  predicate CleanLists(c: Imported) {
    Clean(c.nicknames) && Clean(c.groups)
  }

  /** The fields of two contacts agree, lists without regard to order. */
  ghost predicate SameFields(a: Imported, b: Imported) {
    && TrimSpace(a.name) == TrimSpace(b.name) && TrimSpace(a.notes) == TrimSpace(b.notes)
    && TrimSpace(a.account) == TrimSpace(b.account) && TrimSpace(a.sender) == TrimSpace(b.sender)
    && multiset(a.nicknames) == multiset(b.nicknames) && multiset(a.groups) == multiset(b.groups)
  }

  // ----- sorted lists -----

  lemma MembersOf(a: seq<string>, b: seq<string>)
    requires multiset(a) == multiset(b)
    ensures |a| == |b| && forall x :: x in a <==> x in b
  {
    assert |multiset(a)| == |a| && |multiset(b)| == |b|;
    forall x ensures x in a <==> x in b {
      assert x in a <==> x in multiset(a);
      assert x in b <==> x in multiset(b);
    }
  }

  lemma SmallestFirst(a: seq<string>, x: string)
    requires Sorted(a, FoldLess()) && a != [] && x in a
    ensures !StringLess(ToLower(x), ToLower(a[0]))
  {
    var i :| 0 <= i < |a| && a[i] == x;
    if i == 0 {
      StringLessIrreflexive(ToLower(x));
    } else {
      assert !FoldLess()(a[i], a[0]);
    }
  }

  lemma SameHead(a: seq<string>, b: seq<string>)
    requires Sorted(a, FoldLess()) && Sorted(b, FoldLess()) && multiset(a) == multiset(b) && FoldDistinct(a) && a != []
    ensures b != [] && a[0] == b[0]
  {
    MembersOf(a, b);
    assert a[0] in a && b[0] in b;
    hide FoldLess, StringLess;
    SmallestFirst(a, b[0]);
    SmallestFirst(b, a[0]);
    StringLessTotal(ToLower(a[0]), ToLower(b[0]));
    assert forall k :: 0 < k < |a| ==> ToLower(a[0]) != ToLower(a[k]);
  }

  /** Sorted lists of the same strings, none equal but for case, are the same. */
  lemma {:induction false} SortedUnique(a: seq<string>, b: seq<string>)
    requires Sorted(a, FoldLess()) && Sorted(b, FoldLess()) && multiset(a) == multiset(b) && FoldDistinct(a)
    ensures a == b
  {
    MembersOf(a, b);
    if a != [] {
      SameHead(a, b);
      hide *;
      SortedTail(a);
      SortedTail(b);
      assert FoldDistinct(a[1..]) by { DistinctTail(a); }
      SortedUnique(a[1..], b[1..]);
      assert a == [a[0]] + a[1..] && b == [b[0]] + b[1..];
    }
  }

  lemma SortedTail(a: seq<string>)
    requires a != [] && Sorted(a, FoldLess())
    ensures Sorted(a[1..], FoldLess()) && multiset(a[1..]) == multiset(a) - multiset{a[0]}
  {
    hide FoldLess;
    assert a == [a[0]] + a[1..];
    assert forall i :: 0 <= i < |a[1..]| ==> a[1..][i] == a[i + 1];
  }

  lemma DistinctTail(a: seq<string>)
    requires a != [] && FoldDistinct(a)
    ensures FoldDistinct(a[1..])
  {
    hide ToLower;
    assert forall i :: 0 <= i < |a[1..]| ==> a[1..][i] == a[i + 1];
  }

  lemma FoldDistinctSorted(x: seq<string>)
    requires FoldDistinct(x)
    ensures FoldDistinct(SortFold(x))
  {
    GroupsSorted(x);
    var s := SortFold(x);
    hide SortFold, ToLower;
    MembersOf(s, x);
    forall i, j | 0 <= i < j < |s| ensures ToLower(s[i]) != ToLower(s[j]) {
      assert s[i] in x && s[j] in x;
      var k :| 0 <= k < |x| && x[k] == s[i];
      var l :| 0 <= l < |x| && x[l] == s[j];
      if s[i] == s[j] {
        Twice(s, i, j);
        Once(x, k);
      }
    }
  }

  lemma Twice(s: seq<string>, i: nat, j: nat)
    requires i < j < |s| && s[i] == s[j]
    ensures multiset(s)[s[i]] >= 2
  {
    assert s == s[..j] + s[j..];
    assert s[i] in s[..j] && s[j] in s[j..];
    assert multiset(s) == multiset(s[..j]) + multiset(s[j..]);
  }

  lemma Once(x: seq<string>, k: nat)
    requires FoldDistinct(x) && k < |x|
    ensures multiset(x)[x[k]] == 1
  {
    assert x == x[..k] + [x[k]] + x[k + 1..];
    assert multiset(x) == multiset(x[..k]) + multiset{x[k]} + multiset(x[k + 1..]);
    assert x[k] !in x[..k] && x[k] !in x[k + 1..];
  }

  /** Lists sort alike exactly when they hold the same strings. */
  lemma SortFoldExact(x: seq<string>, y: seq<string>)
    requires FoldDistinct(x) && FoldDistinct(y)
    ensures SortFold(x) == SortFold(y) <==> multiset(x) == multiset(y)
  {
    GroupsSorted(x);
    GroupsSorted(y);
    FoldDistinctSorted(x);
    hide SortFold, FoldDistinct, Sorted;
    if multiset(x) == multiset(y) {
      SortedUnique(SortFold(x), SortFold(y));
    }
  }

  // ----- one list in a key -----

  lemma SortFoldParts(x: seq<string>)
    requires Clean(x)
    ensures |SortFold(x)| == |x| && FreeOf(SortFold(x), '|') && forall i :: 0 <= i < |x| ==> CleanPart(SortFold(x)[i])
    ensures forall c :: FreeOf(x, c) ==> FreeOf(SortFold(x), c)
  {
    GroupsSorted(x);
    var s := SortFold(x);
    hide SortFold;
    MembersOf(s, x);
    forall i | 0 <= i < |s| ensures CleanPart(s[i]) && forall c :: FreeOf(x, c) ==> c !in s[i] {
      assert s[i] in x;
      var k :| 0 <= k < |x| && x[k] == s[i];
    }
  }

  /** The text of a list in a key tells which strings it holds. */
  lemma ListTextExact(x: seq<string>, y: seq<string>)
    requires Clean(x) && Clean(y)
    ensures Join(SortFold(x), "|") == Join(SortFold(y), "|") <==> multiset(x) == multiset(y)
  {
    SortFoldParts(x);
    SortFoldParts(y);
    SortFoldExact(x, y);
    var a, b := SortFold(x), SortFold(y);
    JoinTrimmed(a);
    JoinTrimmed(b);
    hide SortFold, CleanPart;
    if Join(a, "|") == Join(b, "|") && a != [] && b != [] {
      JoinInjective(a, b, '|');
    }
  }

  lemma {:induction false} JoinFree(parts: seq<string>, c: char)
    requires FreeOf(parts, c) && c != '|'
    ensures c !in Join(parts, "|")
  {
    if |parts| > 1 {
      JoinFree(parts[1..], c);
    }
  }

  lemma TrimFree(s: string, c: char)
    requires c !in s
    ensures c !in TrimSpace(s)
  {
    var i, j := TrimSpaceSplits(s);
  }

  // ----- keys -----

  function KeyParts(c: Imported): seq<string> {
    [TrimSpace(c.name), Join(SortFold(c.nicknames), "|"), TrimSpace(c.notes), Join(SortFold(c.groups), "|"),
     TrimSpace(c.account), TrimSpace(c.sender)]
  }

  lemma PartsFree(c: Imported)
    requires Separable(c) && CleanLists(c)
    ensures FreeOf(KeyParts(c), SEPARATOR)
  {
    TrimFree(c.name, SEPARATOR);
    TrimFree(c.notes, SEPARATOR);
    TrimFree(c.account, SEPARATOR);
    TrimFree(c.sender, SEPARATOR);
    SortFoldParts(c.nicknames);
    SortFoldParts(c.groups);
    hide TrimSpace, SortFold, Join, Clean;
    JoinFree(SortFold(c.nicknames), SEPARATOR);
    JoinFree(SortFold(c.groups), SEPARATOR);
  }

  /** Rows belong to one contact exactly when all their fields but the email agree. */
  lemma KeysExact(a: Imported, b: Imported)
    requires Separable(a) && Separable(b) && CleanLists(a) && CleanLists(b)
    ensures KeyOf(a) == KeyOf(b) <==> SameFields(a, b)
  {
    PartsFree(a);
    PartsFree(b);
    ListTextExact(a.nicknames, b.nicknames);
    ListTextExact(a.groups, b.groups);
    assert KeyOf(a) == Join(KeyParts(a), [SEPARATOR]) && KeyOf(b) == Join(KeyParts(b), [SEPARATOR]) by {
      hide TrimSpace, SortFold, Join;
    }
    var x, y := KeyParts(a), KeyParts(b);
    hide TrimSpace, SortFold, Join, KeyOf, Clean, FreeOf;
    if KeyOf(a) == KeyOf(b) {
      JoinInjective(x, y, SEPARATOR);
      assert x[0] == y[0] && x[1] == y[1] && x[2] == y[2] && x[3] == y[3] && x[4] == y[4] && x[5] == y[5];
    }
  }

  /** Importing an export gives the contacts back exactly when they are tidy and no two agree in all fields but the
      emails. */
  lemma RoundTripExact(cs: seq<Imported>)
    requires forall i :: 0 <= i < |cs| ==> Separable(cs[i])
    ensures Parse(Export(cs)) == cs <==>
      && (forall i :: 0 <= i < |cs| ==> Tidy(cs[i]))
      && (forall i, j :: 0 <= i < j < |cs| ==> !SameFields(cs[i], cs[j]))
  {
    ExportRoundTrip(cs);
    hide Separable, SameFields, KeyOf, Parse, Export;
    if forall i :: 0 <= i < |cs| ==> Tidy(cs[i]) {
      forall i, j | 0 <= i < j < |cs| ensures KeyOf(cs[i]) == KeyOf(cs[j]) <==> SameFields(cs[i], cs[j]) {
        assert Tidy(cs[i]) && Tidy(cs[j]);
        KeysExact(cs[i], cs[j]);
      }
      hide Tidy;
    }
  }

  // ----- flags -----

  /** A flag is set by one of five words, in any case and with white space around it, and by nothing else. */
  lemma FlagWords(raw: string)
    ensures ParseBool(raw) <==>
      PadsFold(raw, "1") || PadsFold(raw, "true") || PadsFold(raw, "yes") || PadsFold(raw, "y") || PadsFold(raw, "on")
  {
    assert ToLower("1") == "1" && ToLower("true") == "true" && ToLower("yes") == "yes" && ToLower("y") == "y"
      && ToLower("on") == "on";
    hide TrimSpace, PadsFold;
    PadsFoldExact(raw, "1");
    PadsFoldExact(raw, "true");
    PadsFoldExact(raw, "yes");
    PadsFoldExact(raw, "y");
    PadsFoldExact(raw, "on");
  }
}
