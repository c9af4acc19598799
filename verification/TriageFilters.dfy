/** What a triage filter keeps, over the fields of messages and filters, and what therefore is in a view and in which
    order (internal/api/mail_triage.go). */
module TriageFilters {
  import opened Text
  import opened Lists
  import opened Ordering
  import opened Triage
  import L = LiveListing

  // ----- single criteria -----

  const NO_FILTER := ViewFilter(false, false, "", [], false)

  /** The message carries the tag, up to outer white space. */
  predicate Carries(x: Item, tag: string) {
    exists i :: 0 <= i < |x.triage.tags| && TrimSpace(x.triage.tags[i]) == TrimSpace(tag)
  }

  predicate InCategory(x: Item, category: string) {
    x.triage.category.Some? && TrimSpace(x.triage.category.value) == TrimSpace(category)
  }

  /** Without a filter exactly the snoozed messages are missing. */
  lemma KeepsUnsnoozed(x: Item)
    ensures Keeps(NO_FILTER)(x) <==> !x.triage.isSnoozed
  {
    assert TrimSpace("") == "";
  }

  /** With the snoozed filter exactly they are left. */
  lemma KeepsSnoozed(x: Item)
    ensures Keeps(NO_FILTER.(snoozed := true))(x) <==> x.triage.isSnoozed
  {
  }

  lemma KeepsFollowUp(x: Item)
    ensures Keeps(NO_FILTER.(followUp := true))(x) <==> x.triage.reminderAt != None
  {
  }

  lemma KeepsCategory(x: Item, category: string)
    requires TrimSpace(category) != ""
    ensures Keeps(NO_FILTER.(categoryID := category))(x) <==> InCategory(x, category)
  {
    assert TrimSpace("") == "";
    hide TrimSpace;
  }

  /** One tag keeps exactly the messages that carry it. */
  lemma KeepsTag(x: Item, tag: string)
    ensures Keeps(NO_FILTER.(tagIDs := [tag]))(x) <==> Carries(x, tag)
  {
    hide TrimSpace;
    if Carries(x, tag) {
      var i :| 0 <= i < |x.triage.tags| && TrimSpace(x.triage.tags[i]) == TrimSpace(tag);
      assert x.triage.tags[i] in x.triage.tags && tag in [tag];
    }
  }

  /** Tags are alternatives: more of them keep what any of them keeps. */
  lemma KeepsEitherTag(x: Item, a: seq<string>, b: seq<string>)
    requires a != [] && b != []
    ensures Keeps(NO_FILTER.(tagIDs := a + b))(x) <==>
      Keeps(NO_FILTER.(tagIDs := a))(x) || Keeps(NO_FILTER.(tagIDs := b))(x)
  {
    hide TrimSpace;
    var t := x.triage;
    assert TagMatch(t, a + b) <==> TagMatch(t, a) || TagMatch(t, b) by {
      if u, v :| u in t.tags && v in a + b && TrimSpace(u) == TrimSpace(v) {
        assert v in a || v in b;
      }
      if u, v :| u in t.tags && v in a && TrimSpace(u) == TrimSpace(v) {
        assert v in a + b;
      }
      if u, v :| u in t.tags && v in b && TrimSpace(u) == TrimSpace(v) {
        assert v in a + b;
      }
    }
    hide TagMatch;
  }

  // ----- criteria together -----

  predicate HasCriterion(f: ViewFilter) {
    f.snoozed || f.followUp || f.categoryID != "" || f.tagIDs != []
  }

  /** A category that is given is not blank. */
  predicate Proper(f: ViewFilter) {
    f.categoryID != "" ==> TrimSpace(f.categoryID) != ""
  }

  /** Criteria add up: a filter keeps exactly what each of its criteria keeps alone. */
  lemma KeepsAll(x: Item, f: ViewFilter)
    requires Proper(f) && HasCriterion(f)
    ensures Keeps(f)(x) <==>
      && (f.snoozed ==> Keeps(NO_FILTER.(snoozed := true))(x))
      && (f.followUp ==> Keeps(NO_FILTER.(followUp := true))(x))
      && (f.categoryID != "" ==> Keeps(NO_FILTER.(categoryID := f.categoryID))(x))
      && (f.tagIDs != [] ==> Keeps(NO_FILTER.(tagIDs := f.tagIDs))(x))
  {
    assert TrimSpace("") == "";
    hide TrimSpace, TagMatch;
    assert TagMatch(x.triage, []) by { NoTags(x.triage); }
    if f.tagIDs == [] {
      NoTags(x.triage);
    }
  }

  lemma NoTags(t: TriageState)
    ensures TagMatch(t, [])
  {
  }

  /** A message that a filter asks for. */
  predicate AskedFor(x: Item, f: ViewFilter) {
    if !HasCriterion(f) then !x.triage.isSnoozed
    else
      && (f.snoozed ==> x.triage.isSnoozed)
      && (f.followUp ==> x.triage.reminderAt != None)
      && (f.categoryID != "" ==> InCategory(x, f.categoryID))
      && (f.tagIDs != [] ==> exists j :: 0 <= j < |f.tagIDs| && Carries(x, f.tagIDs[j]))
  }

  lemma {:induction false} KeepsTags(x: Item, tags: seq<string>)
    requires tags != []
    ensures Keeps(NO_FILTER.(tagIDs := tags))(x) <==> exists j :: 0 <= j < |tags| && Carries(x, tags[j])
  {
    hide Keeps, Carries;
    KeepsTag(x, tags[0]);
    if |tags| == 1 {
      assert tags == [tags[0]];
    } else {
      var rest := tags[1..];
      assert tags == [tags[0]] + rest;
      KeepsEitherTag(x, [tags[0]], rest);
      KeepsTags(x, rest);
      if j :| 0 <= j < |rest| && Carries(x, rest[j]) {
        assert tags[j + 1] == rest[j];
      }
      if j :| 0 <= j < |tags| && Carries(x, tags[j]) {
        assert j > 0 ==> rest[j - 1] == tags[j];
      }
    }
  }

  lemma NothingAsked(x: Item, f: ViewFilter)
    requires !HasCriterion(f)
    ensures Keeps(f)(x) == Keeps(NO_FILTER)(x)
  {
    hide TrimSpace;
  }

  /** A filter keeps exactly the messages it asks for. */
  lemma KeepsExactly(x: Item, f: ViewFilter)
    requires Proper(f)
    ensures Keeps(f)(x) <==> AskedFor(x, f)
  {
    KeepsUnsnoozed(x);
    KeepsSnoozed(x);
    KeepsFollowUp(x);
    hide Keeps, TrimSpace, InCategory, Carries;
    if !HasCriterion(f) {
      NothingAsked(x, f);
    } else {
      KeepsAll(x, f);
      if f.categoryID != "" {
        KeepsCategory(x, f.categoryID);
      }
      if f.tagIDs != [] {
        KeepsTags(x, f.tagIDs);
      }
    }
  }

  /** A category of blanks: no filter as far as hiding goes, and yet only messages with a blank category pass. */
  lemma BlankCategory(x: Item, blank: string)
    requires blank != "" && TrimSpace(blank) == ""
    ensures Keeps(NO_FILTER.(categoryID := blank))(x) <==> !x.triage.isSnoozed && InCategory(x, "")
  {
    assert TrimSpace("") == "";
    hide TrimSpace;
  }

  // ----- threads -----

  /** Two messages are of one thread when their thread ids say so, or for want of those their ids. */
  lemma ThreadKeys(a: Item, b: Item)
    ensures var s, t := TrimSpace(a.threadID), TrimSpace(b.threadID);
      && (s != "" && t != "" ==> (ThreadKey(a) == ThreadKey(b) <==> s == t))
      && (s == "" && t == "" ==> (ThreadKey(a) == ThreadKey(b) <==> TrimSpace(a.id) == TrimSpace(b.id)))
      && (s != "" && t == "" ==> (ThreadKey(a) == ThreadKey(b) <==> s == TrimSpace(b.id)))
      && (ThreadKey(a) == "" <==> s == "" && TrimSpace(a.id) == "")
  {
    hide TrimSpace;
  }

  /** The messages of a list that are asked for, and of each thread at least one. */
  ghost predicate Selects(view: seq<Item>, all: seq<Item>, f: ViewFilter, collapsed: bool) {
    && (forall x :: x in view ==> x in all && AskedFor(x, f))
    && (forall x :: x in all && AskedFor(x, f) ==>
          if collapsed then ThreadKey(x) == "" || exists y :: y in view && ThreadKey(y) == ThreadKey(x) else x in view)
  }

  lemma FilterSelects(all: seq<Item>, f: ViewFilter)
    requires Proper(f)
    ensures forall x :: x in Filter(all, Keeps(f)) <==> x in all && AskedFor(x, f)
  {
    FilterMembers(all, Keeps(f));
    forall x ensures Keeps(f)(x) <==> AskedFor(x, f) {
      KeepsExactly(x, f);
    }
    hide Keeps, AskedFor, Filter;
  }

  /** A collapsed list has every thread of the list. */
  lemma {:induction false} CollapseCovers(items: seq<Item>, seen: set<string>, x: Item)
    requires x in items && ThreadKey(x) != "" && ThreadKey(x) !in seen
    ensures exists y :: y in CollapseFrom(items, seen) && ThreadKey(y) == ThreadKey(x)
  {
    hide ThreadKey;
    var k, rest := ThreadKey(items[0]), items[1..];
    assert items == [items[0]] + rest;
    if k == ThreadKey(x) {
      assert items[0] in CollapseFrom(items, seen);
    } else {
      var more := if k == "" || k in seen then seen else seen + {k};
      CollapseCovers(rest, more, x);
      var y :| y in CollapseFrom(rest, more) && ThreadKey(y) == ThreadKey(x);
      assert y in CollapseFrom(items, seen);
    }
  }

  lemma CollapseSelects(kept: seq<Item>)
    ensures forall y :: y in Collapse(kept) ==> y in kept
    ensures forall x :: x in kept ==>
      ThreadKey(x) == "" || exists y :: y in Collapse(kept) && ThreadKey(y) == ThreadKey(x)
  {
    CollapseDistinct(kept, {});
    hide ThreadKey;
    forall x | x in kept && ThreadKey(x) != "" ensures exists y :: y in Collapse(kept) && ThreadKey(y) == ThreadKey(x) {
      CollapseCovers(kept, {}, x);
    }
  }

  lemma SortMembers(xs: seq<Item>, f: ViewFilter)
    ensures forall x :: x in StableSort(xs, Order(f)) <==> x in xs
  {
    OrderIsStrictWeak(f);
    StableSortCorrect(xs, Order(f));
    var sorted := StableSort(xs, Order(f));
    hide StableSort, Order, StrictWeakOrder;
    forall x ensures x in sorted <==> x in xs {
      assert x in sorted <==> x in multiset(sorted);
      assert x in xs <==> x in multiset(xs);
    }
  }

  lemma SortedSelects(all: seq<Item>, f: ViewFilter)
    requires Proper(f)
    ensures Selects(StableSort(Collapse(Filter(all, Keeps(f))), Order(f)), all, f, true)
  {
    hide Collapse, Filter, StableSort, Order, AskedFor, ThreadKey, Keeps;
    var kept := Filter(all, Keeps(f));
    FilterSelects(all, f);
    CollapseSelects(kept);
    SortMembers(Collapse(kept), f);
  }

  /** The indexed view: the messages asked for and no others; under a filter, of every thread one. */
  lemma ViewSelects(rows: seq<Item>, decorate: Item -> Item, f: ViewFilter, waiting: seq<Item> -> seq<Item>)
    requires Proper(f) && !f.waiting
    ensures Selects(View(rows, decorate, f, waiting), Map(rows, decorate), f, HasCriterion(f))
  {
    assert ExplicitActive(f) == HasCriterion(f) by { Explicit(f); }
    hide ExplicitActive, HasCriterion, Collapse, Filter, StableSort, Order, AskedFor, ThreadKey, Keeps;
    FilterSelects(Map(rows, decorate), f);
    SortedSelects(Map(rows, decorate), f);
  }

  lemma Explicit(f: ViewFilter)
    requires Proper(f)
    ensures ExplicitActive(f) == HasCriterion(f)
  {
    assert TrimSpace("") == "";
    hide TrimSpace;
  }

  /** The live list: the same over the messages in reach; the waiting filter alone leaves one of every thread too. */
  lemma LiveSelects(snap: L.Snapshot, present: Item -> Item, f: ViewFilter)
    requires Proper(f)
    ensures Selects(L.LiveView(snap, present, f), Map(L.InReach(snap), present), f, f.waiting || HasCriterion(f))
  {
    assert ExplicitActive(f) == HasCriterion(f) by { Explicit(f); }
    assert ConversationActive(f) <==> f.waiting || HasCriterion(f) by { hide ExplicitActive, HasCriterion; }
    hide ConversationActive, ExplicitActive, HasCriterion, Collapse, Filter, StableSort, Order, AskedFor, ThreadKey,
        Keeps, L.InReach;
    FilterSelects(Map(L.InReach(snap), present), f);
    SortedSelects(Map(L.InReach(snap), present), f);
  }

  // ----- order -----

  /** A present time that is not later, or a missing one on the right. */
  predicate NotAfter(a: Option<int>, b: Option<int>) {
    b.None? || (a.Some? && a.value <= b.value)
  }

  /** The date in the header, or the date of arrival for want of it. */
  predicate DatedAt(x: Item, t: int) {
    x.dateHeader == Some(t) || (x.dateHeader == None && x.internalDate == t)
  }

  /** The deadlines the filter sorts by do not tell the messages apart. */
  predicate SameDeadlines(a: Item, b: Item, f: ViewFilter) {
    && (f.snoozed ==> a.triage.snoozedUntil == b.triage.snoozedUntil)
    && (f.followUp ==> a.triage.isFollowUpDue == b.triage.isFollowUpDue && a.triage.reminderAt == b.triage.reminderAt)
  }

  /** What comes first: under the snoozed filter the earliest end of a snooze; then under the follow-up filter what is
      due, and the earliest reminder; then the newest; then the smallest id. */
  lemma OrderMeans(a: Item, b: Item, f: ViewFilter, s: int, t: int)
    requires !Before(f, b, a) && DatedAt(a, s) && DatedAt(b, t)
    ensures f.snoozed ==> NotAfter(a.triage.snoozedUntil, b.triage.snoozedUntil)
    ensures f.followUp && (f.snoozed ==> a.triage.snoozedUntil == b.triage.snoozedUntil) ==>
      && (b.triage.isFollowUpDue ==> a.triage.isFollowUpDue)
      && (a.triage.isFollowUpDue == b.triage.isFollowUpDue ==> NotAfter(a.triage.reminderAt, b.triage.reminderAt))
    ensures SameDeadlines(a, b, f) ==> s > t || (s == t && !StringLess(TrimSpace(b.id), TrimSpace(a.id)))
  {
    hide StringLess, TrimSpace;
  }

  /** Any two messages of a sorted view stand in that order. */
  lemma ViewOrdered(rows: seq<Item>, decorate: Item -> Item, f: ViewFilter, waiting: seq<Item> -> seq<Item>, i: nat,
      j: nat)
    requires ExplicitActive(f) && !f.waiting && i < j < |View(rows, decorate, f, waiting)|
    ensures var view := View(rows, decorate, f, waiting); !Before(f, view[j], view[i])
  {
    ViewUnderFilter(rows, decorate, f, waiting, 1);
    var view := View(rows, decorate, f, waiting);
    assert Sorted(view, Order(f));
    hide View, Before;
    assert !Order(f)(view[j], view[i]);
  }
}
