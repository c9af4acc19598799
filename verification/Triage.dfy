/** Triage views over message lists: internal/api/mail_triage.go. Times are integers. */
module Triage {
  import opened Text
  import opened Lists
  import opened Ordering

  datatype TriageState = TriageState(
    snoozedUntil: Option<int>, reminderAt: Option<int>, category: Option<string>, tags: seq<string>,
    isSnoozed: bool, isFollowUpDue: bool)

  /** A message of a list. `dateHeader` is absent when the header gave no date; live
      summaries always carry one. */
  datatype Item = Item(id: string, threadID: string, dateHeader: Option<int>, internalDate: int, triage: TriageState)

  datatype ViewFilter = ViewFilter(snoozed: bool, followUp: bool, categoryID: string, tagIDs: seq<string>,
      waiting: bool)

  predicate ExplicitActive(f: ViewFilter) {
    f.snoozed || f.followUp || TrimSpace(f.categoryID) != "" || f.tagIDs != []
  }

  predicate ConversationActive(f: ViewFilter) {
    f.waiting || ExplicitActive(f)
  }

  predicate TagMatch(t: TriageState, wanted: seq<string>) {
    wanted == [] || exists a, b :: a in t.tags && b in wanted && TrimSpace(a) == TrimSpace(b)
  }

  predicate MatchesFilter(t: TriageState, f: ViewFilter) {
    && (f.snoozed ==> t.isSnoozed)
    && (f.followUp ==> t.reminderAt.Some?)
    && (f.categoryID != "" ==> t.category.Some? && TrimSpace(t.category.value) == TrimSpace(f.categoryID))
    && TagMatch(t, f.tagIDs)
  }

  predicate HiddenAsSnoozed(t: TriageState, f: ViewFilter) {
    t.isSnoozed && !ExplicitActive(f)
  }

  /** The nested loops over a message's tags and the wanted ones. */
  method MatchTags(t: TriageState, wanted: seq<string>) returns (found: bool)
    ensures found == TagMatch(t, wanted)
  {
    hide TrimSpace;
    if |wanted| == 0 {
      return true;
    }
    for i := 0 to |t.tags|
      invariant forall a, b :: a in t.tags[..i] && b in wanted ==> TrimSpace(a) != TrimSpace(b)
    {
      for j := 0 to |wanted|
        invariant forall b :: b in wanted[..j] ==> TrimSpace(t.tags[i]) != TrimSpace(b)
      {
        if TrimSpace(t.tags[i]) == TrimSpace(wanted[j]) {
          assert t.tags[i] in t.tags && wanted[j] in wanted;
          return true;
        }
        assert wanted[..j + 1] == wanted[..j] + [wanted[j]];
      }
      assert wanted[..|wanted|] == wanted && t.tags[..i + 1] == t.tags[..i] + [t.tags[i]];
    }
    assert t.tags[..|t.tags|] == t.tags;
    return false;
  }

  method CheckFilter(t: TriageState, f: ViewFilter) returns (ok: bool)
    ensures ok == MatchesFilter(t, f)
  {
    if f.snoozed && !t.isSnoozed {
      return false;
    }
    if f.followUp && t.reminderAt.None? {
      return false;
    }
    if f.categoryID != "" {
      if t.category.None? || TrimSpace(t.category.value) != TrimSpace(f.categoryID) {
        return false;
      }
    }
    var tagged := MatchTags(t, f.tagIDs);
    return tagged;
  }

  function Keeps(f: ViewFilter): Item -> bool {
    (item: Item) => !HiddenAsSnoozed(item.triage, f) && MatchesFilter(item.triage, f)
  }

  // ----- the comparator -----

  /** A missing time sorts after every present one. */
  predicate TimeLess(a: Option<int>, b: Option<int>) {
    a.Some? && (b.None? || a.value < b.value)
  }

  function SortTime(item: Item): int {
    if item.dateHeader.Some? then item.dateHeader.value else item.internalDate
  }

  predicate Before(f: ViewFilter, a: Item, b: Item) {
    if f.snoozed && TimeLess(a.triage.snoozedUntil, b.triage.snoozedUntil) then true
    else if f.snoozed && TimeLess(b.triage.snoozedUntil, a.triage.snoozedUntil) then false
    else if f.followUp && a.triage.isFollowUpDue != b.triage.isFollowUpDue then a.triage.isFollowUpDue
    else if f.followUp && TimeLess(a.triage.reminderAt, b.triage.reminderAt) then true
    else if f.followUp && TimeLess(b.triage.reminderAt, a.triage.reminderAt) then false
    else if SortTime(a) != SortTime(b) then SortTime(a) > SortTime(b)
    else StringLess(TrimSpace(a.id), TrimSpace(b.id))
  }

  function Order(f: ViewFilter): (Item, Item) -> bool {
    (a: Item, b: Item) => Before(f, a, b)
  }

  lemma BeforeTransitive(f: ViewFilter, a: Item, b: Item, c: Item)
    ensures Before(f, a, b) && Before(f, b, c) ==> Before(f, a, c)
    ensures !Before(f, a, b) && !Before(f, b, c) ==> !Before(f, a, c)
  {
    var i, j, k := TrimSpace(a.id), TrimSpace(b.id), TrimSpace(c.id);
    StringLessTransitive(i, j, k);
    StringLessTotal(i, j);
    StringLessTotal(j, k);
    StringLessIrreflexive(i);
    StringLessTransitive(i, k, j);
    StringLessTransitive(j, i, k);
    hide TrimSpace, StringLess;
  }

  /** The comparator is a strict weak order whatever the filter. */
  lemma OrderIsStrictWeak(f: ViewFilter)
    ensures StrictWeakOrder(Order(f))
  {
    forall a ensures !Order(f)(a, a) {
      StringLessIrreflexive(TrimSpace(a.id));
    }
    forall a, b, c
      ensures Order(f)(a, b) && Order(f)(b, c) ==> Order(f)(a, c)
      ensures !Order(f)(a, b) && !Order(f)(b, c) ==> !Order(f)(a, c)
    {
      BeforeTransitive(f, a, b, c);
      hide Before;
    }
  }

  // ----- one message per thread -----

  function ThreadKey(item: Item): string {
    if TrimSpace(item.threadID) != "" then TrimSpace(item.threadID) else TrimSpace(item.id)
  }

  /** The first message of each thread not already in `seen`; messages with no key are dropped. */
  function CollapseFrom(items: seq<Item>, seen: set<string>): seq<Item> {
    if items == [] then []
    else
      var k := ThreadKey(items[0]);
      if k == "" || k in seen then CollapseFrom(items[1..], seen)
      else [items[0]] + CollapseFrom(items[1..], seen + {k})
  }

  function Collapse(items: seq<Item>): seq<Item> {
    CollapseFrom(items, {})
  }

  method CollapseByThread(items: seq<Item>) returns (out: seq<Item>)
    ensures out == Collapse(items)
  {
    hide ThreadKey;
    var seen: set<string> := {};
    out := [];
    for i := 0 to |items|
      invariant out + CollapseFrom(items[i..], seen) == Collapse(items)
    {
      assert items[i..][1..] == items[i + 1..];
      var k := ThreadKey(items[i]);
      if k == "" { continue; }
      if k in seen { continue; }
      seen := seen + {k};
      out := out + [items[i]];
    }
  }

  /** No thread appears twice in a collapsed list. */
  lemma {:induction false} CollapseDistinct(items: seq<Item>, seen: set<string>)
    ensures var out := CollapseFrom(items, seen);
      && Distinct(Map(out, ThreadKey))
      && (forall x :: x in out ==> x in items && ThreadKey(x) != "" && ThreadKey(x) !in seen)
  {
    hide ThreadKey;
    var out := CollapseFrom(items, seen);
    if items != [] {
      var rest := items[1..];
      var k := ThreadKey(items[0]);
      assert items == [items[0]] + rest;
      var seen' := if k == "" || k in seen then seen else seen + {k};
      var tail := CollapseFrom(rest, seen');
      CollapseDistinct(rest, seen');
      if k != "" && k !in seen {
        assert out == [items[0]] + tail;
        forall i, j | 0 <= i < j < |out| ensures ThreadKey(out[i]) != ThreadKey(out[j]) {
          assert out[j] == tail[j - 1] && tail[j - 1] in tail;
          if i > 0 {
            assert Map(tail, ThreadKey)[i - 1] != Map(tail, ThreadKey)[j - 1];
          }
        }
      }
    }
  }

  /** Position `i` holds the first message of a thread that is not already seen. */
  predicate FirstOfThread(items: seq<Item>, i: nat, seen: set<string>)
    requires i < |items|
  {
    && ThreadKey(items[i]) != "" && ThreadKey(items[i]) !in seen
    && forall j :: 0 <= j < i ==> ThreadKey(items[j]) != ThreadKey(items[i])
  }

  /** The first message of every thread survives collapsing. */
  lemma {:induction false} CollapseKeepsFirst(items: seq<Item>, i: nat, seen: set<string>)
    requires i < |items| && FirstOfThread(items, i, seen)
    ensures items[i] in CollapseFrom(items, seen)
  {
    hide ThreadKey;
    var rest := items[1..];
    var k := ThreadKey(items[0]);
    if i > 0 {
      assert rest[i - 1] == items[i] && k != ThreadKey(items[i]);
      assert forall j :: 0 <= j < i - 1 ==> rest[j] == items[j + 1];
      CollapseKeepsFirst(rest, i - 1, if k == "" || k in seen then seen else seen + {k});
    }
  }

  // ----- the indexed query -----

  /** The whole view: kept messages, one per thread and sorted when a triage filter is on. */
  function View(rows: seq<Item>, decorate: Item -> Item, f: ViewFilter, waiting: seq<Item> -> seq<Item>): seq<Item> {
    var kept := Filter(Map(rows, decorate), Keeps(f));
    var chosen := if f.waiting then waiting(kept) else kept;
    if ExplicitActive(f) then StableSort(Collapse(chosen), Order(f)) else chosen
  }

  function OffsetOf(page: int, pageSize: nat): nat {
    if page >= 1 then (page - 1) * pageSize else 0
  }

  method AcceptBatch(items: seq<Item>, f: ViewFilter, accepted: seq<Item>) returns (out: seq<Item>)
    ensures out == accepted + Filter(items, Keeps(f))
  {
    hide HiddenAsSnoozed, MatchesFilter;
    out := accepted;
    for i := 0 to |items|
      invariant out == accepted + Filter(items[..i], Keeps(f))
    {
      assert items[..i + 1] == items[..i] + [items[i]];
      FilterSnoc(items[..i], items[i], Keeps(f));
      if HiddenAsSnoozed(items[i].triage, f) {
        continue;
      }
      var matches := CheckFilter(items[i].triage, f);
      if !matches {
        continue;
      }
      out := out + [items[i]];
    }
    assert items[..|items|] == items;
  }

  method ComputeOffset(page: int, pageSize: nat) returns (offset: nat)
    ensures offset == OffsetOf(page, pageSize)
  {
    var raw := (page - 1) * pageSize;
    if raw < 0 {
      raw := 0;
    }
    if page < 1 {
      assert (page - 1) * pageSize <= 0;
    }
    return raw;
  }

  /** The loop of the query: batch after batch until one comes back short. */
  method GatherAccepted(rows: seq<Item>, decorate: Item -> Item, f: ViewFilter, batchLimit: nat)
    returns (accepted: seq<Item>)
    requires batchLimit > 0
    ensures accepted == Filter(Map(rows, decorate), Keeps(f))
  {
    hide Keeps;
    var rawOffset := 0;
    accepted := [];
    while true
      invariant 0 <= rawOffset <= |rows|
      invariant accepted == Filter(Map(rows[..rawOffset], decorate), Keeps(f))
      decreases |rows| - rawOffset
    {
      var batch := Slice(rows, rawOffset, batchLimit);
      if |batch| == 0 {
        break;
      }
      assert rows[..rawOffset + |batch|] == rows[..rawOffset] + batch;
      MapAppend(rows[..rawOffset], batch, decorate);
      FilterAppend(Map(rows[..rawOffset], decorate), Map(batch, decorate), Keeps(f));
      accepted := AcceptBatch(Map(batch, decorate), f, accepted);
      rawOffset := rawOffset + |batch|;
      if |batch| < batchLimit {
        break;
      }
    }
    assert rows[..rawOffset] == rows;
  }

  method CutPage(accepted: seq<Item>, offset: nat, pageSize: nat) returns (items: seq<Item>)
    ensures items == Slice(accepted, offset, pageSize)
  {
    if offset >= |accepted| {
      return [];
    }
    var end := offset + pageSize;
    if end > |accepted| {
      end := |accepted|;
    }
    return accepted[offset..end];
  }

  /** The batched query over a fixed table: it terminates, and its page and total are those of
      the whole view. `decorate` attaches the stored triage state, and `waiting` stands for the
      waiting filter applied to the accepted messages. */
  method QueryIndexed(accounts: nat, rows: seq<Item>, decorate: Item -> Item, f: ViewFilter,
      waiting: seq<Item> -> seq<Item>, page: int, pageSize: nat) returns (items: seq<Item>, total: nat)
    requires pageSize >= 1
    ensures accounts == 0 ==> items == [] && total == 0
    ensures accounts > 0 ==> total == |View(rows, decorate, f, waiting)|
    ensures accounts > 0 ==> items == Slice(View(rows, decorate, f, waiting), OffsetOf(page, pageSize), pageSize)
  {
    if accounts == 0 {
      return [], 0;
    }
    hide ExplicitActive, Order, Keeps, Collapse, StableSort, OffsetOf, Slice;
    var offset := ComputeOffset(page, pageSize);
    var batchLimit := pageSize * 3;
    if batchLimit < 120 {
      batchLimit := 120;
    }
    var accepted := GatherAccepted(rows, decorate, f, batchLimit);
    if f.waiting {
      accepted := waiting(accepted);
    }
    if ExplicitActive(f) {
      accepted := CollapseByThread(accepted);
      accepted := StableSort(accepted, Order(f));
    }
    total := |accepted|;
    items := CutPage(accepted, offset, pageSize);
  }

  lemma MapMultiset(xs: seq<Item>, ys: seq<Item>)
    requires multiset(xs) == multiset(ys) && Distinct(Map(xs, ThreadKey))
    ensures Distinct(Map(ys, ThreadKey))
  {
    hide ThreadKey;
    forall i, j | 0 <= i < j < |ys| ensures ThreadKey(ys[i]) != ThreadKey(ys[j]) {
      if ThreadKey(ys[i]) == ThreadKey(ys[j]) {
        TwoOccur(xs, ys, i, j);
      }
    }
  }

  lemma TwoOccur(xs: seq<Item>, ys: seq<Item>, i: nat, j: nat)
    requires multiset(xs) == multiset(ys) && i < j < |ys| && Distinct(Map(xs, ThreadKey))
    ensures ThreadKey(ys[i]) != ThreadKey(ys[j])
  {
    hide ThreadKey;
    assert ys[i] in multiset(ys) && ys[j] in multiset(ys);
    assert ys[i] in xs && ys[j] in xs;
    var a :| 0 <= a < |xs| && xs[a] == ys[i];
    var b :| 0 <= b < |xs| && xs[b] == ys[j];
    if ys[i] == ys[j] {
      DuplicateCount(ys, i, j);
      DistinctCount(xs, ys[i]);
    } else {
      assert Map(xs, ThreadKey)[a] == ThreadKey(xs[a]) && Map(xs, ThreadKey)[b] == ThreadKey(xs[b]);
    }
  }

  lemma DuplicateCount(ys: seq<Item>, i: nat, j: nat)
    requires i < j < |ys| && ys[i] == ys[j]
    ensures multiset(ys)[ys[i]] >= 2
  {
    assert ys == ys[..j] + ys[j..];
    assert ys[i] in ys[..j] && ys[j] in ys[j..];
    assert multiset(ys) == multiset(ys[..j]) + multiset(ys[j..]);
  }

  lemma {:induction false} DistinctCount(xs: seq<Item>, x: Item)
    requires Distinct(Map(xs, ThreadKey))
    ensures multiset(xs)[x] <= 1
  {
    if xs != [] {
      DistinctHead(xs);
      hide *;
      assert xs == [xs[0]] + xs[1..];
      DistinctCount(xs[1..], x);
    }
  }

  lemma DistinctHead(xs: seq<Item>)
    requires xs != [] && Distinct(Map(xs, ThreadKey))
    ensures Distinct(Map(xs[1..], ThreadKey)) && xs[0] !in xs[1..]
  {
    hide ThreadKey;
    var keys, rest := Map(xs, ThreadKey), Map(xs[1..], ThreadKey);
    assert forall i :: 0 <= i < |rest| ==> rest[i] == keys[i + 1];
    forall i | 0 <= i < |xs[1..]| ensures xs[1..][i] != xs[0] {
      assert keys[0] != keys[i + 1];
    }
  }

  /** In a sorted view, messages without the deadline that the filter sorts by come last; under the
      follow-up filter alone, within those that are due and within those that are not. */
  lemma DeadlinesLast(view: seq<Item>, f: ViewFilter, i: nat, j: nat)
    requires Sorted(view, Order(f)) && i < j < |view|
    ensures f.snoozed && view[i].triage.snoozedUntil.None? ==> view[j].triage.snoozedUntil.None?
    ensures f.followUp && !f.snoozed && view[i].triage.isFollowUpDue == view[j].triage.isFollowUpDue ==>
              view[i].triage.reminderAt.None? ==> view[j].triage.reminderAt.None?
    ensures f.followUp && !f.snoozed && view[j].triage.isFollowUpDue ==> view[i].triage.isFollowUpDue
  {
    hide TrimSpace, StringLess;
    assert !Order(f)(view[j], view[i]);
  }

  lemma AllPages<T>(view: seq<T>, pageSize: nat)
    requires pageSize >= 1
    ensures Flatten(Pages(view, pageSize, |view|)) == view
  {
    PagesTile(view, pageSize, |view|);
    assert pageSize * |view| >= |view|;
    assert view[..|view|] == view;
  }

  /** Under a triage filter, the view lists every thread once, in sorted order with tied messages
      in their original order, and the pages laid end to end are the whole view. */
  lemma ViewUnderFilter(rows: seq<Item>, decorate: Item -> Item, f: ViewFilter, waiting: seq<Item> -> seq<Item>,
      pageSize: nat)
    requires ExplicitActive(f) && !f.waiting && pageSize >= 1
    ensures var view := View(rows, decorate, f, waiting);
      var chosen := Collapse(Filter(Map(rows, decorate), Keeps(f)));
      && multiset(view) == multiset(chosen)
      && Distinct(Map(view, ThreadKey))
      && Sorted(view, Order(f))
      && (forall x :: Ties(view, x, Order(f)) == Ties(chosen, x, Order(f)))
      && Flatten(Pages(view, pageSize, |view|)) == view
  {
    hide ThreadKey, Keeps, CollapseFrom, StrictWeakOrder, StableSort, Sorted, Ties, Flatten, Pages, Order, Filter,
        ExplicitActive;
    var view := View(rows, decorate, f, waiting);
    var chosen := Collapse(Filter(Map(rows, decorate), Keeps(f)));
    OrderIsStrictWeak(f);
    StableSortCorrect(chosen, Order(f));
    CollapseDistinct(Filter(Map(rows, decorate), Keeps(f)), {});
    MapMultiset(chosen, view);
    AllPages(view, pageSize);
  }
}
