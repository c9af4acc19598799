/** The bounded scan behind the thread view: internal/api/router.go, ListThreadMessages.
    A mailbox is a fixed list of messages served in pages; `matches` says whether a message
    belongs to the requested thread, and `listable` whether the server answers for a page. */
module ThreadScan {
  import opened Lists
  import opened ThreadReach

  datatype Fetch = Fetch(mailbox: nat, page: nat)

  /** The answer that a scan without limits would give. */
  function Requested<T>(mailboxes: seq<seq<T>>, matches: T -> bool, offset: nat, pageSize: nat): seq<T> {
    Slice(Filter(Flatten(mailboxes), matches), offset, pageSize)
  }

  /** How far the scan is: `seen` messages passed, of which `matched` belong to the thread. */
  ghost predicate Progress<T(!new)>(seen: seq<T>, matches: T -> bool, offset: nat, pageSize: nat, out: seq<T>,
      matched: nat, done: bool) {
    var found := Filter(seen, matches);
    && out == Slice(found, offset, pageSize)
    && (done ==> |out| == pageSize && |found| > offset + pageSize)
    && (!done ==> matched == |found| <= offset + pageSize)
  }

  /** One page of the inner loop, stopping at the first match beyond a full page. */
  method ScanPage<T(!new)>(items: seq<T>, matches: T -> bool, offset: nat, pageSize: nat, out0: seq<T>, matched0: nat,
      ghost seen: seq<T>)
    returns (out: seq<T>, matched: nat, done: bool)
    requires Progress(seen, matches, offset, pageSize, out0, matched0, false)
    ensures exists passed ::
      && 0 <= passed <= |items|
      && (!done ==> passed == |items|)
      && Progress(seen + items[..passed], matches, offset, pageSize, out, matched, done)
  {
    out, matched, done := out0, matched0, false;
    assert seen + items[..0] == seen;
    for i := 0 to |items|
      invariant !done
      invariant Progress(seen + items[..i], matches, offset, pageSize, out, matched, false)
    {
      assert items[..i + 1] == items[..i] + [items[i]];
      assert seen + items[..i + 1] == (seen + items[..i]) + [items[i]];
      FilterSnoc(seen + items[..i], items[i], matches);
      ghost var found := Filter(seen + items[..i], matches);
      SliceSnoc(found, items[i], offset, pageSize);
      hide Slice, Filter;
      if !matches(items[i]) {
        assert found + [] == found;
        continue;
      }
      if matched < offset {
        matched := matched + 1;
        continue;
      }
      if |out| < pageSize {
        out := out + [items[i]];
        matched := matched + 1;
        continue;
      }
      done := true;
      assert Progress(seen + items[..i + 1], matches, offset, pageSize, out, matched, done);
      return;
    }
  }

  /** A list that grows by one, and its page. */
  lemma SliceSnoc<T>(found: seq<T>, x: T, offset: nat, n: nat)
    ensures |Slice(found, offset, n)| <= n
    ensures |found| < offset ==> Slice(found + [x], offset, n) == Slice(found, offset, n)
    ensures |found| >= offset && |Slice(found, offset, n)| < n ==>
      Slice(found + [x], offset, n) == Slice(found, offset, n) + [x] && |found| < offset + n
    ensures |found| >= offset && |Slice(found, offset, n)| == n ==>
      Slice(found + [x], offset, n) == Slice(found, offset, n) && |found| >= offset + n
  {
  }

  lemma DoneIsFinal<T(!new)>(seen: seq<T>, rest: seq<T>, matches: T -> bool, offset: nat, pageSize: nat, out: seq<T>,
      matched: nat)
    requires Progress(seen, matches, offset, pageSize, out, matched, true)
    ensures out == Slice(Filter(seen + rest, matches), offset, pageSize)
  {
    FilterAppend(seen, rest, matches);
    SliceStable(Filter(seen, matches), Filter(rest, matches), offset, pageSize);
  }

  /** A page that is full stays so over all the scan can reach, which then gives nothing up. */
  lemma EndFull<T(!new)>(mailboxes: seq<seq<T>>, matches: T -> bool, offset: nat, pageSize: nat, i: nat, seen: seq<T>,
      out: seq<T>, matched: nat)
    requires i < |mailboxes| && seen <= Reach(mailboxes, i + 1)
    requires Progress(seen, matches, offset, pageSize, out, matched, true)
    ensures out == Shown(mailboxes, matches, offset, pageSize)
    ensures GivesUpBefore(mailboxes, matches, offset + pageSize, |mailboxes|) <==>
      GivesUpBefore(mailboxes, matches, offset + pageSize, i)
  {
    assert |Filter(seen, matches)| > offset + pageSize by { hide Filter, Slice; }
    var all := Reach(mailboxes, |mailboxes|);
    hide *;
    ReachGrows(mailboxes, i + 1, |mailboxes|);
    assert seen <= all;
    assert all == seen + all[|seen|..];
    DoneIsFinal(seen, all[|seen|..], matches, offset, pageSize, out, matched);
    ShownSoFar(mailboxes, matches, offset, pageSize);
    NothingGivenUp(mailboxes, matches, offset + pageSize, i, seen);
  }

  lemma NothingGivenUp<T>(mailboxes: seq<seq<T>>, matches: T -> bool, limit: nat, i: nat, seen: seq<T>)
    requires i < |mailboxes| && seen <= Reach(mailboxes, i + 1) && |Filter(seen, matches)| > limit
    ensures GivesUpBefore(mailboxes, matches, limit, |mailboxes|) <==> GivesUpBefore(mailboxes, matches, limit, i)
  {
    forall j | i <= j < |mailboxes| ensures !GivesUp(mailboxes, matches, limit, j) {
      hide Reach, Filter;
      ReachGrows(mailboxes, i + 1, j + 1);
      PrefixFinds(seen, Reach(mailboxes, j + 1), matches);
    }
    hide GivesUp;
  }

  lemma PrefixFinds<T>(seen: seq<T>, all: seq<T>, matches: T -> bool)
    requires seen <= all
    ensures |Filter(seen, matches)| <= |Filter(all, matches)|
  {
    assert all == seen + all[|seen|..];
    FilterAppend(seen, all[|seen|..], matches);
    hide Filter;
  }

  /** What the limits let the scan show. */
  function Shown<T>(mailboxes: seq<seq<T>>, matches: T -> bool, offset: nat, pageSize: nat): seq<T> {
    Slice(Filter(Reach(mailboxes, |mailboxes|), matches), offset, pageSize)
  }

  lemma EndOfPages<T(!new)>(mailboxes: seq<seq<T>>, matches: T -> bool, offset: nat, pageSize: nat, i: nat, page: nat,
      seen: seq<T>, out: seq<T>, matched: nat)
    requires i < |mailboxes| && 1 <= page <= MAX_PAGES_PER_MAILBOX && ScanAt(mailboxes, i, page, seen)
    requires PagesBefore(mailboxes, i) + page - 1 >= MAX_SCAN_PAGES
    requires Progress(seen, matches, offset, pageSize, out, matched, false)
    ensures out == Shown(mailboxes, matches, offset, pageSize)
    ensures GivesUpBefore(mailboxes, matches, offset + pageSize, |mailboxes|)
  {
    PagesOut(mailboxes, i, page, seen);
    FoundSoFar(seen, matches, offset, pageSize, out, matched);
    ReachStops(mailboxes, i + 1, |mailboxes|);
    assert GivesUp(mailboxes, matches, offset + pageSize, i) by { hide Reach, Filter, Slice, FirstPages, PagesBefore; }
    hide GivesUp, Reach, PagesBefore, Filter, Slice, Progress, ScanAt;
  }

  lemma PagesOut<T>(mailboxes: seq<seq<T>>, i: nat, page: nat, seen: seq<T>)
    requires i < |mailboxes| && 1 <= page <= MAX_PAGES_PER_MAILBOX && ScanAt(mailboxes, i, page, seen)
    requires PagesBefore(mailboxes, i) + page - 1 >= MAX_SCAN_PAGES
    ensures seen == Reach(mailboxes, i + 1)
    ensures PagesBefore(mailboxes, i) <= MAX_SCAN_PAGES < PagesBefore(mailboxes, i + 1)
  {
    CostOf(mailboxes[i], page);
    hide Cost, FirstPages;
    assert Afforded(mailboxes, i) == page - 1;
  }

  /** The scan is about to ask for a page: the pages so far, and what they held. */
  ghost predicate ScanAt<T>(mailboxes: seq<seq<T>>, i: nat, page: nat, seen: seq<T>)
    requires i < |mailboxes|
  {
    && page >= 1 && PagesBefore(mailboxes, i) <= MAX_SCAN_PAGES
    && PagesBefore(mailboxes, i) + page - 1 <= MAX_SCAN_PAGES
    && seen == Reach(mailboxes, i) + FirstPages(mailboxes[i], page - 1)
    && (page > 1 ==> |mailboxes[i]| > (page - 2) * SCAN_PAGE_SIZE)
  }

  lemma ScanBegins<T>(mailboxes: seq<seq<T>>, i: nat)
    requires i < |mailboxes| && PagesBefore(mailboxes, i) <= MAX_SCAN_PAGES
    ensures ScanAt(mailboxes, i, 1, Reach(mailboxes, i))
  {
  }

  lemma ScanNext<T>(mailboxes: seq<seq<T>>, i: nat, page: nat, seen: seq<T>)
    requires i < |mailboxes| && page <= MAX_PAGES_PER_MAILBOX && ScanAt(mailboxes, i, page, seen)
    requires PagesBefore(mailboxes, i) + page <= MAX_SCAN_PAGES
    ensures var items := PageOf(mailboxes[i], page);
      && (items != [] ==> ScanAt(mailboxes, i, page + 1, seen + items))
      && forall passed :: 0 <= passed <= |items| ==> seen + items[..passed] <= Reach(mailboxes, i + 1)
  {
    var mailbox := mailboxes[i];
    var before, items := Reach(mailboxes, i), PageOf(mailbox, page);
    assert Reach(mailboxes, i + 1) == before + FirstPages(mailbox, Afforded(mailboxes, i));
    assert page <= Afforded(mailboxes, i);
    hide FirstPages, PageOf, Reach, PagesBefore, Afforded;
    NextPage(mailbox, page);
    Grouped(before, FirstPages(mailbox, page - 1), items);
    forall passed | 0 <= passed <= |items| ensures seen + items[..passed] <= Reach(mailboxes, i + 1) {
      PartOfPage(before, mailbox, page, Afforded(mailboxes, i), passed);
    }
  }

  lemma PartOfPage<T>(before: seq<T>, mailbox: seq<T>, page: nat, k: nat, passed: nat)
    requires 1 <= page <= k && passed <= |PageOf(mailbox, page)|
    ensures before + FirstPages(mailbox, page - 1) + PageOf(mailbox, page)[..passed] <= before + FirstPages(mailbox, k)
  {
    NextPage(mailbox, page);
    PagesGrow(mailbox, page, k);
    var items := PageOf(mailbox, page);
    hide FirstPages, PageOf;
    assert FirstPages(mailbox, page - 1) + items[..passed] <= FirstPages(mailbox, page);
    Grouped(before, FirstPages(mailbox, page - 1), items[..passed]);
  }

  lemma Grouped<T>(a: seq<T>, b: seq<T>, c: seq<T>)
    ensures (a + b) + c == a + (b + c)
  {
  }

  /** A mailbox left because a page was empty, or because it has too many. */
  lemma ScanLeaves<T>(mailboxes: seq<seq<T>>, matches: T -> bool, limit: nat, i: nat, page: nat, seen: seq<T>,
      exhausted: bool)
    requires i < |mailboxes| && ScanAt(mailboxes, i, page, seen) && |Filter(seen, matches)| <= limit
    requires if exhausted then page <= MAX_PAGES_PER_MAILBOX && PageOf(mailboxes[i], page) == []
        && PagesBefore(mailboxes, i) + page <= MAX_SCAN_PAGES
      else page == MAX_PAGES_PER_MAILBOX + 1
    ensures seen == Reach(mailboxes, i + 1)
    ensures PagesBefore(mailboxes, i + 1) == PagesBefore(mailboxes, i) + if exhausted then page else page - 1
    ensures GivesUp(mailboxes, matches, limit, i) <==> !exhausted
  {
    var mailbox := mailboxes[i];
    hide Filter;
    if exhausted {
      NextPage(mailbox, page);
      CostOf(mailbox, page);
      PagesGrow(mailbox, page - 1, Afforded(mailboxes, i));
      hide FirstPages, Cost, PageOf;
    } else {
      CostOfLong(mailbox);
      hide FirstPages, Cost, PageOf;
    }
  }

  /** The messages in reach are messages of the mailboxes. */
  lemma {:induction false} ReachWithin<T>(mailboxes: seq<seq<T>>, n: nat)
    requires n <= |mailboxes|
    ensures forall x :: x in Reach(mailboxes, n) ==> exists j :: 0 <= j < n && x in mailboxes[j]
  {
    if n > 0 {
      ReachWithin(mailboxes, n - 1);
      hide Afforded;
    }
  }

  lemma ShownIsFound<T(!new)>(mailboxes: seq<seq<T>>, matches: T -> bool, offset: nat, pageSize: nat)
    ensures var out := Shown(mailboxes, matches, offset, pageSize);
      |out| <= pageSize && forall x :: x in out ==>
        matches(x) && exists j :: 0 <= j < |mailboxes| && x in mailboxes[j]
  {
    var all := Reach(mailboxes, |mailboxes|);
    FilterMembers(all, matches);
    ReachWithin(mailboxes, |mailboxes|);
    hide Reach, Filter;
    forall x | x in Shown(mailboxes, matches, offset, pageSize) ensures x in all && matches(x) {
      assert x in Filter(all, matches);
    }
  }

  /** The log of page requests: within the limits, and no page asked for twice. */
  predicate Bounded(fetched: seq<Fetch>, mailbox: nat, page: nat) {
    && |fetched| <= MAX_SCAN_PAGES
    && Distinct(fetched)
    && forall i :: 0 <= i < |fetched| ==>
         && 1 <= fetched[i].page <= MAX_PAGES_PER_MAILBOX
         && (fetched[i].mailbox < mailbox || (fetched[i].mailbox == mailbox && fetched[i].page < page))
  }

  lemma BoundedSnoc(fetched: seq<Fetch>, mailbox: nat, page: nat)
    requires Bounded(fetched, mailbox, page) && |fetched| < MAX_SCAN_PAGES && 1 <= page <= MAX_PAGES_PER_MAILBOX
    ensures Bounded(fetched + [Fetch(mailbox, page)], mailbox, page + 1)
  {
  }

  lemma NextMailbox(fetched: seq<Fetch>, mailbox: nat, page: nat)
    ensures Bounded(fetched, mailbox, page) ==> Bounded(fetched, mailbox + 1, 1)
    ensures Bounded(fetched, mailbox, page) ==>
      |fetched| <= MAX_SCAN_PAGES && Distinct(fetched) && forall f :: f in fetched ==>
        (f.mailbox < mailbox || (f.mailbox == mailbox && f.page < page)) && 1 <= f.page <= MAX_PAGES_PER_MAILBOX
  {
  }

  lemma Beginning<T(!new)>(mailboxes: seq<seq<T>>, matches: T -> bool, offset: nat, pageSize: nat)
    ensures Progress([], matches, offset, pageSize, [], 0, false)
    ensures Bounded([], 0, 1) && Reach(mailboxes, 0) == [] && PagesBefore(mailboxes, 0) == 0
    ensures !GivesUpBefore(mailboxes, matches, offset + pageSize, 0)
  {
  }

  lemma PrefixFull<T(!new)>(common: seq<T>, all: seq<T>, matches: T -> bool, offset: nat, pageSize: nat)
    requires common <= all && |Filter(common, matches)| > offset + pageSize
    ensures Slice(Filter(all, matches), offset, pageSize) == Slice(Filter(common, matches), offset, pageSize)
  {
    assert all == common + all[|common|..];
    FilterAppend(common, all[|common|..], matches);
    SliceStable(Filter(common, matches), Filter(all[|common|..], matches), offset, pageSize);
  }

  /** Where the scan gives nothing up, it shows what a scan without limits would. */
  lemma ShownIsRequested<T(!new)>(mailboxes: seq<seq<T>>, matches: T -> bool, offset: nat, pageSize: nat)
    requires !GivesUpBefore(mailboxes, matches, offset + pageSize, |mailboxes|)
    ensures Shown(mailboxes, matches, offset, pageSize) == Requested(mailboxes, matches, offset, pageSize)
  {
    var common := ReachSuffices(mailboxes, matches, offset + pageSize, |mailboxes|);
    assert mailboxes[..|mailboxes|] == mailboxes;
    hide GivesUpBefore, Reach, Flatten, Filter, Slice;
    if |Filter(common, matches)| > offset + pageSize {
      PrefixFull(common, Reach(mailboxes, |mailboxes|), matches, offset, pageSize);
      PrefixFull(common, Flatten(mailboxes), matches, offset, pageSize);
    }
  }

  predicate InReach<T>(mailboxes: seq<seq<T>>) {
    && PagesBefore(mailboxes, |mailboxes|) <= MAX_SCAN_PAGES
    && forall i :: 0 <= i < |mailboxes| ==> |mailboxes[i]| <= MAX_PAGES_PER_MAILBOX * SCAN_PAGE_SIZE
  }

  /** A mailbox of ten pages that is passed before the page is full. */
  predicate PassesTenPages<T>(mailboxes: seq<seq<T>>, matches: T -> bool, offset: nat, pageSize: nat, i: nat)
    requires i < |mailboxes|
  {
    && |mailboxes[i]| > (MAX_PAGES_PER_MAILBOX - 1) * SCAN_PAGE_SIZE
    && |Filter(Flatten(mailboxes[..i + 1]), matches)| <= offset + pageSize
  }

  /** Where all messages are in reach, what is shown is what was asked for; but a mailbox of 451 to 500 messages that
      is passed makes the scan report truncation all the same. */
  lemma SpuriousTruncation<T(!new)>(mailboxes: seq<seq<T>>, matches: T -> bool, offset: nat, pageSize: nat)
    requires InReach(mailboxes)
    ensures Shown(mailboxes, matches, offset, pageSize) == Requested(mailboxes, matches, offset, pageSize)
    ensures GivesUpBefore(mailboxes, matches, offset + pageSize, |mailboxes|) <==>
      exists i :: 0 <= i < |mailboxes| && PassesTenPages(mailboxes, matches, offset, pageSize, i)
  {
    var limit := offset + pageSize;
    ReachIsAll(mailboxes, |mailboxes|);
    assert mailboxes[..|mailboxes|] == mailboxes;
    forall i | 0 <= i < |mailboxes| ensures GivesUp(mailboxes, matches, limit, i) <==>
        PassesTenPages(mailboxes, matches, offset, pageSize, i) {
      PagesBeforeGrow(mailboxes, i, |mailboxes|);
      PagesBeforeGrow(mailboxes, i + 1, |mailboxes|);
      ReachIsAll(mailboxes, i + 1);
      hide Filter, Flatten, Reach, PagesBefore;
    }
    hide GivesUp, PassesTenPages, Filter, Flatten, Reach, PagesBefore;
  }

  /** The scan. It asks for at most 20 pages, at most 10 of any mailbox, and none twice, and fails only when the
      server refuses a page. It shows the requested page of what its limits let it see, and reports truncation
      exactly when it leaves a mailbox, its page not full, without having met an empty page of it. Without that
      report its items are the requested page of all messages of the thread, over all mailboxes. */
  method ScanThread<T(!new)>(mailboxes: seq<seq<T>>, matches: T -> bool, listable: Fetch -> bool, offset: nat,
      pageSize: nat)
    returns (ok: bool, out: seq<T>, truncated: bool, fetched: seq<Fetch>)
    ensures |fetched| <= MAX_SCAN_PAGES && Distinct(fetched)
    ensures forall f :: f in fetched ==> f.mailbox < |mailboxes| && 1 <= f.page <= MAX_PAGES_PER_MAILBOX
    ensures !ok <==> exists f :: f in fetched && !listable(f)
    ensures ok ==> out == Shown(mailboxes, matches, offset, pageSize)
    ensures ok ==> (truncated <==> GivesUpBefore(mailboxes, matches, offset + pageSize, |mailboxes|))
    ensures ok && !truncated ==> out == Requested(mailboxes, matches, offset, pageSize)
    ensures ok ==> |out| <= pageSize && forall x :: x in out ==>
      matches(x) && exists i :: 0 <= i < |mailboxes| && x in mailboxes[i]
  {
    ok, out, truncated, fetched := ScanMailboxes(mailboxes, matches, listable, offset, pageSize);
    ShownIsFound(mailboxes, matches, offset, pageSize);
    if ok && !truncated {
      hide Shown, Requested, GivesUpBefore;
      ShownIsRequested(mailboxes, matches, offset, pageSize);
    }
  }

  method ScanMailboxes<T(!new)>(mailboxes: seq<seq<T>>, matches: T -> bool, listable: Fetch -> bool, offset: nat,
      pageSize: nat)
    returns (ok: bool, out: seq<T>, truncated: bool, fetched: seq<Fetch>)
    ensures |fetched| <= MAX_SCAN_PAGES && Distinct(fetched)
    ensures forall f :: f in fetched ==> f.mailbox < |mailboxes| && 1 <= f.page <= MAX_PAGES_PER_MAILBOX
    ensures !ok <==> exists f :: f in fetched && !listable(f)
    ensures ok ==> out == Shown(mailboxes, matches, offset, pageSize)
    ensures ok ==> (truncated <==> GivesUpBefore(mailboxes, matches, offset + pageSize, |mailboxes|))
  {
    ok, out, truncated, fetched := true, [], false, [];
    Beginning(mailboxes, matches, offset, pageSize);
    hide Progress, Bounded, Reach, PagesBefore, GivesUpBefore, GivesUp, ScanAt, Shown, PageOf;
    var matched, done, pagesScanned := 0, false, 0;
    ghost var limit := offset + pageSize;
    ghost var seen: seq<T> := [];
    for i := 0 to |mailboxes|
      invariant ok && !done && pagesScanned == |fetched| == PagesBefore(mailboxes, i) <= MAX_SCAN_PAGES
      invariant Bounded(fetched, i, 1)
      invariant forall f :: f in fetched ==> listable(f)
      invariant Progress(seen, matches, offset, pageSize, out, matched, false)
      invariant seen == Reach(mailboxes, i)
      invariant truncated <==> GivesUpBefore(mailboxes, matches, limit, i)
    {
      var mailboxExhausted := false;
      ScanBegins(mailboxes, i);
      var scanPage := 1;
      while scanPage <= MAX_PAGES_PER_MAILBOX
        invariant 1 <= scanPage <= MAX_PAGES_PER_MAILBOX + 1
        invariant ok && !done && !mailboxExhausted
        invariant pagesScanned == |fetched| == PagesBefore(mailboxes, i) + scanPage - 1 <= MAX_SCAN_PAGES
        invariant Bounded(fetched, i, scanPage)
        invariant forall f :: f in fetched ==> listable(f)
        invariant Progress(seen, matches, offset, pageSize, out, matched, false)
        invariant ScanAt(mailboxes, i, scanPage, seen)
      {
        if pagesScanned >= MAX_SCAN_PAGES {
          truncated := true;
          NextMailbox(fetched, i, scanPage);
          EndOfPages(mailboxes, matches, offset, pageSize, i, scanPage, seen, out, matched);
          return;
        }
        pagesScanned := pagesScanned + 1;
        BoundedSnoc(fetched, i, scanPage);
        fetched := fetched + [Fetch(i, scanPage)];
        NextMailbox(fetched, i, scanPage + 1);
        if !listable(Fetch(i, scanPage)) {
          ok := false;
          return;
        }
        var items := PageOf(mailboxes[i], scanPage);
        ScanNext(mailboxes, i, scanPage, seen);
        if |items| == 0 {
          mailboxExhausted := true;
          break;
        }
        out, matched, done := ScanPage(items, matches, offset, pageSize, out, matched, seen);
        ghost var passed :| 0 <= passed <= |items| && (!done ==> passed == |items|)
          && Progress(seen + items[..passed], matches, offset, pageSize, out, matched, done);
        if done {
          seen := seen + items[..passed];
          break;
        }
        assert items[..passed] == items;
        seen := seen + items;
        scanPage := scanPage + 1;
      }
      NextMailbox(fetched, i, scanPage);
      NextMailbox(fetched, i, scanPage + 1);
      if done {
        EndFull(mailboxes, matches, offset, pageSize, i, seen, out, matched);
        return;
      }
      FoundSoFar(seen, matches, offset, pageSize, out, matched);
      ScanLeaves(mailboxes, matches, limit, i, scanPage, seen, mailboxExhausted);
      GivesUpSnoc(mailboxes, matches, limit, i);
      if !mailboxExhausted {
        truncated := true;
      }
    }
    NextMailbox(fetched, |mailboxes|, 1);
    FoundSoFar(seen, matches, offset, pageSize, out, matched);
    assert out == Shown(mailboxes, matches, offset, pageSize) by { ShownSoFar(mailboxes, matches, offset, pageSize); }
  }

  lemma FoundSoFar<T(!new)>(seen: seq<T>, matches: T -> bool, offset: nat, pageSize: nat, out: seq<T>, matched: nat)
    requires Progress(seen, matches, offset, pageSize, out, matched, false)
    ensures |Filter(seen, matches)| <= offset + pageSize && out == Slice(Filter(seen, matches), offset, pageSize)
  {
    hide Filter, Slice;
  }

  lemma ShownSoFar<T(!new)>(mailboxes: seq<seq<T>>, matches: T -> bool, offset: nat, pageSize: nat)
    ensures Shown(mailboxes, matches, offset, pageSize) ==
      Slice(Filter(Reach(mailboxes, |mailboxes|), matches), offset, pageSize)
  {
  }
}
