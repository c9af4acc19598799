/** How far the bounded scan of a thread can see: the pages its limits let it ask for, mailbox by mailbox
    (internal/api/router.go, ListThreadMessages). */
module ThreadReach {
  import opened Lists

  const MAX_SCAN_PAGES := 20
  const MAX_PAGES_PER_MAILBOX := 10
  const SCAN_PAGE_SIZE := 50

  /** The pages of one mailbox up to and including page `k`. */
  function FirstPages<T>(mailbox: seq<T>, k: nat): seq<T> {
    mailbox[..Min(k * SCAN_PAGE_SIZE, |mailbox|)]
  }

  function PageOf<T>(mailbox: seq<T>, page: nat): seq<T>
    requires page >= 1
  {
    Slice(mailbox, (page - 1) * SCAN_PAGE_SIZE, SCAN_PAGE_SIZE)
  }

  /** The pages asked for to finish with a mailbox: all that hold messages and an empty one, but no more
      than the limit. */
  function Cost<T>(mailbox: seq<T>): nat {
    Min(MAX_PAGES_PER_MAILBOX, (|mailbox| + SCAN_PAGE_SIZE - 1) / SCAN_PAGE_SIZE + 1)
  }

  function PagesBefore<T>(mailboxes: seq<seq<T>>, i: nat): nat
    requires i <= |mailboxes|
  {
    if i == 0 then 0 else PagesBefore(mailboxes, i - 1) + Cost(mailboxes[i - 1])
  }

  /** The pages of a mailbox that may be asked for after those of the mailboxes before it. */
  function Afforded<T>(mailboxes: seq<seq<T>>, i: nat): nat
    requires i < |mailboxes|
  {
    var before := PagesBefore(mailboxes, i);
    if before >= MAX_SCAN_PAGES then 0 else Min(MAX_PAGES_PER_MAILBOX, MAX_SCAN_PAGES - before)
  }

  /** The messages of the first `i` mailboxes that the limits let the scan see. */
  function Reach<T>(mailboxes: seq<seq<T>>, i: nat): seq<T>
    requires i <= |mailboxes|
  {
    if i == 0 then []
    else Reach(mailboxes, i - 1) + FirstPages(mailboxes[i - 1], Afforded(mailboxes, i - 1))
  }

  /** The scan comes to mailbox `i`, does not find its page full there, and leaves the mailbox without having met
      an empty page: the limits end the scan, or the mailbox has more than nine pages. */
  predicate GivesUp<T>(mailboxes: seq<seq<T>>, matches: T -> bool, limit: nat, i: nat)
    requires i < |mailboxes|
  {
    && PagesBefore(mailboxes, i) <= MAX_SCAN_PAGES
    && |Filter(Reach(mailboxes, i + 1), matches)| <= limit
    && (|| PagesBefore(mailboxes, i + 1) > MAX_SCAN_PAGES
        || |mailboxes[i]| > (MAX_PAGES_PER_MAILBOX - 1) * SCAN_PAGE_SIZE)
  }

  ghost predicate GivesUpBefore<T>(mailboxes: seq<seq<T>>, matches: T -> bool, limit: nat, n: nat)
    requires n <= |mailboxes|
  {
    exists i :: 0 <= i < n && GivesUp(mailboxes, matches, limit, i)
  }

  lemma GivesUpSnoc<T>(mailboxes: seq<seq<T>>, matches: T -> bool, limit: nat, n: nat)
    requires n < |mailboxes|
    ensures GivesUpBefore(mailboxes, matches, limit, n + 1) <==>
      GivesUpBefore(mailboxes, matches, limit, n) || GivesUp(mailboxes, matches, limit, n)
  {
    hide GivesUp;
  }

  // ----- pages of one mailbox -----

  lemma NextPage<T>(mailbox: seq<T>, page: nat)
    requires page >= 1
    ensures FirstPages(mailbox, page - 1) + PageOf(mailbox, page) == FirstPages(mailbox, page)
    ensures PageOf(mailbox, page) == [] <==> |mailbox| <= (page - 1) * SCAN_PAGE_SIZE
    ensures PageOf(mailbox, page) == [] ==> FirstPages(mailbox, page - 1) == mailbox
  {
  }

  lemma PagesGrow<T>(mailbox: seq<T>, j: nat, k: nat)
    requires j <= k
    ensures FirstPages(mailbox, j) <= FirstPages(mailbox, k) <= mailbox
    ensures |mailbox| <= j * SCAN_PAGE_SIZE ==> FirstPages(mailbox, j) == FirstPages(mailbox, k) == mailbox
  {
  }

  /** A mailbox with `page - 1` full or partial pages and then an empty one costs `page`. */
  lemma CostOf<T>(mailbox: seq<T>, page: nat)
    requires 1 <= page <= MAX_PAGES_PER_MAILBOX && (page > 1 ==> |mailbox| > (page - 2) * SCAN_PAGE_SIZE)
    ensures Cost(mailbox) >= page
    ensures |mailbox| <= (page - 1) * SCAN_PAGE_SIZE ==> Cost(mailbox) == page
  {
  }

  lemma CostOfLong<T>(mailbox: seq<T>)
    ensures |mailbox| > (MAX_PAGES_PER_MAILBOX - 1) * SCAN_PAGE_SIZE ==> Cost(mailbox) == MAX_PAGES_PER_MAILBOX
  {
  }

  // ----- the reach of all -----

  lemma {:induction false} PagesBeforeGrow<T>(mailboxes: seq<seq<T>>, i: nat, j: nat)
    requires i <= j <= |mailboxes|
    ensures PagesBefore(mailboxes, i) <= PagesBefore(mailboxes, j)
  {
    if i < j {
      PagesBeforeGrow(mailboxes, i, j - 1);
      hide Cost;
    }
  }

  lemma {:induction false} ReachGrows<T>(mailboxes: seq<seq<T>>, i: nat, j: nat)
    requires i <= j <= |mailboxes|
    ensures Reach(mailboxes, i) <= Reach(mailboxes, j)
  {
    if i < j {
      ReachGrows(mailboxes, i, j - 1);
      hide FirstPages, Afforded;
    }
  }

  /** When the pages are used up, nothing more comes into reach. */
  lemma {:induction false} ReachStops<T>(mailboxes: seq<seq<T>>, i: nat, j: nat)
    requires i <= j <= |mailboxes| && PagesBefore(mailboxes, i) >= MAX_SCAN_PAGES
    ensures Reach(mailboxes, j) == Reach(mailboxes, i)
  {
    if i < j {
      PagesBeforeGrow(mailboxes, i, j - 1);
      hide PagesBefore;
      ReachStops(mailboxes, i, j - 1);
    }
  }

  /** Within the limits everything is in reach. */
  lemma {:induction false} ReachIsAll<T>(mailboxes: seq<seq<T>>, n: nat)
    requires n <= |mailboxes| && PagesBefore(mailboxes, n) <= MAX_SCAN_PAGES
    requires forall i :: 0 <= i < n ==> |mailboxes[i]| <= MAX_PAGES_PER_MAILBOX * SCAN_PAGE_SIZE
    ensures Reach(mailboxes, n) == Flatten(mailboxes[..n])
  {
    if n > 0 {
      ReachIsAll(mailboxes, n - 1);
      var mailbox := mailboxes[n - 1];
      assert mailboxes[..n] == mailboxes[..n - 1] + [mailbox];
      FlattenSnoc(mailboxes[..n - 1], mailbox);
      CostCovers(mailbox, Afforded(mailboxes, n - 1));
      hide Flatten, FirstPages, Cost;
    }
  }

  lemma CostCovers<T>(mailbox: seq<T>, k: nat)
    requires Cost(mailbox) <= k && |mailbox| <= MAX_PAGES_PER_MAILBOX * SCAN_PAGE_SIZE
    ensures FirstPages(mailbox, k) == mailbox
  {
  }

  /** Where the scan gives nothing up, what it can see and what there is begin alike, up to a full page. */
  lemma {:induction false} ReachSuffices<T>(mailboxes: seq<seq<T>>, matches: T -> bool, limit: nat, n: nat)
    returns (common: seq<T>)
    requires n <= |mailboxes| && !GivesUpBefore(mailboxes, matches, limit, n)
    ensures common <= Reach(mailboxes, n) && common <= Flatten(mailboxes[..n])
    ensures |Filter(common, matches)| > limit
      || (common == Reach(mailboxes, n) == Flatten(mailboxes[..n]) && PagesBefore(mailboxes, n) <= MAX_SCAN_PAGES)
  {
    common := [];
    if n > 0 {
      GivesUpSnoc(mailboxes, matches, limit, n - 1);
      common := ReachSuffices(mailboxes, matches, limit, n - 1);
      var mailbox, k := mailboxes[n - 1], Afforded(mailboxes, n - 1);
      assert mailboxes[..n] == mailboxes[..n - 1] + [mailbox];
      FlattenSnoc(mailboxes[..n - 1], mailbox);
      PagesGrow(mailbox, k, k);
      assert Reach(mailboxes, n) == Reach(mailboxes, n - 1) + FirstPages(mailbox, k);
      hide GivesUpBefore, Filter, Flatten, Cost, FirstPages, Reach;
      if |Filter(common, matches)| <= limit {
        common := Reach(mailboxes, n);
        if |Filter(common, matches)| <= limit {
          CostCovers(mailbox, k);
        }
      }
    }
  }
}
