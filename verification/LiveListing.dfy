/** Listing a live mailbox: UID paging (internal/mail/imap_smtp.go) and the bounded scan with
    early stop (internal/api/mail_triage.go), over a fixed snapshot. */
module LiveListing {
  import opened Text
  import opened Lists
  import opened Ordering
  import opened Triage
  import B = Base64
  import Ids

  // ----- UID paging -----

  /** Descending insertion, the order `sort.Slice` is asked for. */
  function Descending(uids: seq<nat>): seq<nat> {
    StableSort(uids, (a: nat, b: nat) => a > b)
  }

  predicate StrictlyDescending(xs: seq<nat>) {
    forall i, j :: 0 <= i < j < |xs| ==> xs[i] > xs[j]
  }

  predicate WeaklyDescending(xs: seq<nat>) {
    forall i, j :: 0 <= i < j < |xs| ==> xs[i] >= xs[j]
  }

  lemma DescendingSorts(uids: seq<nat>)
    ensures WeaklyDescending(Descending(uids)) && multiset(Descending(uids)) == multiset(uids)
    ensures forall u :: u in Descending(uids) <==> u in uids
  {
    var less := (a: nat, b: nat) => a > b;
    assert StrictWeakOrder(less);
    StableSortCorrect(uids, less);
    var d := Descending(uids);
    forall i, j | 0 <= i < j < |d| ensures d[i] >= d[j] {
      assert !less(d[j], d[i]);
    }
    forall u ensures u in d <==> u in uids {
      assert u in d <==> u in multiset(d);
      assert u in uids <==> u in multiset(uids);
    }
  }

  /** Zeros and repetitions dropped from a descending list. */
  function Thinned(xs: seq<nat>, last: nat): seq<nat> {
    if xs == [] then []
    else if xs[0] == 0 || xs[0] == last then Thinned(xs[1..], last)
    else [xs[0]] + Thinned(xs[1..], xs[0])
  }

  /** The non-zero UIDs, newest first. */
  function UIDOrder(uids: seq<nat>): seq<nat> {
    Thinned(Descending(uids), 0)
  }

  method UniqueUIDsDescending(uids: seq<nat>) returns (out: seq<nat>)
    ensures out == UIDOrder(uids) && IsUIDOrder(out, uids)
  {
    OrderIsUIDOrder(uids);
    hide IsUIDOrder;
    if |uids| == 0 {
      return [];
    }
    var ordered := Descending(uids);
    out := [];
    var last := 0;
    for i := 0 to |ordered|
      invariant out + Thinned(ordered[i..], last) == UIDOrder(uids)
      invariant i == 0 ==> last == 0
    {
      assert ordered[i..][1..] == ordered[i + 1..];
      var uid := ordered[i];
      if uid == 0 {
        continue;
      }
      if i > 0 && uid == last {
        continue;
      }
      out := out + [uid];
      last := uid;
    }
    assert out + [] == out;
  }

  lemma {:induction false} ThinnedDescends(xs: seq<nat>, last: nat)
    requires WeaklyDescending(xs) && forall u :: u in xs ==> last == 0 || u <= last
    ensures StrictlyDescending(Thinned(xs, last))
    ensures forall u :: u in Thinned(xs, last) <==> u in xs && u != 0 && u != last
  {
    if xs != [] {
      var x, tail := xs[0], xs[1..];
      AtMostFirst(xs);
      if x == 0 || x == last {
        ThinnedDescends(tail, last);
      } else {
        ThinnedDescends(tail, x);
        var rest := Thinned(tail, x);
        hide Thinned, WeaklyDescending;
        assert x in xs;
        assert forall i :: 0 <= i < |rest| ==> rest[i] in rest;
        forall u ensures u in [x] + rest <==> u in xs && u != 0 && u != last {
          assert u in tail ==> u <= x;
        }
      }
    }
  }

  lemma AtMostFirst(xs: seq<nat>)
    requires xs != [] && WeaklyDescending(xs)
    ensures WeaklyDescending(xs[1..]) && forall u :: u in xs[1..] ==> u <= xs[0]
    ensures forall u :: u in xs <==> u == xs[0] || u in xs[1..]
  {
    var tail := xs[1..];
    assert xs == [xs[0]] + tail;
    forall u | u in tail ensures u <= xs[0] {
      var i :| 0 <= i < |tail| && tail[i] == u;
      assert xs[i + 1] == u;
    }
  }

  lemma OrderIsUIDOrder(uids: seq<nat>)
    ensures IsUIDOrder(UIDOrder(uids), uids)
  {
    DescendingSorts(uids);
    ThinnedDescends(Descending(uids), 0);
    hide Descending;
  }

  /** `ordered` lists the non-zero UIDs of `uids`, newest first. */
  ghost predicate IsUIDOrder(ordered: seq<nat>, uids: seq<nat>) {
    StrictlyDescending(ordered) && forall u :: u in ordered <==> u in uids && u != 0
  }

  lemma {:induction false} UIDOrderUnique(a: seq<nat>, b: seq<nat>)
    requires StrictlyDescending(a) && StrictlyDescending(b) && forall u :: u in a <==> u in b
    ensures a == b
  {
    assert |b| > 0 ==> b[0] in b;
    if a != [] {
      assert a[0] in b && a[0] in a;
      assert b[0] in b && b[0] in a;
      assert a == [a[0]] + a[1..] && b == [b[0]] + b[1..];
      forall u ensures u in a[1..] <==> u in b[1..] {
        assert u in a[1..] <==> u in a && u != a[0];
        assert u in b[1..] <==> u in b && u != b[0];
      }
      UIDOrderUnique(a[1..], b[1..]);
    }
  }

  lemma NotNegative(a: nat, b: nat)
    ensures a * b >= 0
  {
  }

  /** One page of UIDs: the slice of the one order the UIDs have. */
  method MailboxPageUIDs(uids: seq<nat>, page: int, pageSize: int) returns (selected: seq<nat>)
    ensures var p := if page < 1 then 1 else page; var n := if pageSize < 1 then 25 else pageSize;
      selected == Slice(UIDOrder(uids), (p - 1) * n, n)
  {
    var p, n := page, pageSize;
    if p < 1 {
      p := 1;
    }
    if n < 1 {
      n := 25;
    }
    var ordered := UniqueUIDsDescending(uids);
    var start := (p - 1) * n;
    assert start >= 0 by { NotNegative(p - 1, n); }
    hide IsUIDOrder;
    if |ordered| == 0 {
      return [];
    }
    if start >= |ordered| {
      return [];
    }
    var end := start + n;
    if end > |ordered| {
      end := |ordered|;
    }
    return ordered[start..end];
  }

  /** The pages tile the one strictly descending list of the non-zero UIDs. */
  lemma UIDPagesTile(uids: seq<nat>, pageSize: nat)
    requires pageSize >= 1
    ensures var ordered := UIDOrder(uids); Flatten(Pages(ordered, pageSize, |ordered|)) == ordered
    ensures IsUIDOrder(UIDOrder(uids), uids)
    ensures forall other: seq<nat> :: IsUIDOrder(other, uids) ==> other == UIDOrder(uids)
  {
    AllPages(UIDOrder(uids), pageSize);
    OrderIsUIDOrder(uids);
    hide UIDOrder;
    forall other: seq<nat> | IsUIDOrder(other, uids) ensures other == UIDOrder(uids) {
      UIDOrderUnique(other, UIDOrder(uids));
    }
  }

  /** The fetched summaries in the order of the selected UIDs, each non-zero UID once. */
  function SummariesFrom<M>(selected: seq<nat>, byUID: map<nat, M>, seen: set<nat>): seq<M> {
    if selected == [] then []
    else
      var uid := selected[0];
      if uid == 0 || uid in seen then SummariesFrom(selected[1..], byUID, seen)
      else if uid in byUID then [byUID[uid]] + SummariesFrom(selected[1..], byUID, seen + {uid})
      else SummariesFrom(selected[1..], byUID, seen + {uid})
  }

  method OrderedSummariesForUIDs<M>(selected: seq<nat>, byUID: map<nat, M>) returns (out: seq<M>)
    ensures out == SummariesFrom(selected, byUID, {})
  {
    out := [];
    var seen: set<nat> := {};
    for i := 0 to |selected|
      invariant out + SummariesFrom(selected[i..], byUID, seen) == SummariesFrom(selected, byUID, {})
    {
      assert selected[i..][1..] == selected[i + 1..];
      var uid := selected[i];
      if uid == 0 {
        continue;
      }
      if uid in seen {
        continue;
      }
      seen := seen + {uid};
      if uid in byUID {
        out := out + [byUID[uid]];
      }
    }
  }

  function Fetched<M>(byUID: map<nat, M>): nat -> bool {
    uid => uid in byUID
  }

  /** When every page of UIDs comes from the strictly descending list, the summaries are those of
      its fetched UIDs, one for each, in that order. */
  lemma {:induction false} SummariesOfPage<M>(selected: seq<nat>, byUID: map<nat, M>, seen: set<nat>)
    requires StrictlyDescending(selected) && 0 !in selected && forall u :: u in selected ==> u !in seen
    ensures var found := Filter(selected, Fetched(byUID)); var out := SummariesFrom(selected, byUID, seen);
      |out| == |found| && forall i :: 0 <= i < |found| ==> found[i] in byUID && out[i] == byUID[found[i]]
  {
    if selected != [] {
      var uid, tail := selected[0], selected[1..];
      DescendingTail(selected, seen);
      hide StrictlyDescending;
      SummariesOfPage(tail, byUID, seen + {uid});
      assert Filter(selected, Fetched(byUID)) == (if uid in byUID then [uid] else []) + Filter(tail, Fetched(byUID));
      var more := SummariesFrom(tail, byUID, seen + {uid});
      assert SummariesFrom(selected, byUID, seen) == if uid in byUID then [byUID[uid]] + more else more;
      hide Filter, SummariesFrom;
    }
  }

  lemma DescendingTail(selected: seq<nat>, seen: set<nat>)
    requires selected != [] && StrictlyDescending(selected) && 0 !in selected
    requires forall u :: u in selected ==> u !in seen
    ensures selected[0] != 0 && selected[0] !in seen
    ensures StrictlyDescending(selected[1..]) && 0 !in selected[1..]
    ensures forall u :: u in selected[1..] ==> u !in seen + {selected[0]}
  {
    var uid, tail := selected[0], selected[1..];
    assert uid in selected && forall u :: u in tail ==> u in selected;
    forall u | u in tail ensures u < uid {
      var i :| 0 <= i < |tail| && tail[i] == u;
      assert selected[i + 1] == u;
    }
  }

  // ----- the live list -----

  const LIVE_PAGE_SIZE := 50
  const LIVE_MAX_PAGES := 20

  predicate SameID(a: Item, b: Item) {
    TrimSpace(a.id) != "" && TrimSpace(a.id) == TrimSpace(b.id)
  }

  /** No two messages share a non-blank id. */
  predicate DistinctIDs(messages: seq<Item>) {
    forall i, j :: 0 <= i < j < |messages| ==> !SameID(messages[i], messages[j])
  }

  /** The messages of a page as shown: of those with one id, the first. */
  function Presented(items: seq<Item>, seen: set<string>, present: Item -> Item): seq<Item> {
    if items == [] then []
    else
      var id := TrimSpace(items[0].id);
      if id != "" && id in seen then Presented(items[1..], seen, present)
      else [present(items[0])] + Presented(items[1..], if id != "" then seen + {id} else seen, present)
  }

  method PresentPage(items: seq<Item>, present: Item -> Item) returns (out: seq<Item>)
    ensures out == Presented(items, {}, present)
  {
    hide TrimSpace;
    var seen: set<string> := {};
    out := [];
    for i := 0 to |items|
      invariant out + Presented(items[i..], seen, present) == Presented(items, {}, present)
    {
      assert items[i..][1..] == items[i + 1..];
      var id := TrimSpace(items[i].id);
      if id != "" {
        if id in seen {
          continue;
        }
        seen := seen + {id};
      }
      out := out + [present(items[i])];
    }
  }

  /** A page without repeated ids is shown whole, and only such a page is. */
  lemma {:induction false} PresentedWhole(items: seq<Item>, seen: set<string>, present: Item -> Item)
    ensures |Presented(items, seen, present)| <= |items|
    ensures |Presented(items, seen, present)| == |items| <==> DistinctIDs(items) && NoneSeen(items, seen)
    ensures DistinctIDs(items) && NoneSeen(items, seen) ==> Presented(items, seen, present) == Map(items, present)
  {
    if items != [] {
      var id := TrimSpace(items[0].id);
      var seen' := if id != "" then seen + {id} else seen;
      hide TrimSpace;
      PresentedWhole(items[1..], seen, present);
      PresentedWhole(items[1..], seen', present);
      HeadDistinct(items, seen);
      hide DistinctIDs, NoneSeen;
      assert Map(items, present) == [present(items[0])] + Map(items[1..], present);
    }
  }

  predicate NoneSeen(items: seq<Item>, seen: set<string>) {
    forall i :: 0 <= i < |items| && TrimSpace(items[i].id) != "" ==> TrimSpace(items[i].id) !in seen
  }

  lemma HeadDistinct(items: seq<Item>, seen: set<string>)
    requires items != []
    ensures var id := TrimSpace(items[0].id); var seen' := if id != "" then seen + {id} else seen;
      DistinctIDs(items) && NoneSeen(items, seen) <==>
        (id == "" || id !in seen) && DistinctIDs(items[1..]) && NoneSeen(items[1..], seen')
  {
    hide TrimSpace;
    var tail := items[1..];
    assert forall i :: 0 <= i < |tail| ==> tail[i] == items[i + 1];
    if DistinctIDs(items) && NoneSeen(items, seen) {
      assert forall i :: 0 <= i < |tail| ==> !SameID(items[0], tail[i]);
    }
    var id := TrimSpace(items[0].id);
    var seen' := if id != "" then seen + {id} else seen;
    if (id == "" || id !in seen) && DistinctIDs(tail) && NoneSeen(tail, seen') {
      forall i, j | 0 <= i < j < |items| ensures !SameID(items[i], items[j]) {
        assert items[j] == tail[j - 1];
        if i > 0 {
          assert items[i] == tail[i - 1];
        }
      }
      forall i | 0 <= i < |items| && TrimSpace(items[i].id) != "" ensures TrimSpace(items[i].id) !in seen {
        if i > 0 {
          assert items[i] == tail[i - 1];
        }
      }
    }
  }

  /** The accepted messages of the whole scan range. */
  function AcceptedIn(messages: seq<Item>, present: Item -> Item, f: ViewFilter): seq<Item> {
    Filter(Map(messages, present), Keeps(f))
  }

  lemma MoreAccepted(messages: seq<Item>, n: nat, m: nat, present: Item -> Item, f: ViewFilter)
    requires n <= m <= |messages|
    ensures AcceptedIn(messages[..m], present, f) ==
      AcceptedIn(messages[..n], present, f) + AcceptedIn(messages[n..m], present, f)
  {
    hide Keeps;
    assert messages[..m] == messages[..n] + messages[n..m];
    MapAppend(messages[..n], messages[n..m], present);
    FilterAppend(Map(messages[..n], present), Map(messages[n..m], present), Keeps(f));
  }

  lemma PageShown(items: seq<Item>, present: Item -> Item)
    ensures |Presented(items, {}, present)| <= |items|
    ensures DistinctIDs(items) ==> Presented(items, {}, present) == Map(items, present)
  {
    PresentedWhole(items, {}, present);
  }

  // ----- a mailbox at one moment -----

  /** A mailbox that does not change while it is scanned: the UIDs a search gives, and the summary of
      each message but for its id. */
  datatype Snapshot = Snapshot(mailbox: B.Bytes, uids: seq<nat>, summary: nat -> Item)

  function MessageID(mailbox: B.Bytes, uid: nat): string {
    B.Chars(Ids.EncodeMessageID(mailbox, uid))
  }

  function Summary(snap: Snapshot): nat -> Item {
    (uid: nat) => snap.summary(uid).(id := MessageID(snap.mailbox, uid))
  }

  /** All messages, newest first. */
  function Messages(snap: Snapshot): seq<Item> {
    Map(UIDOrder(snap.uids), Summary(snap))
  }

  lemma MessageIDVisible(mailbox: B.Bytes, uid: nat)
    ensures var id := MessageID(mailbox, uid); TrimSpace(id) == id
  {
    var raw := mailbox + [Ids.BAR] + Ids.Digits(uid);
    Ids.URLRoundTrip(raw);
    hide Ids.EncodeURL, TrimSpace, Ids.Digits;
    TrimmedIsFixed(MessageID(mailbox, uid));
  }

  /** Ids of one mailbox tell its messages apart. */
  lemma MessageIDInjective(mailbox: B.Bytes, u: nat, v: nat)
    requires MessageID(mailbox, u) == MessageID(mailbox, v)
    ensures u == v
  {
    hide Ids.EncodeURL, Ids.DecodeURL, Ids.Digits;
    B.CharsInjective(Ids.EncodeMessageID(mailbox, u), Ids.EncodeMessageID(mailbox, v));
    var head := mailbox + [Ids.BAR];
    Ids.URLRoundTrip(head + Ids.Digits(u));
    Ids.URLRoundTrip(head + Ids.Digits(v));
    assert (head + Ids.Digits(u))[|head|..] == Ids.Digits(u) && (head + Ids.Digits(v))[|head|..] == Ids.Digits(v);
    Ids.DigitsRoundTrip(u);
    Ids.DigitsRoundTrip(v);
  }

  /** No page of a mailbox repeats an id. */
  lemma MessagesDistinct(snap: Snapshot, lo: nat, hi: nat)
    requires lo <= hi <= |Messages(snap)|
    ensures DistinctIDs(Messages(snap)[lo..hi])
  {
    var order := UIDOrder(snap.uids);
    OrderIsUIDOrder(snap.uids);
    hide UIDOrder, MessageID, TrimSpace;
    var page := Messages(snap)[lo..hi];
    forall i, j | 0 <= i < j < |page| ensures !SameID(page[i], page[j]) {
      var u, v := order[lo + i], order[lo + j];
      assert page[i].id == MessageID(snap.mailbox, u) && page[j].id == MessageID(snap.mailbox, v);
      MessageIDVisible(snap.mailbox, u);
      MessageIDVisible(snap.mailbox, v);
      if page[i].id == page[j].id {
        MessageIDInjective(snap.mailbox, u, v);
      }
    }
  }

  /** One page of the mailbox: UIDs searched, cut, fetched and put in order. */
  method ListMessages(snap: Snapshot, page: int, pageSize: int) returns (items: seq<Item>)
    ensures var p := if page < 1 then 1 else page; var n := if pageSize < 1 then 25 else pageSize;
      items == Slice(Messages(snap), (p - 1) * n, n)
  {
    var selected := MailboxPageUIDs(snap.uids, page, pageSize);
    var byUID := map u | u in selected :: Summary(snap)(u);
    items := OrderedSummariesForUIDs(selected, byUID);
    ghost var p := if page < 1 then 1 else page;
    ghost var n := if pageSize < 1 then 25 else pageSize;
    assert (p - 1) * n >= 0 by { NotNegative(p - 1, n); }
    PageListed(snap, (p - 1) * n, n, byUID);
  }

  lemma PageListed(snap: Snapshot, start: nat, n: nat, byUID: map<nat, Item>)
    requires var selected := Slice(UIDOrder(snap.uids), start, n); byUID == map u | u in selected :: Summary(snap)(u)
    ensures SummariesFrom(Slice(UIDOrder(snap.uids), start, n), byUID, {}) == Slice(Messages(snap), start, n)
  {
    var order := UIDOrder(snap.uids);
    var selected := Slice(order, start, n);
    OrderIsUIDOrder(snap.uids);
    SlicePart(order, start, n);
    SliceMap(order, start, n, Summary(snap));
    hide UIDOrder, Summary, Slice, StrictlyDescending, SummariesFrom;
    SummariesWhole(selected, byUID, {}, Summary(snap));
  }

  lemma SliceMap<T, U>(xs: seq<T>, start: nat, n: nat, f: T -> U)
    ensures Slice(Map(xs, f), start, n) == Map(Slice(xs, start, n), f)
  {
  }

  /** With every UID fetched, a page has one summary for each. */
  lemma {:induction false} SummariesWhole<M>(selected: seq<nat>, byUID: map<nat, M>, seen: set<nat>, f: nat -> M)
    requires StrictlyDescending(selected) && 0 !in selected && forall u :: u in selected ==> u !in seen
    requires forall u :: u in selected ==> u in byUID && byUID[u] == f(u)
    ensures SummariesFrom(selected, byUID, seen) == Map(selected, f)
  {
    if selected != [] {
      DescendingTail(selected, seen);
      hide StrictlyDescending;
      assert selected == [selected[0]] + selected[1..];
      SummariesWhole(selected[1..], byUID, seen + {selected[0]}, f);
      assert Map(selected, f) == [f(selected[0])] + Map(selected[1..], f);
    }
  }

  lemma SlicePart(order: seq<nat>, start: nat, n: nat)
    requires StrictlyDescending(order) && 0 !in order
    ensures StrictlyDescending(Slice(order, start, n)) && 0 !in Slice(order, start, n)
  {
    var selected := Slice(order, start, n);
    assert forall i :: 0 <= i < |selected| ==> selected[i] == order[start + i];
  }

  /** The messages twenty pages reach. */
  function InReach(snap: Snapshot): seq<Item> {
    Messages(snap)[..Min(LIVE_MAX_PAGES * LIVE_PAGE_SIZE, |Messages(snap)|)]
  }

  /** The scan loop: stops early when nothing needs the whole list and enough was accepted. */
  method ScanLive(snap: Snapshot, present: Item -> Item, f: ViewFilter, enough: nat)
    returns (accepted: seq<Item>, pages: nat)
    ensures pages <= LIVE_MAX_PAGES
    ensures var all := AcceptedIn(InReach(snap), present, f);
      if ConversationActive(f) then accepted == all else accepted <= all && (accepted == all || |accepted| >= enough)
  {
    hide ConversationActive, DistinctIDs, Presented, Keeps, AcceptedIn, Messages;
    ghost var messages := Messages(snap);
    var scanAll := ConversationActive(f);
    accepted, pages := [], 0;
    assert AcceptedIn(messages[..0], present, f) == [] by { NothingAccepted(messages, present, f); }
    var scanPage := 1;
    while scanPage <= LIVE_MAX_PAGES
      invariant 1 <= scanPage <= LIVE_MAX_PAGES + 1 && pages == scanPage - 1
      invariant (scanPage - 1) * LIVE_PAGE_SIZE <= |messages|
      invariant accepted == AcceptedIn(messages[..(scanPage - 1) * LIVE_PAGE_SIZE], present, f)
    {
      pages := pages + 1;
      ghost var lo := (scanPage - 1) * LIVE_PAGE_SIZE;
      var raw := ListMessages(snap, scanPage, LIVE_PAGE_SIZE);
      ghost var hi := lo + |raw|;
      ghost var end := Min(LIVE_MAX_PAGES * LIVE_PAGE_SIZE, |messages|);
      assert raw == messages[lo..hi] && hi <= end;
      if |raw| == 0 {
        break;
      }
      var items := PresentPage(raw, present);
      MessagesDistinct(snap, lo, hi);
      PageShown(raw, present);
      MoreAccepted(messages, lo, hi, present, f);
      MoreAccepted(messages, hi, end, present, f);
      assert Filter(Map(raw, present), Keeps(f)) == AcceptedIn(raw, present, f) by { AcceptedMeans(raw, present, f); }
      accepted := AcceptBatch(items, f, accepted);
      if !scanAll && |accepted| >= enough {
        break;
      }
      if |items| < LIVE_PAGE_SIZE {
        break;
      }
      scanPage := scanPage + 1;
    }
  }

  lemma NothingAccepted(messages: seq<Item>, present: Item -> Item, f: ViewFilter)
    ensures AcceptedIn(messages[..0], present, f) == []
  {
  }

  lemma AcceptedMeans(messages: seq<Item>, present: Item -> Item, f: ViewFilter)
    ensures AcceptedIn(messages, present, f) == Filter(Map(messages, present), Keeps(f))
  {
  }

  /** What scanning all twenty pages would show. */
  function LiveView(snap: Snapshot, present: Item -> Item, f: ViewFilter): seq<Item> {
    var accepted := AcceptedIn(InReach(snap), present, f);
    if ConversationActive(f) then StableSort(Collapse(accepted), Order(f)) else accepted
  }

  /** The live list: stopping early shows the same page as scanning all twenty pages. */
  method ListLive(snap: Snapshot, present: Item -> Item, f: ViewFilter, page: int, pageSize: nat)
    returns (items: seq<Item>, pages: nat)
    requires pageSize >= 1
    ensures pages <= LIVE_MAX_PAGES
    ensures items == Slice(LiveView(snap, present, f), OffsetOf(page, pageSize), pageSize)
  {
    hide InReach, AcceptedIn, ConversationActive, StableSort, Collapse, OffsetOf;
    var offset := ComputeOffset(page, pageSize);
    var accepted;
    accepted, pages := ScanLive(snap, present, f, offset + pageSize);
    ghost var all := AcceptedIn(InReach(snap), present, f);
    if ConversationActive(f) {
      accepted := CollapseByThread(accepted);
      accepted := StableSort(accepted, Order(f));
    } else if |accepted| >= offset + pageSize {
      SliceStable(accepted, all[|accepted|..], offset, pageSize);
      assert accepted + all[|accepted|..] == all;
    }
    items := CutPage(accepted, offset, pageSize);
  }
}
