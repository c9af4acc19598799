/** The mailbox list cache as an object does what the single-flight protocol says: its two locked
    regions take related states to related states (internal/api/mail_cache.go). */
module CacheRefinement {
  import opened Text
  import opened Mailboxes
  import opened MailboxListCache
  import SF = SingleFlight

  type Listing = seq<Mailbox>

  /** What the record of a fetch holds for those who wait on it. */
  ghost function Held(c: Cache, r: Inflight): Option<SF.Outcome<Listing>>
    reads c, r, c.Repr
  {
    if r.done && r.value != null && r.value in c.Repr then Some(SF.Outcome(r.value[..], r.err)) else None
  }

  /** The record says what the protocol's flight says. */
  ghost predicate RecordFits(c: Cache, r: Inflight, f: SF.Flight<Listing>)
    reads c, r, c.Repr
  {
    && r !in c.Repr && r != c as object
    && (r.done <==> f.closes > 0)
    && Held(c, r) == f.result
  }

  ghost predicate RecordsFit(c: Cache, records: seq<Inflight>, flights: seq<SF.Flight<Listing>>)
    reads c, c.Repr, records
  {
    && |records| == |flights|
    && (forall f :: 0 <= f < |records| ==> RecordFits(c, records[f], flights[f]))
    && (forall f, g :: 0 <= f < g < |records| ==> records[f] != records[g])
  }

  /** What hits would return is what the protocol's items say. */
  ghost predicate ItemsFit(shown: map<string, (Listing, int)>, items: map<string, SF.Entry<Listing>>) {
    && shown.Keys == items.Keys
    && forall k :: k in items ==> shown[k] == (items[k].value, items[k].expiresAt)
  }

  lemma ItemsFitMore(shown: map<string, (Listing, int)>, items: map<string, SF.Entry<Listing>>, key: string,
      e: SF.Entry<Listing>)
    requires ItemsFit(shown, items)
    ensures ItemsFit(shown[key := (e.value, e.expiresAt)], items[key := e])
    ensures ItemsFit(shown - {key}, items - {key})
  {
  }

  /** The object's table holds the records of the flights in the protocol's. */
  ghost predicate TableFits(table: map<string, Inflight>, records: seq<Inflight>, inflight: map<string, nat>) {
    && table.Keys == inflight.Keys
    && forall k :: k in inflight ==> inflight[k] < |records| && table[k] == records[inflight[k]]
  }

  lemma TableFitsLess(table: map<string, Inflight>, records: seq<Inflight>, inflight: map<string, nat>, key: string)
    requires TableFits(table, records, inflight)
    ensures TableFits(table - {key}, records, inflight - {key})
  {
  }

  /** The object is in the protocol's state. */
  ghost predicate Represents(c: Cache, records: seq<Inflight>, s: SF.Sys<Listing>)
    reads c, c.Repr, records
  {
    c.Valid() && ItemsFit(c.Snapshot(), s.items) && TableFits(c.inflight, records, s.inflight)
      && RecordsFit(c, records, s.flights)
  }

  /** The first locked region: the object's answer is the step the protocol takes. */
  method EnterRefines(c: Cache, p: nat, ghost records: seq<Inflight>, ghost s: SF.Sys<Listing>, key: string, now: int)
    returns (hit: array?<Mailbox>, wait: Inflight?, leads: bool, ghost records': seq<Inflight>)
    requires Represents(c, records, s) && SF.Enabled(s, SF.Enter(p)) && s.procs[p] == SF.Called(key, now)
    modifies c`inflight
    ensures var t := SF.EnterStep(s, p);
      && p in t.procs && Represents(c, records', t) && records <= records'
      && (hit != null ==> fresh(hit) && t.procs[p].Hit? && hit[..] == t.procs[p].value)
      && (hit == null && leads ==> wait != null && t.procs[p] == SF.Leading(|records|) && records' == records + [wait])
      && (hit == null && !leads ==>
            && t.procs[p].Waiting? && t.procs[p].flight < |records'|
            && records' == records && wait == records'[t.procs[p].flight])
  {
    ghost var table := c.inflight;
    Parts(c, records, s, key);
    EnterCases(s, p, key, now);
    hide Represents, ItemsFit, TableFits, RecordsFit, SF.EnterStep;
    hit, wait, leads := EnterRecord(c, records, s.flights, SF.Flight(key, p, now, None, 0, 0), key, now);
    if hit == null && leads {
      records' := records + [wait];
      TableFitsMore(table, records, s.inflight, key, wait);
    } else {
      records' := records;
    }
    Whole(c, records', SF.EnterStep(s, p));
  }

  lemma Parts(c: Cache, records: seq<Inflight>, s: SF.Sys<Listing>, key: string)
    requires Represents(c, records, s)
    ensures c.Valid() && ItemsFit(c.Snapshot(), s.items) && TableFits(c.inflight, records, s.inflight)
    ensures RecordsFit(c, records, s.flights) && |records| == |s.flights|
    ensures key in c.items <==> key in s.items
    ensures key in s.items ==>
      c.items[key].expiresAt == s.items[key].expiresAt && c.Snapshot()[key].0 == s.items[key].value
    ensures key in c.inflight <==> key in s.inflight
    ensures key in s.inflight ==> s.inflight[key] < |records| && c.inflight[key] == records[s.inflight[key]]
  {
    assert key in c.items <==> key in c.Snapshot();
    hide RecordFits;
  }

  lemma Whole(c: Cache, records: seq<Inflight>, s: SF.Sys<Listing>)
    requires c.Valid() && ItemsFit(c.Snapshot(), s.items) && TableFits(c.inflight, records, s.inflight)
    requires RecordsFit(c, records, s.flights)
    ensures Represents(c, records, s)
  {
    hide ItemsFit, TableFits, RecordsFit;
  }

  /** What the protocol does with a call, by its three outcomes. */
  lemma EnterCases(s: SF.Sys<Listing>, p: nat, key: string, now: int)
    requires SF.Enabled(s, SF.Enter(p)) && s.procs[p] == SF.Called(key, now)
    ensures var t := SF.EnterStep(s, p);
      && t.items == s.items
      && if key in s.items && now < s.items[key].expiresAt then
           && t.procs[p].Hit? && t.procs[p].value == s.items[key].value
           && t.flights == s.flights && t.inflight == s.inflight
         else if key in s.inflight then
           t.procs[p] == SF.Waiting(s.inflight[key]) && t.flights == s.flights && t.inflight == s.inflight
         else
           && t.procs[p] == SF.Leading(|s.flights|) && t.inflight == s.inflight[key := |s.flights|]
           && t.flights == s.flights + [SF.Flight(key, p, now, None, 0, 0)]
  {
  }

  lemma TableFitsMore(table: map<string, Inflight>, records: seq<Inflight>, inflight: map<string, nat>, key: string,
      r: Inflight)
    requires TableFits(table, records, inflight)
    ensures TableFits(table[key := r], records + [r], inflight[key := |records|])
  {
  }

  /** Entering, and what it does to all records. */
  method EnterRecord(c: Cache, ghost records: seq<Inflight>, ghost flights: seq<SF.Flight<Listing>>,
      ghost flight: SF.Flight<Listing>, key: string, now: int)
    returns (hit: array?<Mailbox>, wait: Inflight?, leads: bool)
    requires c.Valid() && RecordsFit(c, records, flights) && flight.closes == 0 && flight.result == None
    modifies c`inflight
    ensures c.Valid() && c.Repr == old(c.Repr) && c.Snapshot() == old(c.Snapshot()) && c.items == old(c.items)
    ensures RecordsFit(c, records, flights)
    ensures hit != null <==> key in c.items && now < c.items[key].expiresAt
    ensures hit != null ==> fresh(hit) && hit[..] == c.Snapshot()[key].0 && c.inflight == old(c.inflight)
    ensures hit == null ==> wait != null && (leads <==> key !in old(c.inflight))
    ensures hit == null && leads ==> c.inflight == old(c.inflight)[key := wait]
    ensures hit == null && leads ==> RecordsFit(c, records + [wait], flights + [flight])
    ensures hit == null && !leads ==> key in c.inflight && wait == c.inflight[key] && c.inflight == old(c.inflight)
  {
    hit, wait, leads := c.Enter(key, now);
    assert forall f :: 0 <= f < |records| ==> RecordFits(c, records[f], flights[f]);
    if hit == null && leads {
      assert RecordFits(c, wait, flight);
    }
  }

  /** The second locked region, on the record of the fetch a caller leads. */
  method SettleRefines(c: Cache, p: nat, ghost records: seq<Inflight>, ghost s: SF.Sys<Listing>, key: string,
      wait: Inflight, value: array<Mailbox>, err: Option<int>, expiresAt: int)
    returns (result: array<Mailbox>)
    requires Represents(c, records, s) && SF.Inv(s) && p in s.procs && s.procs[p].Leading?
    requires var f := s.procs[p].flight;
      f < |records| && wait == records[f] && key == s.flights[f].key && expiresAt == s.flights[f].begunAt + s.ttl
    modifies c, wait
    ensures var o := SF.Outcome(old(value[..]), err);
      SF.Enabled(s, SF.Settle(p, o)) && Represents(c, records, SF.SettleStep(s, p, o))
    ensures fresh(result) && result !in c.Repr && result[..] == old(value[..])
    ensures old(c.Repr) <= c.Repr && fresh(c.Repr - old(c.Repr))
  {
    LeadsOpen(c, p, records, s);
    ghost var f := s.procs[p].flight;
    ghost var o := SF.Outcome(value[..], err);
    ghost var t := SF.SettleStep(s, p, o);
    ItemsFitMore(c.Snapshot(), s.items, key, SF.Entry(value[..], expiresAt, f));
    TableFitsLess(c.inflight, records, s.inflight, key);
    assert t.inflight == s.inflight - {key}
      && t.items == if err.None? then s.items[key := SF.Entry(o.value, expiresAt, f)] else s.items;
    ghost var flight := t.flights[f];
    assert flight.closes == 1 && flight.result == Some(o) && t.flights == s.flights[f := flight];
    hide SF.Inv, ItemsFit, TableFits, RecordsFit, SF.SettleStep;
    result := SettleRecord(c, records, s.flights, f, flight, key, wait, value, err, expiresAt);
  }

  /** Settling, and what it does to all records. */
  method SettleRecord(c: Cache, ghost records: seq<Inflight>, ghost flights: seq<SF.Flight<Listing>>, ghost f: nat,
      ghost flight: SF.Flight<Listing>, key: string, wait: Inflight, value: array<Mailbox>, err: Option<int>,
      expiresAt: int)
    returns (result: array<Mailbox>)
    requires c.Valid() && RecordsFit(c, records, flights) && f < |records| && wait == records[f]
    requires flight.closes > 0 && flight.result == Some(SF.Outcome(value[..], err))
    requires key in c.inflight && c.inflight[key] == wait && !wait.done
    modifies c, wait
    ensures c.Valid() && old(c.Repr) <= c.Repr && fresh(c.Repr - old(c.Repr))
    ensures fresh(result) && result !in c.Repr && result[..] == old(value[..])
    ensures c.inflight == old(c.inflight) - {key}
    ensures c.Snapshot() == if err.None? then old(c.Snapshot())[key := (old(value[..]), expiresAt)]
      else old(c.Snapshot())
    ensures RecordsFit(c, records, flights[f := flight])
  {
    assert RecordFits(c, records[f], flights[f]);
    result := c.Settle(key, wait, value, err, expiresAt);
    forall g | 0 <= g < |records| ensures RecordFits(c, records[g], flights[f := flight][g]) {
      assert g != f ==> records[g] != wait;
    }
  }

  /** The flight a caller leads is open, and in the table under its key. */
  lemma LeadsOpen(c: Cache, p: nat, records: seq<Inflight>, s: SF.Sys<Listing>)
    requires Represents(c, records, s) && SF.Inv(s) && p in s.procs && s.procs[p].Leading?
      && s.procs[p].flight < |records|
    ensures var f := s.procs[p].flight; var key := s.flights[f].key;
      && s.flights[f].closes == 0 && key in s.inflight && s.inflight[key] == f
      && key in c.inflight && c.inflight[key] == records[f] && !records[f].done
      && records[f] !in c.Repr && records[f] != c as object
  {
    assert SF.ProcOk(s, p, s.procs[p]);
    assert RecordFits(c, records[s.procs[p].flight], s.flights[s.procs[p].flight]);
  }

  method InvalidateRefines(c: Cache, ghost records: seq<Inflight>, ghost s: SF.Sys<Listing>, key: string)
    requires Represents(c, records, s)
    modifies c`items
    ensures Represents(c, records, s.(items := if key == "" then s.items else s.items - {key}))
  {
    ItemsFitMore(c.Snapshot(), s.items, key, SF.Entry([], 0, 0));
    hide ItemsFit, TableFits;
    c.Invalidate(key);
    assert forall f :: 0 <= f < |records| ==> RecordFits(c, records[f], s.flights[f]);
  }

  /** A leader gets its list, writes into it, and asks again before the entry expires: it gets the
      list as it was fetched, and so does everybody who waited. */
  method SettleWriteEnter(c: Cache, key: string, wait: Inflight, value: array<Mailbox>, expiresAt: int, i: nat,
      mb: Mailbox, now: int)
    returns (again: array<Mailbox>, waiter: array<Mailbox>)
    requires c.Valid() && wait != c as object && wait !in c.Repr
    requires key in c.inflight && c.inflight[key] == wait && !wait.done
    requires i < value.Length && now < expiresAt
    modifies c, wait
    ensures again[..] == old(value[..]) && waiter[..] == old(value[..])
    ensures fresh(again) && fresh(waiter) && again != waiter
  {
    var result := c.Settle(key, wait, value, None, expiresAt);
    result[i] := mb;
    assert c.Snapshot()[key] == (old(value[..]), expiresAt);
    var hit, _, _ := c.Enter(key, now);
    assert hit != null;
    var joined, _ := c.Join(wait);
    return hit, joined;
  }

  /** Two hits: what is written into the first list does not show in the second. */
  method EnterWriteEnter(c: Cache, key: string, now: int, i: nat, mb: Mailbox)
    returns (first: array<Mailbox>, second: array<Mailbox>)
    requires c.Valid() && key in c.items && now < c.items[key].expiresAt && i < c.items[key].value.Length
    modifies c`inflight
    ensures fresh(first) && fresh(second) && first != second && i < first.Length && first[i] == mb
    ensures second[..] == old(c.items[key].value[..]) && c.Snapshot() == old(c.Snapshot())
  {
    var hit, _, _ := c.Enter(key, now);
    first := hit;
    first[i] := mb;
    assert c.Snapshot()[key].0 == c.items[key].value[..];
    var next, _, _ := c.Enter(key, now);
    second := next;
  }
}
