/** The single-flight cache protocol of internal/api/mail_cache.go, shared by the mailbox
    list cache and the thread response cache.

    Every region the source runs under its mutex is one event. A call reads the clock before
    it takes the lock, so that reading is an event of its own. Events of different calls
    interleave freely. `from`, `at` and `settledAt` record provenance: which fetch a value
    came from, and when in the log things happened. */
module SingleFlight {
  import opened Text

  /** What a fetch returned: the source keeps the value even when there is an error. */
  datatype Outcome<V> = Outcome(value: V, err: Option<int>)

  datatype Entry<V> = Entry(value: V, expiresAt: int, from: nat)

  /** The in-flight record other callers wait on; `closes` counts closings of its channel. */
  datatype Flight<V> = Flight(key: string, leader: nat, begunAt: int, result: Option<Outcome<V>>, closes: nat,
      settledAt: nat)

  datatype Proc<V> =
    | Called(key: string, now: int)
    | Leading(flight: nat)
    | Waiting(flight: nat)
    | Hit(key: string, now: int, value: V, from: nat, at: nat)
    | Joined(flight: nat, outcome: Outcome<V>)
    | Led(flight: nat, outcome: Outcome<V>)
    | Cancelled

  datatype Event<V> =
    | Advance(ticks: nat)
    | Call(pid: nat, key: string)
    | Enter(pid: nat)
    | Settle(pid: nat, outcome: Outcome<V>)
    | Wake(pid: nat)
    | Cancel(pid: nat)
    | Invalidate(keys: set<string>)

  datatype Sys<V> = Sys(
    ttl: int, clock: int,
    items: map<string, Entry<V>>, inflight: map<string, nat>,
    flights: seq<Flight<V>>, procs: map<nat, Proc<V>>, log: seq<Event<V>>)

  function Start<V>(ttl: int, clock: int): Sys<V> {
    Sys(ttl, clock, map[], map[], [], map[], [])
  }

  predicate Enabled<V>(s: Sys<V>, e: Event<V>) {
    match e
    case Advance(_) => true
    case Call(p, _) => p !in s.procs
    case Enter(p) => p in s.procs && s.procs[p].Called?
    case Settle(p, _) => p in s.procs && s.procs[p].Leading? && s.procs[p].flight < |s.flights|
    case Wake(p) =>
      && p in s.procs && s.procs[p].Waiting? && s.procs[p].flight < |s.flights|
      && s.flights[s.procs[p].flight].closes > 0 && s.flights[s.procs[p].flight].result.Some?
    case Cancel(p) => p in s.procs && s.procs[p].Waiting?
    case Invalidate(_) => true
  }

  /** The first locked region of get: hit, join a running fetch, or become its leader. */
  function EnterStep<V>(s: Sys<V>, p: nat): Sys<V>
    requires Enabled(s, Enter(p))
  {
    var key, now := s.procs[p].key, s.procs[p].now;
    if key in s.items && now < s.items[key].expiresAt then
      s.(procs := s.procs[p := Hit(key, now, s.items[key].value, s.items[key].from, |s.log|)])
    else if key in s.inflight then
      s.(procs := s.procs[p := Waiting(s.inflight[key])])
    else
      s.(inflight := s.inflight[key := |s.flights|],
         flights := s.flights + [Flight(key, p, now, None, 0, 0)],
         procs := s.procs[p := Leading(|s.flights|)])
  }

  /** The second locked region of get: record the result, cache it unless it is an error,
      leave the in-flight table and close the channel. */
  function SettleStep<V>(s: Sys<V>, p: nat, o: Outcome<V>): Sys<V>
    requires Enabled(s, Settle(p, o))
  {
    var f := s.procs[p].flight;
    var fl := s.flights[f];
    s.(flights := s.flights[f := fl.(result := Some(o), closes := fl.closes + 1, settledAt := |s.log|)],
       items := if o.err.None? then s.items[fl.key := Entry(o.value, fl.begunAt + s.ttl, f)] else s.items,
       inflight := s.inflight - {fl.key},
       procs := s.procs[p := Led(f, o)])
  }

  function Next<V>(s: Sys<V>, e: Event<V>): Sys<V>
    requires Enabled(s, e)
  {
    var t := match e
      case Advance(d) => s.(clock := s.clock + d)
      case Call(p, key) => s.(procs := s.procs[p := Called(key, s.clock)])
      case Enter(p) => EnterStep(s, p)
      case Settle(p, o) => SettleStep(s, p, o)
      case Wake(p) =>
        var f := s.procs[p].flight;
        s.(procs := s.procs[p := Joined(f, s.flights[f].result.value)])
      case Cancel(p) => s.(procs := s.procs[p := Cancelled])
      case Invalidate(keys) => s.(items := s.items - keys);
    t.(log := s.log + [e])
  }

  // ----- runs -----

  /** The state an interleaving leads to, if each of its events is possible when it happens. */
  function Exec<V>(ttl: int, clock: int, events: seq<Event<V>>): Option<Sys<V>>
    decreases |events|
  {
    if events == [] then Some(Start(ttl, clock)) else
    var prev := Exec(ttl, clock, events[..|events| - 1]);
    var e := events[|events| - 1];
    if prev.Some? && Enabled(prev.value, e) then Some(Next(prev.value, e)) else None
  }

  predicate Invalidates<V>(e: Event<V>, key: string) {
    e.Invalidate? && key in e.keys
  }

  /** No invalidation of `key` in the log from position `lo` up to `hi`. */
  predicate Undisturbed<V>(log: seq<Event<V>>, lo: nat, hi: nat, key: string) {
    forall i :: lo <= i < hi && i < |log| ==> !Invalidates(log[i], key)
  }

  /** Flight `f` fetched `value` for `key` without error. */
  ghost predicate Fetched<V>(s: Sys<V>, f: nat, key: string, value: V) {
    && f < |s.flights| && s.flights[f].key == key
    && s.flights[f].result == Some(Outcome(value, None))
  }

  // ----- invariant -----

  ghost predicate FlightsOk<V>(s: Sys<V>) {
    forall f :: 0 <= f < |s.flights| ==>
      var fl := s.flights[f];
      && fl.closes == (if fl.result.Some? then 1 else 0)
      && (fl.result.Some? ==> fl.settledAt < |s.log|)
      && (fl.result.None? ==> fl.key in s.inflight && s.inflight[fl.key] == f
                              && fl.leader in s.procs && s.procs[fl.leader] == Leading(f))
  }

  ghost predicate InflightOk<V>(s: Sys<V>) {
    forall k :: k in s.inflight ==>
      s.inflight[k] < |s.flights| && s.flights[s.inflight[k]].key == k && s.flights[s.inflight[k]].result.None?
  }

  ghost predicate ItemsOk<V>(s: Sys<V>) {
    forall k :: k in s.items ==>
      var e := s.items[k];
      && Fetched(s, e.from, k, e.value)
      && e.expiresAt == s.flights[e.from].begunAt + s.ttl
      && Undisturbed(s.log, s.flights[e.from].settledAt, |s.log|, k)
  }

  ghost predicate ProcOk<V>(s: Sys<V>, p: nat, q: Proc<V>) {
    match q
    case Called(_, now) => now <= s.clock
    case Leading(f) => f < |s.flights| && s.flights[f].leader == p && s.flights[f].result.None?
    case Waiting(f) => f < |s.flights|
    case Hit(key, now, value, from, at) =>
      && Fetched(s, from, key, value) && at < |s.log|
      && now < s.flights[from].begunAt + s.ttl
      && s.flights[from].settledAt < at
      && Undisturbed(s.log, s.flights[from].settledAt, at, key)
    case Joined(f, o) => f < |s.flights| && s.flights[f].result == Some(o)
    case Led(f, o) => f < |s.flights| && s.flights[f].leader == p && s.flights[f].result == Some(o)
    case Cancelled => true
  }

  ghost predicate ProcsOk<V>(s: Sys<V>) {
    forall p :: p in s.procs ==> ProcOk(s, p, s.procs[p])
  }

  ghost predicate Inv<V>(s: Sys<V>) {
    FlightsOk(s) && InflightOk(s) && ItemsOk(s) && ProcsOk(s)
  }

  predicate Hits<V>(s: Sys<V>, p: nat)
    requires Enabled(s, Enter(p))
  {
    s.procs[p].key in s.items && s.procs[p].now < s.items[s.procs[p].key].expiresAt
  }

  lemma EnterReads<V>(s: Sys<V>, p: nat)
    requires Inv(s) && Enabled(s, Enter(p))
    requires Hits(s, p) || s.procs[p].key in s.inflight
    ensures Inv(Next(s, Enter(p)))
  {
    var t := Next(s, Enter(p));
    assert t.flights == s.flights && t.items == s.items && t.inflight == s.inflight;
    assert t.log[..|s.log|] == s.log;
    forall q | q in t.procs ensures ProcOk(t, q, t.procs[q]) {
      if q != p {
        assert ProcOk(s, q, s.procs[q]);
      }
    }
  }

  lemma EnterLeads<V>(s: Sys<V>, p: nat)
    requires Inv(s) && Enabled(s, Enter(p))
    requires !Hits(s, p) && s.procs[p].key !in s.inflight
    ensures Inv(Next(s, Enter(p)))
  {
    EnterLeadsFlights(s, p);
    EnterLeadsItems(s, p);
    EnterLeadsProcs(s, p);
    hide FlightsOk, InflightOk, ItemsOk, ProcsOk, Next, Hits;
  }

  lemma EnterLeadsFlights<V>(s: Sys<V>, p: nat)
    requires Inv(s) && Enabled(s, Enter(p))
    requires !Hits(s, p) && s.procs[p].key !in s.inflight
    ensures var t := Next(s, Enter(p)); FlightsOk(t) && InflightOk(t)
  {
    hide ProcsOk, ItemsOk;
  }

  lemma EnterLeadsItems<V>(s: Sys<V>, p: nat)
    requires Inv(s) && Enabled(s, Enter(p))
    requires !Hits(s, p) && s.procs[p].key !in s.inflight
    ensures ItemsOk(Next(s, Enter(p)))
  {
    var t := Next(s, Enter(p));
    assert t.log[..|s.log|] == s.log;
    assert t.flights[..|s.flights|] == s.flights;
    hide ProcsOk, FlightsOk, InflightOk;
  }

  lemma EnterLeadsProcs<V>(s: Sys<V>, p: nat)
    requires Inv(s) && Enabled(s, Enter(p))
    requires !Hits(s, p) && s.procs[p].key !in s.inflight
    ensures ProcsOk(Next(s, Enter(p)))
  {
    var t := Next(s, Enter(p));
    assert t.log[..|s.log|] == s.log;
    assert t.flights[..|s.flights|] == s.flights;
    hide FlightsOk, InflightOk, ItemsOk;
    forall q | q in t.procs ensures ProcOk(t, q, t.procs[q]) {
      if q != p {
        assert ProcOk(s, q, s.procs[q]);
      }
    }
  }

  lemma SettleKeeps<V>(s: Sys<V>, p: nat, o: Outcome<V>)
    requires Inv(s) && Enabled(s, Settle(p, o))
    ensures Inv(Next(s, Settle(p, o)))
    ensures s.flights[s.procs[p].flight].closes == 0
  {
    assert ProcOk(s, p, s.procs[p]);
    SettleFlights(s, p, o);
    SettleItems(s, p, o);
    SettleProcs(s, p, o);
    hide InflightOk, ItemsOk, ProcsOk, Next;
  }

  lemma SettleFlights<V>(s: Sys<V>, p: nat, o: Outcome<V>)
    requires Inv(s) && Enabled(s, Settle(p, o))
    ensures var t := Next(s, Settle(p, o)); FlightsOk(t) && InflightOk(t)
  {
    assert ProcOk(s, p, s.procs[p]);
    hide ItemsOk, ProcsOk;
  }

  lemma SettleItems<V>(s: Sys<V>, p: nat, o: Outcome<V>)
    requires Inv(s) && Enabled(s, Settle(p, o))
    ensures ItemsOk(Next(s, Settle(p, o)))
  {
    var t := Next(s, Settle(p, o));
    assert ProcOk(s, p, s.procs[p]);
    assert t.log[..|s.log|] == s.log;
    hide FlightsOk, InflightOk, ProcsOk;
  }

  lemma SettleProcs<V>(s: Sys<V>, p: nat, o: Outcome<V>)
    requires Inv(s) && Enabled(s, Settle(p, o))
    ensures ProcsOk(Next(s, Settle(p, o)))
  {
    var t := Next(s, Settle(p, o));
    assert ProcOk(s, p, s.procs[p]);
    assert t.log[..|s.log|] == s.log;
    hide ItemsOk, InflightOk;
    forall q | q in t.procs ensures ProcOk(t, q, t.procs[q]) {
      if q != p {
        assert ProcOk(s, q, s.procs[q]);
      }
    }
  }

  /** Steps of a caller that leave flights, table and items alone. */
  lemma CallerKeeps<V>(s: Sys<V>, e: Event<V>)
    requires Inv(s) && Enabled(s, e) && (e.Call? || e.Wake? || e.Cancel?)
    ensures Inv(Next(s, e))
  {
    CallerItems(s, e);
    CallerProcs(s, e);
    hide ProcsOk, ItemsOk;
  }

  lemma CallerItems<V>(s: Sys<V>, e: Event<V>)
    requires Inv(s) && Enabled(s, e) && (e.Call? || e.Wake? || e.Cancel?)
    ensures ItemsOk(Next(s, e))
  {
    var t := Next(s, e);
    assert t.flights == s.flights && t.items == s.items;
    assert t.log[..|s.log|] == s.log;
    hide ProcsOk, FlightsOk, InflightOk;
  }

  lemma CallerProcs<V>(s: Sys<V>, e: Event<V>)
    requires Inv(s) && Enabled(s, e) && (e.Call? || e.Wake? || e.Cancel?)
    ensures ProcsOk(Next(s, e))
  {
    var t := Next(s, e);
    assert t.log[..|s.log|] == s.log;
    hide FlightsOk, InflightOk, ItemsOk;
    forall q | q in t.procs ensures ProcOk(t, q, t.procs[q]) {
      if q in s.procs {
        assert ProcOk(s, q, s.procs[q]);
      }
    }
  }

  lemma AdvanceKeeps<V>(s: Sys<V>, e: Event<V>)
    requires Inv(s) && Enabled(s, e) && e.Advance?
    ensures Inv(Next(s, e))
  {
    var t := Next(s, e);
    assert t.log[..|s.log|] == s.log;
    forall q | q in t.procs ensures ProcOk(t, q, t.procs[q]) {
      assert ProcOk(s, q, s.procs[q]);
    }
  }

  lemma InvalidateKeeps<V>(s: Sys<V>, e: Event<V>)
    requires Inv(s) && Enabled(s, e) && e.Invalidate?
    ensures Inv(Next(s, e))
  {
    var t := Next(s, e);
    assert t.log[..|s.log|] == s.log;
    forall q | q in t.procs ensures ProcOk(t, q, t.procs[q]) {
      assert ProcOk(s, q, s.procs[q]);
    }
  }

  lemma OthersKeep<V>(s: Sys<V>, e: Event<V>)
    requires Inv(s) && Enabled(s, e) && !e.Enter? && !e.Settle?
    ensures Inv(Next(s, e))
  {
    hide Inv, Next;
    if e.Advance? {
      AdvanceKeeps(s, e);
    } else if e.Invalidate? {
      InvalidateKeeps(s, e);
    } else {
      CallerKeeps(s, e);
    }
  }

  lemma StepKeeps<V>(s: Sys<V>, e: Event<V>)
    requires Inv(s) && Enabled(s, e)
    ensures Inv(Next(s, e))
  {
    hide Inv, Next;
    if e.Enter? {
      if Hits(s, e.pid) || s.procs[e.pid].key in s.inflight { EnterReads(s, e.pid); } else { EnterLeads(s, e.pid); }
    } else if e.Settle? {
      SettleKeeps(s, e.pid, e.outcome);
    } else {
      OthersKeep(s, e);
    }
  }

  lemma {:induction false} AlwaysInv<V>(ttl: int, clock: int, events: seq<Event<V>>)
    requires Exec(ttl, clock, events).Some?
    ensures Inv(Exec(ttl, clock, events).value)
    ensures Exec(ttl, clock, events).value.log == events && Exec(ttl, clock, events).value.ttl == ttl
    decreases |events|
  {
    if events == [] {
      StartInv<V>(ttl, clock);
    } else {
      var prefix, e := events[..|events| - 1], events[|events| - 1];
      var prev := Exec(ttl, clock, prefix).value;
      hide Inv, Next, Enabled;
      AlwaysInv(ttl, clock, prefix);
      StepKeeps(prev, e);
      NextLogs(prev, e);
      assert events == prefix + [e];
    }
  }

  lemma StartInv<V>(ttl: int, clock: int)
    ensures Inv(Start<V>(ttl, clock))
  {
  }

  lemma NextLogs<V>(s: Sys<V>, e: Event<V>)
    requires Enabled(s, e)
    ensures Next(s, e).log == s.log + [e] && Next(s, e).ttl == s.ttl
  {
  }

  /** In every interleaving: a key has at most one fetch running, and it is the one callers
      would join; a channel is closed once, and only with its result in place; nobody waits on
      a fetch whose leader has gone; and every caller that joined a fetch got what its leader
      got. */
  lemma OneFetchPerKey<V>(ttl: int, clock: int, events: seq<Event<V>>)
    requires Exec(ttl, clock, events).Some?
    ensures var s := Exec(ttl, clock, events).value;
      && (forall f, g | 0 <= f < |s.flights| && 0 <= g < |s.flights| ::
            s.flights[f].key == s.flights[g].key && s.flights[f].result.None? && s.flights[g].result.None? ==> f == g)
      && (forall f :: 0 <= f < |s.flights| ==>
            s.flights[f].closes <= 1 && (s.flights[f].closes == 1 <==> s.flights[f].result.Some?))
      && (forall p :: p in s.procs && s.procs[p].Waiting? ==>
            var f := s.procs[p].flight;
            && f < |s.flights|
            && (Enabled(s, Wake(p))
                || (s.flights[f].leader in s.procs && s.procs[s.flights[f].leader] == Leading(f))))
      && (forall p :: p in s.procs && (s.procs[p].Joined? || s.procs[p].Led?) ==>
            var f := s.procs[p].flight; f < |s.flights| && s.flights[f].result == Some(s.procs[p].outcome))
  {
    AlwaysInv(ttl, clock, events);
    var s := Exec(ttl, clock, events).value;
    forall p | p in s.procs ensures ProcOk(s, p, s.procs[p]) { }
  }

  /** In every interleaving, closing never meets a closed channel. */
  lemma ClosesOnce<V>(ttl: int, clock: int, events: seq<Event<V>>, p: nat, o: Outcome<V>)
    requires Exec(ttl, clock, events).Some? && Enabled(Exec(ttl, clock, events).value, Settle(p, o))
    ensures var s := Exec(ttl, clock, events).value; s.flights[s.procs[p].flight].closes == 0
  {
    AlwaysInv(ttl, clock, events);
    SettleKeeps(Exec(ttl, clock, events).value, p, o);
  }

  /** In every interleaving, what the cache holds and every hit it served came from an
      error-free fetch for that key. A hit read at time `now` came from a get begun after
      `now - ttl`, published before the hit, with no invalidation of the key in between. */
  lemma HitsAreFresh<V>(ttl: int, clock: int, events: seq<Event<V>>)
    requires Exec(ttl, clock, events).Some?
    ensures var s := Exec(ttl, clock, events).value;
      && (forall k :: k in s.items ==> Fetched(s, s.items[k].from, k, s.items[k].value))
      && (forall p :: p in s.procs && s.procs[p].Hit? ==>
            var h := s.procs[p];
            && Fetched(s, h.from, h.key, h.value)
            && s.flights[h.from].begunAt > h.now - ttl
            && s.flights[h.from].settledAt < h.at < |events|
            && forall i :: s.flights[h.from].settledAt <= i < h.at ==> !Invalidates(events[i], h.key))
  {
    AlwaysInv(ttl, clock, events);
    var s := Exec(ttl, clock, events).value;
    forall p | p in s.procs ensures ProcOk(s, p, s.procs[p]) { }
  }
}
