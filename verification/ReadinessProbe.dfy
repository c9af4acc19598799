/** The readiness probe of internal/api/mail_cache.go: one cached result, refreshed by the
    first caller or in the background, with callers waiting only while there is no result.
    Every locked region is one event; `R` is a probe result and `checkedAt` reads its time. */
module ReadinessProbe {
  import opened Text

  datatype Caller<R> =
    | Called(now: int)
    | Waiting(chan: nat)
    | Refreshing(chan: nat)
    | Returned(result: Option<R>)
    | Cancelled

  /** `closes` counts how often each channel was closed; `background` holds the channels of
      running refreshAsync goroutines. */
  datatype Probe<R> = Probe(
    result: Option<R>, inflight: Option<nat>,
    closes: seq<nat>, callers: map<nat, Caller<R>>, background: set<nat>)

  datatype Event<R> =
    | Call(pid: nat, now: int)
    | Enter(pid: nat)
    | RefreshDone(pid: nat, fresh_: R)
    | BackgroundDone(chan: nat, fresh_: R)
    | Wake(pid: nat)
    | Cancel(pid: nat)

  /** Thirty seconds, in nanoseconds. */
  const TTL := 30_000_000_000

  function Start<R>(): Probe<R> {
    Probe(None, None, [], map[], {})
  }

  predicate Enabled<R>(s: Probe<R>, e: Event<R>) {
    match e
    case Call(p, _) => p !in s.callers
    case Enter(p) => p in s.callers && s.callers[p].Called?
    case RefreshDone(p, _) => p in s.callers && s.callers[p].Refreshing? && s.callers[p].chan < |s.closes|
    case BackgroundDone(c, _) => c in s.background && c < |s.closes|
    case Wake(p) => p in s.callers && s.callers[p].Waiting? && s.callers[p].chan < |s.closes|
      && s.closes[s.callers[p].chan] > 0
    case Cancel(p) => p in s.callers && s.callers[p].Waiting?
  }

  /** The first locked region of snapshot. */
  function EnterStep<R>(s: Probe<R>, p: nat, checkedAt: R -> int): Probe<R>
    requires Enabled(s, Enter(p))
  {
    var chan := |s.closes|;
    if s.result.Some? then
      var t := s.(callers := s.callers[p := Returned(s.result)]);
      if s.callers[p].now - checkedAt(s.result.value) >= TTL && s.inflight.None? then
        t.(inflight := Some(chan), closes := s.closes + [0], background := s.background + {chan})
      else t
    else if s.inflight.Some? then
      s.(callers := s.callers[p := Waiting(s.inflight.value)])
    else
      s.(inflight := Some(chan), closes := s.closes + [0], callers := s.callers[p := Refreshing(chan)])
  }

  /** Publishing a result and closing the channel. */
  function Publish<R>(s: Probe<R>, chan: nat, r: R): Probe<R>
    requires chan < |s.closes|
  {
    s.(result := Some(r), inflight := None, closes := s.closes[chan := s.closes[chan] + 1])
  }

  function Next<R>(s: Probe<R>, e: Event<R>, checkedAt: R -> int): Probe<R>
    requires Enabled(s, e)
  {
    match e
    case Call(p, now) => s.(callers := s.callers[p := Called(now)])
    case Enter(p) => EnterStep(s, p, checkedAt)
    case RefreshDone(p, r) =>
      Publish(s, s.callers[p].chan, r).(callers := s.callers[p := Returned(Some(r))])
    case BackgroundDone(c, r) =>
      (if s.inflight == Some(c) then Publish(s, c, r) else s).(background := s.background - {c})
    case Wake(p) => s.(callers := s.callers[p := Returned(s.result)])
    case Cancel(p) => s.(callers := s.callers[p := Cancelled])
  }

  function Exec<R>(events: seq<Event<R>>, checkedAt: R -> int): Option<Probe<R>>
    decreases |events|
  {
    if events == [] then Some(Start()) else
    var prev := Exec(events[..|events| - 1], checkedAt);
    var e := events[|events| - 1];
    if prev.Some? && Enabled(prev.value, e) then Some(Next(prev.value, e, checkedAt)) else None
  }

  /** The callers and background goroutines refreshing on some channel. */
  predicate Active<R>(s: Probe<R>, chan: nat) {
    chan in s.background || exists p :: p in s.callers && s.callers[p] == Refreshing(chan)
  }

  ghost predicate Inv<R>(s: Probe<R>) {
    && (forall c :: 0 <= c < |s.closes| ==> s.closes[c] == if s.inflight == Some(c) then 0 else 1)
    && (s.inflight.Some? ==> s.inflight.value < |s.closes|)
    && (forall p :: p in s.callers && s.callers[p].Refreshing? ==>
      s.inflight == Some(s.callers[p].chan) && s.result.None?)
    && (forall p :: p in s.callers && s.callers[p].Waiting? ==> s.callers[p].chan < |s.closes|)
    && (forall p :: p in s.callers && s.callers[p].Waiting? ==>
          s.closes[s.callers[p].chan] == 0 ==> s.result.None?)
    && (forall p :: p in s.callers && s.callers[p].Waiting? ==>
          s.closes[s.callers[p].chan] > 0 ==> s.result.Some?)
    && (forall c :: c in s.background ==> s.inflight == Some(c) && s.result.Some?)
    && (forall p, q :: p in s.callers && q in s.callers && s.callers[p].Refreshing? && s.callers[q].Refreshing? ==>
      p == q)
    && (s.inflight.Some? && s.result.None? ==>
      exists p :: p in s.callers && s.callers[p] == Refreshing(s.inflight.value))
    && (s.inflight.Some? && s.result.Some? ==> s.inflight.value in s.background)
    && (s.result.None? ==> forall p :: p in s.callers ==> !s.callers[p].Returned?)
    && (forall p :: p in s.callers && s.callers[p].Returned? ==> s.callers[p].result.Some?)
  }

  /** A caller may go on to any state that is no refresh: to wait it needs a channel, to return a result. */
  predicate GoesTo<R>(s: Probe<R>, c: Caller<R>) {
    match c
    case Refreshing(_) => false
    case Waiting(chan) => chan < |s.closes| && (s.closes[chan] == 0 <==> s.result.None?)
    case Returned(r) => r.Some? && s.result.Some?
    case _ => true
  }

  lemma MoveKeeps<R>(s: Probe<R>, p: nat, c: Caller<R>)
    requires Inv(s) && (p in s.callers ==> !s.callers[p].Refreshing?) && GoesTo(s, c)
    ensures Inv(s.(callers := s.callers[p := c]))
  {
    var t := s.(callers := s.callers[p := c]);
    if s.inflight.Some? && s.result.None? {
      var q :| q in s.callers && s.callers[q] == Refreshing(s.inflight.value);
      assert t.callers[q] == Refreshing(t.inflight.value);
    }
  }

  /** A refresh in the background opens a channel. */
  lemma BackgroundKeeps<R>(s: Probe<R>)
    requires Inv(s) && s.result.Some? && s.inflight.None?
    ensures var chan := |s.closes|;
      Inv(s.(inflight := Some(chan), closes := s.closes + [0], background := s.background + {chan}))
  {
  }

  /** So does a refresh by the first caller. */
  lemma RefreshKeeps<R>(s: Probe<R>, p: nat)
    requires Inv(s) && s.result.None? && s.inflight.None? && p in s.callers && s.callers[p].Called?
    ensures var chan := |s.closes|;
      Inv(s.(inflight := Some(chan), closes := s.closes + [0], callers := s.callers[p := Refreshing(chan)]))
  {
    var chan := |s.closes|;
    var t := s.(inflight := Some(chan), closes := s.closes + [0], callers := s.callers[p := Refreshing(chan)]);
    assert t.callers[p] == Refreshing(t.inflight.value);
  }

  lemma EnterKeeps<R>(s: Probe<R>, p: nat, checkedAt: R -> int)
    requires Inv(s) && Enabled(s, Enter(p))
    ensures Inv(EnterStep(s, p, checkedAt))
  {
    if s.result.Some? {
      MoveKeeps(s, p, Returned(s.result));
      if s.callers[p].now - checkedAt(s.result.value) >= TTL && s.inflight.None? {
        BackgroundKeeps(s.(callers := s.callers[p := Returned(s.result)]));
      }
      hide Inv;
    } else if s.inflight.Some? {
      MoveKeeps(s, p, Waiting(s.inflight.value));
      hide Inv;
    } else {
      hide Inv;
      RefreshKeeps(s, p);
    }
  }

  lemma StepKeeps<R>(s: Probe<R>, e: Event<R>, checkedAt: R -> int)
    requires Inv(s) && Enabled(s, e)
    ensures Inv(Next(s, e, checkedAt))
  {
    if e.Enter? {
      EnterKeeps(s, e.pid, checkedAt);
    } else if e.RefreshDone? || e.BackgroundDone? {
      DoneKeeps(s, e, checkedAt);
    } else {
      CallerKeeps(s, e, checkedAt);
    }
    hide Inv, Enabled;
  }

  lemma DoneKeeps<R>(s: Probe<R>, e: Event<R>, checkedAt: R -> int)
    requires Inv(s) && Enabled(s, e) && (e.RefreshDone? || e.BackgroundDone?)
    ensures Inv(Next(s, e, checkedAt))
  {
    var chan := if e.RefreshDone? then s.callers[e.pid].chan else e.chan;
    assert s.inflight == Some(chan);
    if e.RefreshDone? {
      assert s.background == {};
    }
  }

  lemma CallerKeeps<R>(s: Probe<R>, e: Event<R>, checkedAt: R -> int)
    requires Inv(s) && Enabled(s, e) && (e.Call? || e.Wake? || e.Cancel?)
    ensures Inv(Next(s, e, checkedAt))
  {
    var c := if e.Call? then Called(e.now) else if e.Wake? then Returned(s.result) else Cancelled;
    assert GoesTo(s, c);
    hide Inv;
    MoveKeeps(s, e.pid, c);
  }

  lemma {:induction false} AlwaysInv<R>(events: seq<Event<R>>, checkedAt: R -> int)
    requires Exec(events, checkedAt).Some?
    ensures Inv(Exec(events, checkedAt).value)
    decreases |events|
  {
    if events != [] {
      var prefix := events[..|events| - 1];
      AlwaysInv(prefix, checkedAt);
      StepKeeps(Exec(prefix, checkedAt).value, events[|events| - 1], checkedAt);
    }
  }

  /** In every interleaving a channel is in flight exactly while a refresher is active, on
      that channel and alone; every other channel has been closed exactly once; nobody waits
      on an open channel once there is a result; and every answer given carries a result. */
  lemma ProbeSafe<R>(events: seq<Event<R>>, checkedAt: R -> int)
    requires Exec(events, checkedAt).Some?
    ensures var s := Exec(events, checkedAt).value;
      && (s.inflight.Some? <==> exists c: nat :: Active(s, c))
      && (forall c: nat :: Active(s, c) ==> s.inflight == Some(c))
      && (forall p, q | p in s.callers && q in s.callers :: s.callers[p].Refreshing? && s.callers[q].Refreshing? ==>
        p == q)
      && (forall p | p in s.callers :: s.callers[p].Refreshing? ==> s.background == {})
      && (forall c | 0 <= c < |s.closes| :: s.closes[c] == if s.inflight == Some(c) then 0 else 1)
      && (forall p | p in s.callers :: s.callers[p].Waiting? ==>
            s.callers[p].chan < |s.closes| && (s.result.Some? ==> Enabled(s, Wake(p))))
      && (forall p | p in s.callers :: s.callers[p].Returned? ==> s.callers[p].result.Some?)
  {
    AlwaysInv(events, checkedAt);
    var s := Exec(events, checkedAt).value;
    if s.inflight.Some? {
      assert Active(s, s.inflight.value);
    }
  }

  /** In every interleaving the guard of refreshAsync holds when it is reached, closing never
      meets a closed channel, and a result, once there, is never lost. */
  lemma ProbeSteps<R>(events: seq<Event<R>>, e: Event<R>, checkedAt: R -> int)
    requires Exec(events, checkedAt).Some? && Enabled(Exec(events, checkedAt).value, e)
    ensures var s := Exec(events, checkedAt).value;
      && (e.BackgroundDone? ==> s.inflight == Some(e.chan) && s.closes[e.chan] == 0)
      && (e.RefreshDone? ==> s.closes[s.callers[e.pid].chan] == 0)
      && (s.result.Some? ==> Next(s, e, checkedAt).result.Some?)
      && (e.Wake? ==> s.result.Some?)
  {
    AlwaysInv(events, checkedAt);
  }
}
