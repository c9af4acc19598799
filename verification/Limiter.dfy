/** The fixed-window rate limiter of internal/rate/memory.go. Times and windows are clock
    ticks (the source's nanoseconds); the clock reading of each call is a parameter. */
module Limiter {

  datatype Bucket = Bucket(count: int, start: int)

  datatype State = State(buckets: map<string, Bucket>, lastGC: int)

  const MINUTE := 60_000_000_000

  /** One bucket lookup and update. */
  function Admit(buckets: map<string, Bucket>, key: string, limit: int, window: int, now: int)
    : (map<string, Bucket>, bool)
  {
    if key !in buckets || now - buckets[key].start >= window then (buckets[key := Bucket(1, now)], true)
    else if buckets[key].count >= limit then (buckets, false)
    else (buckets[key := Bucket(buckets[key].count + 1, buckets[key].start)], true)
  }

  function Sweep(buckets: map<string, Bucket>, window: int, now: int): map<string, Bucket> {
    buckets - set k | k in buckets && now - buckets[k].start > 3 * window
  }

  function Collect(s: State, window: int, now: int): State {
    if now - s.lastGC > MINUTE then State(Sweep(s.buckets, window, now), now) else s
  }

  function AllowStep(s: State, key: string, limit: int, window: int, now: int): (State, bool) {
    var g := Collect(s, window, now);
    var (buckets, ok) := Admit(g.buckets, key, limit, window, now);
    (State(buckets, g.lastGC), ok)
  }

  class Limiter {
    var buckets: map<string, Bucket>
    var lastGC: int

    ghost function Contents(): State
      reads this
    {
      State(buckets, lastGC)
    }

    constructor (now: int)
      ensures Contents() == State(map[], now)
    {
      buckets := map[];
      lastGC := now;
    }

    method Allow(key: string, limit: int, window: int, now: int) returns (ok: bool)
      modifies this
      ensures (Contents(), ok) == AllowStep(old(Contents()), key, limit, window, now)
    {
      if now - lastGC > MINUTE {
        var pending := buckets.Keys;
        while pending != {}
          invariant pending <= buckets.Keys <= old(buckets).Keys
          invariant lastGC == old(lastGC)
          invariant forall k :: k in buckets ==> buckets[k] == old(buckets)[k]
          invariant forall k :: k in old(buckets) && k !in pending ==>
                      (k in buckets <==> now - old(buckets)[k].start <= 3 * window)
          decreases |pending|
        {
          var k :| k in pending;
          if now - buckets[k].start > 3 * window {
            buckets := buckets - {k};
          }
          pending := pending - {k};
        }
        lastGC := now;
        assert buckets == Sweep(old(buckets), window, now);
      }
      if key !in buckets || now - buckets[key].start >= window {
        buckets := buckets[key := Bucket(1, now)];
        return true;
      }
      var b := buckets[key];
      if b.count >= limit {
        return false;
      }
      b := b.(count := b.count + 1);
      buckets := buckets[key := b];
      return true;
    }
  }

  // ----- runs -----

  datatype Call = Call(key: string, now: int)

  /** Every key has its own limit and window, the same in all its calls. */
  datatype Policy = Policy(limit: string -> int, window: string -> int)

  ghost predicate Sensible(p: Policy) {
    forall k :: p.limit(k) >= 1 && p.window(k) >= 1
  }

  /** The clock never goes back, and starts no earlier than `from`. */
  predicate Clocked(calls: seq<Call>, from: int) {
    calls == [] || (from <= calls[0].now && Clocked(calls[1..], calls[0].now))
  }

  /** The answers of a limiter that collects garbage. */
  function Answers(s: State, p: Policy, calls: seq<Call>): seq<bool>
    decreases |calls|
  {
    if calls == [] then [] else
    var c := calls[0];
    var (s', ok) := AllowStep(s, c.key, p.limit(c.key), p.window(c.key), c.now);
    [ok] + Answers(s', p, calls[1..])
  }

  /** The answers of one that never forgets a bucket. */
  function PlainAnswers(buckets: map<string, Bucket>, p: Policy, calls: seq<Call>): seq<bool>
    decreases |calls|
  {
    if calls == [] then [] else
    var c := calls[0];
    var (b', ok) := Admit(buckets, c.key, p.limit(c.key), p.window(c.key), c.now);
    [ok] + PlainAnswers(b', p, calls[1..])
  }

  // ----- garbage collection is invisible exactly when windows are close -----

  /** No window exceeds three times another by more than a tick. */
  ghost predicate CloseWindows(p: Policy) {
    forall a, b :: p.window(a) <= 3 * p.window(b) + 1
  }

  /** The collected table is the full one without some buckets whose window has passed. */
  ghost predicate Simulates(kept: map<string, Bucket>, full: map<string, Bucket>, p: Policy, now: int) {
    && kept.Keys <= full.Keys
    && (forall k :: k in kept ==> kept[k] == full[k])
    && (forall k :: k in full && k !in kept ==> now - full[k].start >= p.window(k))
  }

  lemma CollectKeepsSimulation(s: State, full: map<string, Bucket>, p: Policy, key: string, now: int)
    requires CloseWindows(p) && Simulates(s.buckets, full, p, now)
    ensures Simulates(Collect(s, p.window(key), now).buckets, full, p, now)
  {
  }

  lemma AdmitKeepsSimulation(kept: map<string, Bucket>, full: map<string, Bucket>, p: Policy, key: string, now: int)
    requires Simulates(kept, full, p, now)
    ensures var (k', ok) := Admit(kept, key, p.limit(key), p.window(key), now);
            var (f', ok') := Admit(full, key, p.limit(key), p.window(key), now);
            ok == ok' && Simulates(k', f', p, now)
  {
  }

  lemma {:induction false} SameAnswers(s: State, full: map<string, Bucket>, p: Policy, calls: seq<Call>, from: int)
    requires CloseWindows(p) && Clocked(calls, from) && Simulates(s.buckets, full, p, from)
    ensures Answers(s, p, calls) == PlainAnswers(full, p, calls)
    decreases |calls|
  {
    if calls != [] {
      var c := calls[0];
      CollectKeepsSimulation(s, full, p, c.key, c.now);
      var g := Collect(s, p.window(c.key), c.now);
      AdmitKeepsSimulation(g.buckets, full, p, c.key, c.now);
      var (s', ok) := AllowStep(s, c.key, p.limit(c.key), p.window(c.key), c.now);
      var (f', ok') := Admit(full, c.key, p.limit(c.key), p.window(c.key), c.now);
      SameAnswers(s', f', p, calls[1..], c.now);
    }
  }

  ghost predicate GCInvisible(p: Policy) {
    forall t0, calls :: Clocked(calls, t0) ==> Answers(State(map[], t0), p, calls) == PlainAnswers(map[], p, calls)
  }

  function Repeat<T>(n: nat, x: T): (r: seq<T>)
    ensures |r| == n
  {
    if n == 0 then [] else [x] + Repeat(n - 1, x)
  }

  /** A call sequence on which collection changes an answer: exhaust key `a`, let a sweep run
      for `b` while `a`'s window is still open, then ask for `a` again. */
  function Revealing(a: string, b: string, p: Policy): seq<Call>
    requires p.limit(a) >= 0
  {
    var t := MINUTE + 3 * p.window(b) + 1;
    Repeat(p.limit(a), Call(a, MINUTE)) + [Call(b, t), Call(a, t)]
  }

  lemma {:induction false} ClockedRepeat(n: nat, c: Call, rest: seq<Call>, from: int)
    requires from <= c.now && Clocked(rest, c.now)
    ensures Clocked(Repeat(n, c) + rest, from)
  {
    var s := Repeat(n, c) + rest;
    if n > 0 {
      assert s[1..] == Repeat(n - 1, c) + rest;
      ClockedRepeat(n - 1, c, rest, c.now);
    } else {
      assert s == rest;
    }
  }

  function Filled(count: nat, a: string): map<string, Bucket> {
    if count == 0 then map[] else map[a := Bucket(count, MINUTE)]
  }

  lemma FillOne(count: nat, p: Policy, a: string)
    requires Sensible(p) && count < p.limit(a)
    ensures Admit(Filled(count, a), a, p.limit(a), p.window(a), MINUTE) == (Filled(count + 1, a), true)
  {
    assert Filled(count, a)[a := Bucket(count + 1, MINUTE)] == Filled(count + 1, a);
  }

  /** Filling a bucket: calls at one instant are admitted up to the limit. */
  lemma {:induction false} Exhaust(count: nat, n: nat, p: Policy, a: string, rest: seq<Call>)
    requires Sensible(p) && count + n == p.limit(a)
    ensures Answers(State(Filled(count, a), 0), p, Repeat(n, Call(a, MINUTE)) + rest) ==
            Repeat(n, true) + Answers(State(Filled(p.limit(a), a), 0), p, rest)
    ensures PlainAnswers(Filled(count, a), p, Repeat(n, Call(a, MINUTE)) + rest) ==
            Repeat(n, true) + PlainAnswers(Filled(p.limit(a), a), p, rest)
    decreases n
  {
    hide Filled, Admit;
    var calls := Repeat(n, Call(a, MINUTE)) + rest;
    if n == 0 {
      hide Answers, PlainAnswers;
      assert calls == rest;
    } else {
      var fewer := Repeat(n - 1, Call(a, MINUTE)) + rest;
      assert calls[0] == Call(a, MINUTE) && calls[1..] == fewer;
      Exhaust(count + 1, n - 1, p, a, rest);
      FillOne(count, p, a);
      assert Answers(State(Filled(count, a), 0), p, calls) ==
        [true] + Answers(State(Filled(count + 1, a), 0), p, fewer);
      assert PlainAnswers(Filled(count, a), p, calls) == [true] + PlainAnswers(Filled(count + 1, a), p, fewer);
      hide Answers, PlainAnswers;
      assert Repeat(n, true) == [true] + Repeat(n - 1, true);
    }
  }

  lemma RevealingDiffers(a: string, b: string, p: Policy)
    requires Sensible(p) && p.window(a) > 3 * p.window(b) + 1
    ensures Clocked(Revealing(a, b, p), 0)
    ensures Answers(State(map[], 0), p, Revealing(a, b, p)) != PlainAnswers(map[], p, Revealing(a, b, p))
  {
    var n := p.limit(a);
    var t := MINUTE + 3 * p.window(b) + 1;
    var rest := [Call(b, t), Call(a, t)];
    assert rest[1..] == [Call(a, t)] && [Call(a, t)][1..] == [];
    assert Clocked(rest[1..], t);
    ClockedRepeat(n, Call(a, MINUTE), rest, 0);
    Exhaust(0, n, p, a, rest);
    var full := map[a := Bucket(n, MINUTE)];
    assert Sweep(full, p.window(b), t) == map[];
    assert map[][b := Bucket(1, t)] == map[b := Bucket(1, t)];
    assert Answers(State(full, 0), p, rest) == [true] + Answers(State(map[b := Bucket(1, t)], t), p, rest[1..]);
    assert Answers(State(full, 0), p, rest)[1];
    assert PlainAnswers(full, p, rest) == [true] + PlainAnswers(full[b := Bucket(1, t)], p, rest[1..]);
    assert !PlainAnswers(full, p, rest)[1];
    var trues := Repeat(n, true);
    assert (trues + Answers(State(full, 0), p, rest))[n + 1] != (trues + PlainAnswers(full, p, rest))[n + 1];
  }

  /** Garbage collection never changes an answer if and only if no window exceeds three
      times another (by more than a tick). */
  lemma GCInvisibleExactly(p: Policy)
    requires Sensible(p)
    ensures GCInvisible(p) <==> CloseWindows(p)
  {
    if CloseWindows(p) {
      forall t0, calls | Clocked(calls, t0)
        ensures Answers(State(map[], t0), p, calls) == PlainAnswers(map[], p, calls)
      {
        SameAnswers(State(map[], t0), map[], p, calls, t0);
      }
    } else {
      var a, b :| p.window(a) > 3 * p.window(b) + 1;
      RevealingDiffers(a, b, p);
    }
  }
}
