/** How many calls the limiter lets through in one window, whatever the sweep does. */
module LimiterBound {
  import opened Text
  import opened Limiter

  // ----- counting admissions -----

  function CountIn(times: seq<int>, lo: int, hi: int): nat {
    if times == [] then 0
    else
      var last := times[|times| - 1];
      CountIn(times[..|times| - 1], lo, hi) + if lo <= last < hi then 1 else 0
  }

  /** The admissions from some time on. */
  function CountFrom(times: seq<int>, lo: int): nat {
    if times == [] then 0
    else CountFrom(times[..|times| - 1], lo) + if lo <= times[|times| - 1] then 1 else 0
  }

  /** The admissions in one half-open interval a window long. */
  function WithinWindow(times: seq<int>, t: int, w: int): nat {
    CountIn(times, t, t + w)
  }

  /** The times at which a key was admitted. */
  function AdmittedTimes(calls: seq<Call>, answers: seq<bool>, key: string): seq<int>
    requires |answers| == |calls|
  {
    if calls == [] then []
    else
      var rest := AdmittedTimes(calls[1..], answers[1..], key);
      if answers[0] && calls[0].key == key then [calls[0].now] + rest else rest
  }

  lemma {:induction false} AnswersLength(s: State, p: Policy, calls: seq<Call>)
    ensures |Answers(s, p, calls)| == |calls|
    decreases |calls|
  {
    if calls != [] {
      var c := calls[0];
      AnswersLength(AllowStep(s, c.key, p.limit(c.key), p.window(c.key), c.now).0, p, calls[1..]);
    }
  }

  lemma CountSnoc(times: seq<int>, x: int)
    ensures forall lo, hi :: CountIn(times + [x], lo, hi) == CountIn(times, lo, hi) + if lo <= x < hi then 1 else 0
    ensures forall lo :: CountFrom(times + [x], lo) == CountFrom(times, lo) + if lo <= x then 1 else 0
  {
    assert (times + [x])[..|times|] == times;
  }

  lemma {:induction false} CountInFrom(times: seq<int>, lo: int, hi: int)
    ensures CountIn(times, lo, hi) <= CountFrom(times, lo)
  {
    if times != [] {
      CountInFrom(times[..|times| - 1], lo, hi);
    }
  }

  // ----- the pace of buckets -----

  /** How often `g` fits into a distance. */
  function Fits(distance: int, g: int): nat
    requires g >= 1
    decreases distance
  {
    if distance < g then 0 else 1 + Fits(distance - g, g)
  }

  /** What buckets opened at least `g` apart can admit over a distance, one limit for each. */
  function Spread(limit: int, g: int, distance: int): int
    requires g >= 1
  {
    limit * Fits(distance, g)
  }

  lemma SpreadGrows(limit: int, g: int, a: int, b: int)
    requires limit >= 0 && g >= 1 && 0 <= a <= b
    ensures 0 <= Spread(limit, g, a) <= Spread(limit, g, b)
    ensures a + g <= b ==> Spread(limit, g, a) + limit <= Spread(limit, g, b)
  {
    FitsGrows(g, a, b);
    var x, y := Fits(a, g), Fits(b, g);
    hide Fits;
    Times(limit, 0, x);
    Times(limit, x, y);
    if a + g <= b {
      Times(limit, x + 1, y);
      assert limit * (x + 1) == limit * x + limit;
    }
  }

  lemma {:induction false} FitsGrows(g: int, a: int, b: int)
    requires g >= 1 && 0 <= a <= b
    ensures Fits(a, g) <= Fits(b, g) && (a + g <= b ==> Fits(a, g) + 1 <= Fits(b, g))
    decreases a
  {
    if a >= g {
      FitsGrows(g, a - g, b - g);
    }
  }

  lemma Times(k: int, a: int, b: int)
    requires k >= 0 && a <= b
    ensures k * a <= k * b
  {
  }

  /** Buckets of the key open at least `g` apart: neither its own window nor any sweep is
      shorter. */
  ghost predicate Pace(p: Policy, key: string, g: int) {
    1 <= g <= p.window(key) && forall k :: g <= 3 * p.window(k) + 1
  }

  /** The most one window can see. */
  function Most(limit: int, w: int, g: int): int
    requires g >= 1
  {
    Spread(limit, g, w - 1) + 2 * limit - 1
  }

  /** The admissions so far, none later than `now`, against the last bucket opened, whether or not
      it is still kept. */
  ghost predicate Paced(times: seq<int>, last: Option<Bucket>, now: int, limit: int, w: int, g: int)
    requires g >= 1
  {
    && (last.None? ==> times == [])
    && (last.Some? ==>
        && 1 <= last.value.count <= limit && last.value.start <= now
        && (forall lo :: lo > last.value.start ==> CountFrom(times, lo) <= last.value.count - 1)
        && (forall lo :: lo <= last.value.start ==>
              CountFrom(times, lo) <= Spread(limit, g, last.value.start - lo) + limit - 1 + last.value.count))
    && (forall lo :: lo > now ==> CountFrom(times, lo) == 0)
    && (forall t :: WithinWindow(times, t, w) <= Most(limit, w, g))
  }

  /** A new bucket. */
  lemma Opens(times: seq<int>, last: Option<Bucket>, now: int, x: int, limit: int, w: int, g: int)
    requires limit >= 1 && 1 <= g <= w && Paced(times, last, now, limit, w, g) && now <= x
    requires last.Some? ==> last.value.start + g <= x
    ensures Paced(times + [x], Some(Bucket(1, x)), x, limit, w, g)
  {
    assert forall lo :: CountFrom([], lo) == 0;
    hide Spread, CountIn, CountFrom, Most;
    CountSnoc(times, x);
    forall lo | lo <= x ensures CountFrom(times + [x], lo) <= Spread(limit, g, x - lo) + limit - 1 + 1 {
      SpreadGrows(limit, g, 0, x - lo);
      if last.Some? && lo <= last.value.start {
        SpreadGrows(limit, g, last.value.start - lo, x - lo);
      }
    }
    WindowsStay(times, Bucket(1, x), x, limit, w, g);
  }

  /** One more admission to the bucket. */
  lemma Continues(times: seq<int>, b: Bucket, now: int, x: int, limit: int, w: int, g: int)
    requires limit >= 1 && 1 <= g <= w && Paced(times, Some(b), now, limit, w, g) && now <= x && b.count < limit
    ensures Paced(times + [x], Some(Bucket(b.count + 1, b.start)), x, limit, w, g)
  {
    hide Spread, CountIn, CountFrom, Most;
    CountSnoc(times, x);
    WindowsStay(times, Bucket(b.count + 1, b.start), x, limit, w, g);
  }

  lemma WindowsStay(times: seq<int>, b: Bucket, x: int, limit: int, w: int, g: int)
    requires limit >= 1 && 1 <= g <= w && b.start <= x && b.count <= limit
    requires forall t :: WithinWindow(times, t, w) <= Most(limit, w, g)
    requires forall lo :: lo > b.start ==> CountFrom(times + [x], lo) <= b.count - 1
    requires forall lo :: lo <= b.start ==>
      CountFrom(times + [x], lo) <= Spread(limit, g, b.start - lo) + limit - 1 + b.count
    ensures forall t :: WithinWindow(times + [x], t, w) <= Most(limit, w, g)
  {
    CountSnoc(times, x);
    forall t ensures WithinWindow(times + [x], t, w) <= Most(limit, w, g) {
      assert WithinWindow(times, t, w) <= Most(limit, w, g);
      if t <= x < t + w {
        CountInFrom(times + [x], t, t + w);
        SpreadGrows(limit, g, 0, w - 1);
        if t <= b.start {
          SpreadGrows(limit, g, b.start - t, w - 1);
        }
      }
    }
  }

  /** The last bucket is the one kept, or it is gone and a new one may open. */
  ghost predicate Remembers(buckets: map<string, Bucket>, key: string, last: Option<Bucket>, now: int, g: int) {
    if key in buckets then last == Some(buckets[key]) else last.Some? ==> last.value.start + g <= now
  }

  lemma CollectRemembers(s: State, p: Policy, c: Call, key: string, last: Option<Bucket>, now: int, g: int)
    requires Pace(p, key, g) && Remembers(s.buckets, key, last, now, g) && now <= c.now
    ensures Remembers(Collect(s, p.window(c.key), c.now).buckets, key, last, c.now, g)
  {
    assert g <= 3 * p.window(c.key) + 1;
  }

  /** One call: the admissions of the key, and its last bucket, stay paced. */
  lemma StepPaced(s: State, p: Policy, c: Call, key: string, times: seq<int>, last: Option<Bucket>, now: int, g: int)
    returns (last': Option<Bucket>)
    requires Sensible(p) && Pace(p, key, g) && now <= c.now
    requires Paced(times, last, now, p.limit(key), p.window(key), g) && Remembers(s.buckets, key, last, now, g)
    ensures var (s', ok) := AllowStep(s, c.key, p.limit(c.key), p.window(c.key), c.now);
      && Paced(if ok && c.key == key then times + [c.now] else times, last', c.now, p.limit(key), p.window(key), g)
      && Remembers(s'.buckets, key, last', c.now, g)
  {
    CollectRemembers(s, p, c, key, last, now, g);
    var limit, w := p.limit(key), p.window(key);
    var buckets := Collect(s, p.window(c.key), c.now).buckets;
    hide Collect, Pace;
    last' := last;
    LaterPaced(times, last, now, c.now, limit, w, g);
    if c.key == key {
      if key !in buckets || c.now - buckets[key].start >= w {
        assert last.Some? ==> last.value.start + g <= c.now by { WindowPaced(p, key, g); }
        Opens(times, last, now, c.now, limit, w, g);
        last' := Some(Bucket(1, c.now));
      } else if buckets[key].count < limit {
        Continues(times, buckets[key], now, c.now, limit, w, g);
        last' := Some(Bucket(buckets[key].count + 1, buckets[key].start));
      }
    }
    hide Paced;
  }

  lemma WindowPaced(p: Policy, key: string, g: int)
    requires Pace(p, key, g)
    ensures 1 <= g <= p.window(key)
  {
  }

  lemma LaterPaced(times: seq<int>, last: Option<Bucket>, now: int, later: int, limit: int, w: int, g: int)
    requires g >= 1 && Paced(times, last, now, limit, w, g) && now <= later
    ensures Paced(times, last, later, limit, w, g)
  {
  }

  lemma {:induction false} RunPaced(s: State, p: Policy, calls: seq<Call>, key: string, times: seq<int>,
      last: Option<Bucket>, now: int, g: int)
    requires Sensible(p) && Pace(p, key, g) && Clocked(calls, now)
    requires Paced(times, last, now, p.limit(key), p.window(key), g) && Remembers(s.buckets, key, last, now, g)
    ensures |Answers(s, p, calls)| == |calls|
    ensures var all := times + AdmittedTimes(calls, Answers(s, p, calls), key);
      forall t :: WithinWindow(all, t, p.window(key)) <= Most(p.limit(key), p.window(key), g)
    decreases |calls|
  {
    AnswersLength(s, p, calls);
    if calls == [] {
      assert times + AdmittedTimes(calls, Answers(s, p, calls), key) == times;
    } else {
      hide Paced, WithinWindow, Remembers, Pace, AllowStep;
      var c := calls[0];
      var (s', ok) := AllowStep(s, c.key, p.limit(c.key), p.window(c.key), c.now);
      var times' := if ok && c.key == key then times + [c.now] else times;
      var last' := StepPaced(s, p, c, key, times, last, now, g);
      RunPaced(s', p, calls[1..], key, times', last', c.now, g);
      TimesStep(times, calls, Answers(s, p, calls), key);
      assert Answers(s, p, calls)[1..] == Answers(s', p, calls[1..]);
      hide AdmittedTimes, Answers;
    }
  }

  lemma TimesStep(times: seq<int>, calls: seq<Call>, answers: seq<bool>, key: string)
    requires |answers| == |calls| && calls != []
    ensures var c := calls[0];
      times + AdmittedTimes(calls, answers, key) ==
      (if answers[0] && c.key == key then times + [c.now] else times) + AdmittedTimes(calls[1..], answers[1..], key)
  {
  }

  lemma AnswersCons(s: State, p: Policy, c: Call, rest: seq<Call>)
    ensures var (s', ok) := AllowStep(s, c.key, p.limit(c.key), p.window(c.key), c.now);
      Answers(s, p, [c] + rest) == [ok] + Answers(s', p, rest)
  {
    hide AllowStep;
    assert ([c] + rest)[1..] == rest;
  }

  /** Over every run and for any windows: where buckets of a key open at least `g` apart, one window
      sees at most the limit for every `g` in it, and once more, and once more but for one call. */
  lemma BoundByPace(p: Policy, t0: int, calls: seq<Call>, key: string, t: int, g: int)
    requires Sensible(p) && Clocked(calls, t0) && Pace(p, key, g)
    ensures |Answers(State(map[], t0), p, calls)| == |calls|
    ensures WithinWindow(AdmittedTimes(calls, Answers(State(map[], t0), p, calls), key), t, p.window(key)) <=
      p.limit(key) * Fits(p.window(key) - 1, g) + 2 * p.limit(key) - 1
  {
    SpreadGrows(p.limit(key), g, 0, p.window(key) - 1);
    RunPaced(State(map[], t0), p, calls, key, [], None, t0, g);
    var admitted := AdmittedTimes(calls, Answers(State(map[], t0), p, calls), key);
    assert [] + admitted == admitted;
  }

  /** With close windows, no window sees twice the limit. */
  lemma AtMostTwiceTheLimit(p: Policy, t0: int, calls: seq<Call>, key: string, t: int)
    requires Sensible(p) && CloseWindows(p) && Clocked(calls, t0)
    ensures |Answers(State(map[], t0), p, calls)| == |calls|
    ensures WithinWindow(AdmittedTimes(calls, Answers(State(map[], t0), p, calls), key), t, p.window(key)) <=
      2 * p.limit(key) - 1
  {
    BoundByPace(p, t0, calls, key, t, p.window(key));
    assert Fits(p.window(key) - 1, p.window(key)) == 0;
  }

  // ----- one-minute and ten-minute windows together -----

  const SLOW := "reset"
  const FAST := "login"

  /** One call per ten minutes for one key, one per minute for all others. */
  function Mixed(): Policy {
    Policy((k: string) => 1, (k: string) => if k == SLOW then 10 * MINUTE else MINUTE)
  }

  /** Just past three minutes: the fast key's sweep has let go of the slow key's bucket. */
  const LAP := 3 * MINUTE + 1

  function Lap(at: int): seq<Call> {
    [Call(FAST, at), Call(SLOW, at)]
  }

  function AfterLap(at: int): State {
    State(map[FAST := Bucket(1, at), SLOW := Bucket(1, at)], at)
  }

  lemma KeysDiffer()
    ensures SLOW != FAST
  {
    assert SLOW[0] == 'r' && FAST[0] == 'l';
  }

  lemma FastAdmits(s: State, at: int)
    requires at - s.lastGC > MINUTE && forall k :: k in s.buckets ==> s.buckets[k].start <= at - LAP
    ensures AllowStep(s, FAST, 1, MINUTE, at) == (State(map[FAST := Bucket(1, at)], at), true)
  {
    hide FAST;
    assert Sweep(s.buckets, MINUTE, at) == map[];
    assert map[][FAST := Bucket(1, at)] == map[FAST := Bucket(1, at)];
  }

  lemma SlowAdmits(at: int)
    ensures AllowStep(State(map[FAST := Bucket(1, at)], at), SLOW, 1, 10 * MINUTE, at) == (AfterLap(at), true)
  {
    KeysDiffer();
    hide FAST, SLOW;
    assert map[FAST := Bucket(1, at)][SLOW := Bucket(1, at)] == AfterLap(at).buckets;
  }

  /** Both calls of a lap are admitted. */
  lemma LapAdmits(s: State, at: int, rest: seq<Call>)
    requires at - s.lastGC > MINUTE && forall k :: k in s.buckets ==> s.buckets[k].start <= at - LAP
    ensures Answers(s, Mixed(), Lap(at) + rest) == [true, true] + Answers(AfterLap(at), Mixed(), rest)
  {
    KeysDiffer();
    FastAdmits(s, at);
    SlowAdmits(at);
    hide SLOW, FAST, AllowStep, Answers, AfterLap;
    var tail := [Call(SLOW, at)] + rest;
    assert Lap(at) + rest == [Call(FAST, at)] + tail;
    AnswersCons(s, Mixed(), Call(FAST, at), tail);
    AnswersCons(State(map[FAST := Bucket(1, at)], at), Mixed(), Call(SLOW, at), rest);
  }

  const FOUR_CALLS: seq<Call> :=
    [Call(SLOW, MINUTE)] + (Lap(MINUTE + LAP) + (Lap(MINUTE + 2 * LAP) + (Lap(MINUTE + 3 * LAP) + [])))

  lemma FourAnswers()
    ensures Answers(State(map[], 0), Mixed(), FOUR_CALLS) == [true, true, true, true, true, true, true]
  {
    var p := Mixed();
    var start := State(map[SLOW := Bucket(1, MINUTE)], 0);
    var r3 := Lap(MINUTE + 3 * LAP) + [];
    var r2 := Lap(MINUTE + 2 * LAP) + r3;
    var r1 := Lap(MINUTE + LAP) + r2;
    assert map[][SLOW := Bucket(1, MINUTE)] == start.buckets;
    assert AllowStep(State(map[], 0), SLOW, 1, 10 * MINUTE, MINUTE) == (start, true);
    AnswersCons(State(map[], 0), p, Call(SLOW, MINUTE), r1);
    LapAdmits(start, MINUTE + LAP, r2);
    LapAdmits(AfterLap(MINUTE + LAP), MINUTE + 2 * LAP, r3);
    LapAdmits(AfterLap(MINUTE + 2 * LAP), MINUTE + 3 * LAP, []);
    assert Answers(AfterLap(MINUTE + 3 * LAP), p, []) == [];
    hide SLOW, FAST, Lap, AllowStep, AfterLap, Answers;
  }

  /** Four calls in one window whose limit is one: the bound by pace is met, and twice the limit is
      exceeded. */
  lemma FourInOneWindow()
    ensures Sensible(Mixed()) && Clocked(FOUR_CALLS, 0) && Pace(Mixed(), SLOW, LAP)
    ensures |Answers(State(map[], 0), Mixed(), FOUR_CALLS)| == |FOUR_CALLS|
    ensures var times := AdmittedTimes(FOUR_CALLS, Answers(State(map[], 0), Mixed(), FOUR_CALLS), SLOW);
      WithinWindow(times, MINUTE, 10 * MINUTE) == 4
    ensures 4 == Mixed().limit(SLOW) * Fits(Mixed().window(SLOW) - 1, LAP) + 2 * Mixed().limit(SLOW) - 1
  {
    FourAnswers();
    FourTimes();
    FourClocked();
    ThreeFit();
    var times := [MINUTE, MINUTE + LAP, MINUTE + 2 * LAP, MINUTE + 3 * LAP];
    FourCounted(times);
  }

  lemma ThreeFit()
    ensures Fits(10 * MINUTE - 1, LAP) == 3
  {
    var d := 10 * MINUTE - 1;
    assert Fits(d - 3 * LAP, LAP) == 0;
    assert Fits(d - 2 * LAP, LAP) == 1;
    assert Fits(d - LAP, LAP) == 2;
  }

  lemma FourCounted(times: seq<int>)
    requires times == [MINUTE, MINUTE + LAP, MINUTE + 2 * LAP, MINUTE + 3 * LAP]
    ensures WithinWindow(times, MINUTE, 10 * MINUTE) == 4
  {
    var t1, t2, t3 := [MINUTE], [MINUTE, MINUTE + LAP], [MINUTE, MINUTE + LAP, MINUTE + 2 * LAP];
    CountSnoc([], MINUTE);
    CountSnoc(t1, MINUTE + LAP);
    CountSnoc(t2, MINUTE + 2 * LAP);
    CountSnoc(t3, MINUTE + 3 * LAP);
    assert [] + [MINUTE] == t1 && t1 + [MINUTE + LAP] == t2 && t2 + [MINUTE + 2 * LAP] == t3
      && t3 + [MINUTE + 3 * LAP] == times;
    assert CountIn([], MINUTE, 11 * MINUTE) == 0;
  }

  lemma FourClocked()
    ensures Clocked(FOUR_CALLS, 0)
  {
    var r3 := Lap(MINUTE + 3 * LAP) + [];
    var r2 := Lap(MINUTE + 2 * LAP) + r3;
    var r1 := Lap(MINUTE + LAP) + r2;
    assert FOUR_CALLS[0].now == MINUTE && FOUR_CALLS[1..] == r1;
    assert Clocked([], MINUTE + 3 * LAP);
    LapClocked(MINUTE + 3 * LAP, [], MINUTE + 2 * LAP);
    LapClocked(MINUTE + 2 * LAP, r3, MINUTE + LAP);
    LapClocked(MINUTE + LAP, r2, MINUTE);
  }

  lemma LapClocked(at: int, rest: seq<Call>, from: int)
    requires from <= at && Clocked(rest, at)
    ensures Clocked(Lap(at) + rest, from)
  {
    var calls := Lap(at) + rest;
    var tail := [Call(SLOW, at)] + rest;
    assert calls[0].now == at && calls[1..] == tail && tail[0].now == at && tail[1..] == rest;
    assert Clocked(tail, at);
  }

  lemma TimesCons(c: Call, rest: seq<Call>, ok: bool, answers: seq<bool>, key: string)
    requires |answers| == |rest|
    ensures AdmittedTimes([c] + rest, [ok] + answers, key) ==
      if ok && c.key == key then [c.now] + AdmittedTimes(rest, answers, key) else AdmittedTimes(rest, answers, key)
  {
    assert ([c] + rest)[1..] == rest && ([ok] + answers)[1..] == answers;
  }

  lemma LapTimes(at: int, rest: seq<Call>, answers: seq<bool>)
    requires |answers| == |rest|
    ensures AdmittedTimes(Lap(at) + rest, [true, true] + answers, SLOW) == [at] + AdmittedTimes(rest, answers, SLOW)
  {
    KeysDiffer();
    hide SLOW, FAST, AdmittedTimes;
    var tail, most := [Call(SLOW, at)] + rest, [true] + answers;
    assert Lap(at) + rest == [Call(FAST, at)] + tail && [true, true] + answers == [true] + most;
    TimesCons(Call(FAST, at), tail, true, most, SLOW);
    TimesCons(Call(SLOW, at), rest, true, answers, SLOW);
  }

  lemma FourTimes()
    ensures var answers := [true, true, true, true, true, true, true];
      |FOUR_CALLS| == 7 && AdmittedTimes(FOUR_CALLS, answers, SLOW) ==
        [MINUTE, MINUTE + LAP, MINUTE + 2 * LAP, MINUTE + 3 * LAP]
  {
    var a1, a2, a3 := [true, true], [true, true, true, true], [true, true, true, true, true, true];
    var r3 := Lap(MINUTE + 3 * LAP) + [];
    var r2 := Lap(MINUTE + 2 * LAP) + r3;
    var r1 := Lap(MINUTE + LAP) + r2;
    assert |r3| == 2 && |r2| == 4 && |r1| == 6;
    assert AdmittedTimes([], [], SLOW) == [];
    hide SLOW, FAST, Lap, AdmittedTimes;
    assert [true, true] + [] == a1 && [true, true] + a1 == a2 && [true, true] + a2 == a3;
    LapTimes(MINUTE + 3 * LAP, [], []);
    LapTimes(MINUTE + 2 * LAP, r3, a1);
    LapTimes(MINUTE + LAP, r2, a2);
    TimesCons(Call(SLOW, MINUTE), r1, true, a3, SLOW);
    assert [true] + a3 == [true, true, true, true, true, true, true];
  }
}
