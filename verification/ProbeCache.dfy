/** The readiness probe as an object: each locked region of internal/api/mail_cache.go changes the fields as the
    protocol's step says. Channels are numbers; `closes` counts how often each was closed. */
module ProbeCache {
  import opened Text
  import P = ReadinessProbe

  class Cache<R> {
    var result: Option<R>
    var inflight: Option<nat>
    var closes: seq<nat>

    constructor ()
      ensures Represents(P.Start())
    {
      result, inflight, closes := None, None, [];
    }

    /** The object is in the protocol's state. */
    ghost predicate Represents(s: P.Probe<R>)
      reads this
    {
      s.result == result && s.inflight == inflight && s.closes == closes
    }

    method OpenChannel() returns (chan: nat)
      modifies this`inflight, this`closes
      ensures chan == |old(closes)| && inflight == Some(chan) && closes == old(closes) + [0]
    {
      chan := |closes|;
      closes := closes + [0];
      inflight := Some(chan);
    }

    /** The first region of snapshot: what becomes of the caller, and the channel of a refresh started in the
        background. */
    method Snapshot(now: int, checkedAt: R -> int, ghost s: P.Probe<R>, ghost p: nat)
      returns (caller: P.Caller<R>, started: Option<nat>)
      requires Represents(s) && P.Enabled(s, P.Enter(p)) && s.callers[p] == P.Called(now)
      modifies this`inflight, this`closes
      ensures var t := P.EnterStep(s, p, checkedAt);
        && Represents(t) && t.callers == s.callers[p := caller]
        && t.background == s.background + if started.Some? then {started.value} else {}
    {
      started := None;
      if result.Some? {
        if now - checkedAt(result.value) >= P.TTL && inflight.None? {
          var chan := OpenChannel();
          started := Some(chan);
        }
        return P.Returned(result), started;
      }
      if inflight.Some? {
        return P.Waiting(inflight.value), None;
      }
      var chan := OpenChannel();
      return P.Refreshing(chan), None;
    }

    /** The last region of snapshot, for the caller that refreshed. */
    method FinishRefresh(chan: nat, fresh_: R, checkedAt: R -> int, ghost s: P.Probe<R>, ghost p: nat)
      returns (caller: P.Caller<R>)
      requires Represents(s) && P.Enabled(s, P.RefreshDone(p, fresh_)) && s.callers[p] == P.Refreshing(chan)
      modifies this
      ensures var t := P.Next(s, P.RefreshDone(p, fresh_), checkedAt);
        Represents(t) && t.callers == s.callers[p := caller] && t.background == s.background
    {
      result := Some(fresh_);
      inflight := None;
      closes := closes[chan := closes[chan] + 1];
      return P.Returned(result);
    }

    /** The region of refreshAsync. */
    method FinishBackground(chan: nat, fresh_: R, checkedAt: R -> int, ghost s: P.Probe<R>)
      requires Represents(s) && P.Enabled(s, P.BackgroundDone(chan, fresh_))
      modifies this
      ensures var t := P.Next(s, P.BackgroundDone(chan, fresh_), checkedAt);
        Represents(t) && t.callers == s.callers && t.background == s.background - {chan}
    {
      if inflight == Some(chan) {
        result := Some(fresh_);
        inflight := None;
        closes := closes[chan := closes[chan] + 1];
      }
    }

    /** What a caller that waited reads. */
    method ReadAfterWait(checkedAt: R -> int, ghost s: P.Probe<R>, ghost p: nat) returns (caller: P.Caller<R>)
      requires Represents(s) && P.Enabled(s, P.Wake(p))
      ensures var t := P.Next(s, P.Wake(p), checkedAt); Represents(t) && t.callers == s.callers[p := caller]
    {
      return P.Returned(result);
    }
  }
}
