/** The mailbox list cache as a mutable object: its locked regions work on arrays, and the
    clones they take keep the cached arrays apart from every array a caller can touch.
    internal/api/mail_cache.go. */
module MailboxListCache {
  import opened Text
  import opened Mailboxes

  datatype CachedList = CachedList(value: array<Mailbox>, expiresAt: int)

  class Inflight {
    var done: bool
    var value: array?<Mailbox>
    var err: Option<int>

    constructor ()
      ensures !done && value == null
    {
      done, value, err := false, null, None;
    }
  }

  method CloneMailboxes(src: array<Mailbox>) returns (out: array<Mailbox>)
    ensures fresh(out) && out[..] == src[..]
  {
    out := new Mailbox[src.Length](i requires 0 <= i < src.Length reads src => src[i]);
  }

  class Cache {
    var items: map<string, CachedList>
    var inflight: map<string, Inflight>
    ghost var Repr: set<object>

    /** The arrays the cache reads belong to it. */
    ghost predicate Valid()
      reads this, Repr
    {
      && this !in Repr
      && (forall k :: k in items ==> items[k].value in Repr)
    }

    /** What a hit would return, and until when. */
    ghost function Snapshot(): map<string, (seq<Mailbox>, int)>
      requires Valid()
      reads this, Repr
    {
      map k | k in items :: (items[k].value[..], items[k].expiresAt)
    }

    constructor ()
      ensures Valid() && Snapshot() == map[] && inflight == map[] && Repr == {}
    {
      items, inflight, Repr := map[], map[], {};
    }

    /** The first locked region of get. */
    method Enter(key: string, now: int) returns (hit: array?<Mailbox>, wait: Inflight?, leads: bool)
      requires Valid()
      modifies this`inflight
      ensures Valid() && Repr == old(Repr) && Snapshot() == old(Snapshot())
      ensures hit != null <==> key in items && now < items[key].expiresAt
      ensures hit != null ==> fresh(hit) && hit[..] == Snapshot()[key].0 && inflight == old(inflight)
      ensures hit == null ==> wait != null && (leads <==> key !in old(inflight))
      ensures hit == null && leads ==> fresh(wait) && !wait.done && inflight == old(inflight)[key := wait]
      ensures hit == null && !leads ==> key in inflight && wait == inflight[key] && inflight == old(inflight)
    {
      hit, wait, leads := null, null, false;
      if key in items && now < items[key].expiresAt {
        hit := CloneMailboxes(items[key].value);
        return;
      }
      if key in inflight {
        wait := inflight[key];
        return;
      }
      wait := new Inflight();
      inflight := inflight[key := wait];
      leads := true;
    }

    /** Puts a private copy of a list in the cache. */
    method Store(key: string, value: array<Mailbox>, expiresAt: int)
      requires Valid()
      modifies this`items, this`Repr
      ensures Valid() && fresh(Repr - old(Repr)) && old(Repr) <= Repr
      ensures Snapshot() == old(Snapshot())[key := (value[..], expiresAt)]
    {
      var stored := CloneMailboxes(value);
      items := items[key := CachedList(stored, expiresAt)];
      Repr := Repr + {stored};
    }

    /** Leaves a private copy of a result for the callers waiting on a fetch. */
    method Record(wait: Inflight, value: array<Mailbox>, err: Option<int>)
      requires Valid() && wait != this as object && wait !in Repr
      modifies this`Repr, wait
      ensures Valid() && fresh(Repr - old(Repr)) && old(Repr) <= Repr && Snapshot() == old(Snapshot())
      ensures wait.done == old(wait.done) && wait.err == err
      ensures wait.value != null && wait.value in Repr && wait.value !in old(Repr) && wait.value[..] == value[..]
    {
      var kept := CloneMailboxes(value);
      wait.value := kept;
      wait.err := err;
      Repr := Repr + {kept};
    }

    /** The second locked region of get: three separate copies of the fetched list. */
    method Settle(key: string, wait: Inflight, value: array<Mailbox>, err: Option<int>, expiresAt: int)
      returns (result: array<Mailbox>)
      requires Valid() && wait != this as object && wait !in Repr
      requires key in inflight && inflight[key] == wait && !wait.done
      modifies this, wait
      ensures Valid() && fresh(Repr - old(Repr)) && old(Repr) <= Repr
      ensures fresh(result) && result !in Repr && result[..] == old(value[..])
      ensures inflight == old(inflight) - {key}
      ensures wait.done && wait.err == err && wait.value != null && wait.value in Repr
        && wait.value[..] == old(value[..])
      ensures Snapshot() == if err.None? then old(Snapshot())[key := (old(value[..]), expiresAt)] else old(Snapshot())
    {
      Record(wait, value, err);
      if err.None? {
        Store(key, value, expiresAt);
      }
      Release(key, wait);
      result := CloneMailboxes(value);
    }

    /** Takes a fetch out of the table and closes its channel. */
    method Release(key: string, wait: Inflight)
      requires Valid() && wait != this as object && wait !in Repr
      modifies this`inflight, wait`done
      ensures Valid() && Snapshot() == old(Snapshot()) && inflight == old(inflight) - {key} && wait.done
    {
      inflight := inflight - {key};
      wait.done := true;
    }

    /** What a woken waiter returns. */
    method Join(wait: Inflight) returns (result: array<Mailbox>, err: Option<int>)
      requires Valid() && wait.done && wait.value != null
      ensures fresh(result) && result[..] == wait.value[..] && err == wait.err
    {
      result := CloneMailboxes(wait.value);
      err := wait.err;
    }

    method Invalidate(key: string)
      requires Valid()
      modifies this`items
      ensures Valid() && Repr == old(Repr)
      ensures Snapshot() == if key == "" then old(Snapshot()) else old(Snapshot()) - {key}
    {
      if key == "" {
        return;
      }
      items := items - {key};
    }
  }

  /** Whatever a caller writes into a list it was given, the cache and the results recorded
      for waiters stay as they were. */
  method CallerWrites(c: Cache, given: array<Mailbox>, i: nat, mb: Mailbox)
    requires c.Valid() && given !in c.Repr && i < given.Length
    modifies given
    ensures c.Valid() && c.Snapshot() == old(c.Snapshot())
    ensures forall a: array<Mailbox> :: a in c.Repr ==> a[..] == old(a[..])
  {
    given[i] := mb;
  }
}
