/** The keys of the thread response cache, and invalidation by login:
    internal/api/mail_cache.go, threadCacheKey and invalidateMailLogin. */
module ThreadCacheKeys {
  import opened Text
  import Ids
  import B = Base64

  const NUL: char := '\0'

  function Itoa(n: int): string {
    B.Chars(Ids.FormatInt(n))
  }

  function LoginKey(login: string): string {
    ToLower(TrimSpace(login))
  }

  datatype Request = Request(login: string, scope: string, mailbox: string, threadID: string, page: int, pageSize: int)

  function Parts(q: Request): seq<string> {
    [LoginKey(q.login), ToLower(TrimSpace(q.scope)), TrimSpace(q.mailbox), TrimSpace(q.threadID), Itoa(q.page),
      Itoa(q.pageSize)]
  }

  function CacheKey(q: Request): string {
    Join(Parts(q), [NUL])
  }

  // ----- invalidation -----

  class ThreadCache<V> {
    var items: map<string, V>

    constructor ()
      ensures items == map[]
    {
      items := map[];
    }

    /** Deletes the keys that begin with the login. */
    method InvalidateMailLogin(login: string)
      modifies this
      ensures LoginKey(login) == "" ==> items == old(items)
      ensures LoginKey(login) != "" ==>
        items == map k | k in old(items) && !HasPrefix(k, LoginKey(login) + [NUL]) :: old(items)[k]
    {
      var prefix := LoginKey(login);
      hide LoginKey;
      if prefix == "" {
        return;
      }
      prefix := prefix + [NUL];
      var todo := items.Keys;
      while todo != {}
        invariant todo <= items.Keys <= old(items).Keys
        invariant forall k :: k in items ==> items[k] == old(items)[k]
        invariant forall k :: k in old(items) && k !in todo ==> (k in items <==> !HasPrefix(k, prefix))
      {
        var key :| key in todo;
        todo := todo - {key};
        if HasPrefix(key, prefix) {
          items := items - {key};
        }
      }
    }
  }

  lemma KeyStarts(q: Request)
    ensures exists rest :: CacheKey(q) == LoginKey(q.login) + [NUL] + rest
  {
    var parts := Parts(q);
    hide LoginKey, TrimSpace, Itoa;
    assert CacheKey(q) == parts[0] + [NUL] + Join(parts[1..], [NUL]);
  }

  /** Invalidating a login deletes exactly the keys of requests with that login, if and only if
      the login of the request does not itself begin with the other and a NUL. */
  lemma InvalidationExact(q: Request, login: string)
    requires NUL !in LoginKey(login)
    ensures (HasPrefix(CacheKey(q), LoginKey(login) + [NUL]) <==> LoginKey(q.login) == LoginKey(login))
      <==> !HasPrefix(LoginKey(q.login), LoginKey(login) + [NUL])
  {
    KeyStarts(q);
    hide LoginKey;
    var a, b := LoginKey(q.login), LoginKey(login);
    hide CacheKey;
    var rest :| CacheKey(q) == a + [NUL] + rest;
    var key, prefix := CacheKey(q), b + [NUL];
    if |b| == |a| {
      assert key[..|prefix|] == a + [NUL];
      assert prefix <= key ==> prefix == a + [NUL];
      assert prefix[..|b|] == b && (a + [NUL])[..|a|] == a;
    } else if |b| < |a| {
      assert key[..|prefix|] == a[..|prefix|];
    } else {
      assert prefix[|a|] == b[|a|] && key[|a|] == NUL;
      assert b[|a|] in b;
    }
  }

  /** Invalidating the login `x` also deletes the keys of a login that is `x`, a NUL and more. */
  lemma InvalidationTakesMore(q: Request)
    requires q.login == ['x', NUL, 'y']
    ensures HasPrefix(CacheKey(q), LoginKey("x") + [NUL]) && LoginKey(q.login) != LoginKey("x")
  {
    TrimmedIsFixed("x");
    TrimmedIsFixed(q.login);
    assert LoginKey("x") == "x" && LoginKey(q.login) == ['x', NUL, 'y'];
    KeyStarts(q);
    hide LoginKey, CacheKey;
    var rest :| CacheKey(q) == LoginKey(q.login) + [NUL] + rest;
    assert CacheKey(q)[..2] == ['x', NUL] == LoginKey("x") + [NUL];
  }

  // ----- keys -----

  predicate NulFree(parts: seq<string>) {
    FreeOf(parts, NUL)
  }

  lemma {:induction false} DigitsNoNul(n: nat)
    ensures 0 !in Ids.Digits(n)
  {
    if n >= 10 {
      DigitsNoNul(n / 10);
    }
  }

  predicate Int64(n: int) {
    -0x8000_0000_0000_0000 <= n < 0x8000_0000_0000_0000
  }

  lemma ItoaFaithful(n: int)
    requires Int64(n)
    ensures NUL !in Itoa(n)
    ensures forall m :: Int64(m) && Itoa(m) == Itoa(n) ==> m == n
  {
    if n < 0 { DigitsNoNul(-n); } else { DigitsNoNul(n); }
    Ids.AtoiRoundTrip(n);
    assert 0 !in Ids.FormatInt(n);
    hide Ids.FormatInt, Ids.Atoi;
    forall m | Int64(m) && Itoa(m) == Itoa(n) ensures m == n {
      Ids.AtoiRoundTrip(m);
      B.CharsInjective(Ids.FormatInt(m), Ids.FormatInt(n));
    }
  }

  /** Requests share a cache entry exactly when they ask for the same thing: the same login and
      scope but for case and outer blanks, the same mailbox and thread but for outer blanks, and
      the same page. */
  lemma KeysExact(q: Request, r: Request)
    requires NulFree(Parts(q)[..4]) && NulFree(Parts(r)[..4])
    requires Int64(q.page) && Int64(q.pageSize) && Int64(r.page) && Int64(r.pageSize)
    ensures CacheKey(q) == CacheKey(r) <==>
      && EqualFold(TrimSpace(q.login), TrimSpace(r.login)) && EqualFold(TrimSpace(q.scope), TrimSpace(r.scope))
      && TrimSpace(q.mailbox) == TrimSpace(r.mailbox) && TrimSpace(q.threadID) == TrimSpace(r.threadID)
      && q.page == r.page && q.pageSize == r.pageSize
  {
    ItoaFaithful(q.page);
    ItoaFaithful(q.pageSize);
    ItoaFaithful(r.page);
    ItoaFaithful(r.pageSize);
    hide TrimSpace, Itoa, Int64;
    var a, b := Parts(q), Parts(r);
    assert forall i :: 0 <= i < 4 ==> a[i] == a[..4][i] && b[i] == b[..4][i];
    if CacheKey(q) == CacheKey(r) {
      JoinInjective(a, b, NUL);
      assert forall i :: 0 <= i < 6 ==> a[i] == b[i];
    }
  }
}
