/** The token registry: the process-wide map from one-time token to its
    expiry time (in seconds), with lazy eviction, insertion on issue and
    check-and-consume on redemption. */
module Tokens {

  /** A token lives for two minutes after it is issued. */
  const TokenTtl: int := 120

  type Registry = map<string, int>

  /** A token is redeemable at `now` when it is present and `now` has not
      gone past its expiry (the expiry second itself still counts). */
  predicate Live(m: Registry, t: string, now: int) {
    t in m && now <= m[t]
  }

  /** The registry after an eviction pass at `now`: exactly the entries whose
      expiry is not strictly before `now`, with their expiries unchanged. */
  function Unexpired(m: Registry, now: int): (r: Registry)
    ensures r.Keys <= m.Keys
    ensures forall t :: t in r ==> r[t] == m[t] && now <= r[t]
    ensures forall t :: t in m ==> (t in r <==> now <= m[t])
  {
    map t | t in m && !(now > m[t]) :: m[t]
  }

  /** Outcome of a redemption attempt: whether it was accepted and the
      registry afterwards. */
  datatype Redemption = Redemption(accepted: bool, after: Registry)

  /** Check-and-consume: accepted exactly when the token is live, in which case
      that one entry is removed; a refused attempt changes nothing. */
  function Redeem(m: Registry, t: string, now: int): (r: Redemption)
    ensures r.accepted <==> Live(m, t, now)
    ensures r.accepted ==> t in m && r.after.Keys == m.Keys - {t}
    ensures !r.accepted ==> r.after == m
    ensures forall u :: u in r.after ==> r.after[u] == m[u]
  {
    if t in m && !(now > m[t]) then Redemption(true, m - {t}) else Redemption(false, m)
  }

  /** Once accepted, the same token is refused by every later attempt, at any
      time, until it is issued again. */
  lemma RedeemTwiceFails(m: Registry, t: string, now: int, later: int)
    requires Redeem(m, t, now).accepted
    ensures !Redeem(Redeem(m, t, now).after, t, later).accepted
  {
  }

  /** An eviction pass never evicts a token that is still redeemable, so
      evicting before redeeming changes no verdict. */
  lemma EvictionKeepsLive(m: Registry, t: string, now: int)
    ensures Live(Unexpired(m, now), t, now) <==> Live(m, t, now)
  {
  }

  class TokenRegistry {
    var tokens: Registry

    constructor ()
      ensures tokens == map[]
    {
      tokens := map[];
    }

    /** `cleanup_expired_tokens`: collect every token with `now > exp` from a
        snapshot of the entries, then pop each collected token. */
    method CleanupExpired(now: int)
      modifies this
      ensures tokens == Unexpired(old(tokens), now)
    {
      var items := tokens;
      var pending := items.Keys;
      var expired: seq<string> := [];
      while pending != {}
        invariant pending <= items.Keys
        invariant forall t :: t in expired <==> t in items && t !in pending && now > items[t]
        decreases pending
      {
        var t :| t in pending;
        if now > items[t] {
          expired := expired + [t];
        }
        pending := pending - {t};
      }
      var i := 0;
      while i < |expired|
        invariant 0 <= i <= |expired|
        invariant tokens.Keys <= items.Keys
        invariant forall t :: t in tokens ==> tokens[t] == items[t]
        invariant forall t :: t in items ==> (t in tokens <==> t !in expired[..i])
      {
        tokens := tokens - {expired[i]};
        i := i + 1;
      }
      assert expired[..i] == expired;
      assert tokens == Unexpired(items, now);
    }

    /** `tokens[token] = expiry`: inserts, or overwrites a colliding key. */
    method Store(t: string, expiry: int)
      modifies this
      ensures tokens == old(tokens)[t := expiry]
    {
      tokens := tokens[t := expiry];
    }

    /** The locked block of `mark_attendance`: look the token up, refuse it
        when unknown or `now > expiry`, otherwise pop it. */
    method Consume(t: string, now: int) returns (accepted: bool)
      modifies this
      ensures Redeem(old(tokens), t, now) == Redemption(accepted, tokens)
    {
      if t !in tokens || now > tokens[t] {
        return false;
      }
      tokens := tokens - {t};
      return true;
    }
  }
}
