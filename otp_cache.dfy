/** The one-time-password cache of the verification cog: a dictionary from a user id to the
    code issued to that user and the time it stops being valid, with lazy eviction on lookup
    and a periodic sweep. Times are whole seconds; the random code is an input. */
module OtpCache {
  import opened Wrappers

  /** The length of an issued code. */
  const OtpLength: nat := 9
  /** How long a code is valid, in minutes. */
  const OtpExpiresMinutes: nat := 5
  /** Kept by the cog beside the code settings; nothing in the modelled operations reads it. */
  const RequestExpiresMinutes: nat := 15
  const SecondsPerMinute: nat := 60
  /** How long a code is valid, in seconds. */
  const Lifetime: nat := OtpExpiresMinutes * SecondsPerMinute

  /** `string.ascii_letters` followed by `string.digits`: the alphabet codes are drawn from. */
  const AsciiLetters: string := "abcdefghijklmnopqrstuvwxyzABCDEFGHIJKLMNOPQRSTUVWXYZ"
  const Digits: string := "0123456789"
  const Printable: string := AsciiLetters + Digits

  /** One cached `{code, expires}` entry. */
  datatype Entry = Entry(code: string, expires: int)

  type Cache = map<nat, Entry>

  /** The cache after an operation, and what the operation returned. */
  datatype Step = Step(cache: Cache, result: Option<Entry>)

  /** A string `SystemRandom().choices(printable, k=9)` can produce. */
  predicate IsCode(s: string)
  {
    |s| == OtpLength && forall i :: 0 <= i < |s| ==> s[i] in Printable
  }

  /** `get_otp(user)` at time `now`: the entry while it is live, and nothing once its
      expiry has been reached, in which case the entry is removed. No other entry is touched. */
  function Lookup(c: Cache, user: nat, now: int): (s: Step)
    ensures s.result.Some? <==> user in c && now < c[user].expires
    ensures s.result.Some? ==> s.result.value == c[user]
    ensures s.cache.Keys == if user in c && c[user].expires <= now then c.Keys - {user} else c.Keys
    ensures forall u :: u in s.cache ==> s.cache[u] == c[u]
  {
    if user !in c then Step(c, None)
    else if c[user].expires <= now then Step(c - {user}, None)
    else Step(c, Some(c[user]))
  }

  /** `generate_otp(user)` at time `now`, drawing the code `draw`: a user with an entry gets
      what `get_otp` answers; a user without one gets a new entry valid for `Lifetime`. */
  function Generate(c: Cache, user: nat, now: int, draw: string): (s: Step)
    requires IsCode(draw)
    ensures s.result.Some? ==> user in s.cache && s.cache[user] == s.result.value
    ensures s.result.Some? ==> now < s.result.value.expires
    ensures user !in c ==> s.result.Some? && IsCode(s.result.value.code)
  {
    if user in c then Lookup(c, user, now)
    else
      var e := Entry(draw, now + Lifetime);
      Step(c[user := e], Some(e))
  }

  /** One pass of `clear_cache`: the entries whose expiry lies strictly before `now` go. */
  function Sweep(c: Cache, now: int): (c': Cache)
    ensures forall u :: u in c' <==> u in c && now <= c[u].expires
    ensures forall u :: u in c' ==> c'[u] == c[u]
  {
    map u | u in c && now <= c[u].expires :: c[u]
  }

  /** A user without an entry is issued the drawn code, valid for five minutes from `now`;
      only that user's key is written. */
  lemma GenerateFresh(c: Cache, user: nat, now: int, draw: string)
    requires IsCode(draw) && user !in c
    ensures var s := Generate(c, user, now, draw);
      && s.result == Some(Entry(draw, now + Lifetime))
      && IsCode(s.result.value.code)
      && s.cache.Keys == c.Keys + {user}
      && forall u :: u in c ==> s.cache[u] == c[u]
  {
  }

  /** A user whose entry is live gets that same entry back, and the cache is unchanged. */
  lemma GenerateLive(c: Cache, user: nat, now: int, draw: string)
    requires IsCode(draw) && user in c && now < c[user].expires
    ensures Generate(c, user, now, draw) == Step(c, Some(c[user]))
  {
  }

  /** A user whose entry is present but expired gets nothing, and no new code is issued:
      the entry is only removed. */
  lemma GenerateExpired(c: Cache, user: nat, now: int, draw: string)
    requires IsCode(draw) && user in c && c[user].expires <= now
    ensures Generate(c, user, now, draw) == Step(c - {user}, None)
  {
  }

  /** Asking again while the returned code is live, whatever is drawn, yields the same code:
      two live codes are never issued to one user. */
  lemma NoSecondLiveCode(c: Cache, user: nat, now: int, later: int, d1: string, d2: string)
    requires IsCode(d1) && IsCode(d2)
    requires Generate(c, user, now, d1).result.Some?
    requires later < Generate(c, user, now, d1).result.value.expires
    ensures var s := Generate(c, user, now, d1);
      Generate(s.cache, user, later, d2) == Step(s.cache, s.result)
  {
  }

  /** After an expired entry is dropped, the next request issues a fresh code. */
  lemma ExpiredThenFresh(c: Cache, user: nat, now: int, d1: string, d2: string)
    requires IsCode(d1) && IsCode(d2) && user in c && c[user].expires <= now
    ensures var s := Generate(c, user, now, d1);
      s.result == None && Generate(s.cache, user, now, d2).result == Some(Entry(d2, now + Lifetime))
  {
  }

  /** `get_otp` returns a newly issued code until five minutes have passed, and nothing after. */
  lemma GetAfterGenerate(c: Cache, user: nat, now: int, t: int, draw: string)
    requires IsCode(draw) && user !in c && now <= t
    ensures var s := Generate(c, user, now, draw);
      && (t < now + Lifetime ==> Lookup(s.cache, user, t).result == Some(Entry(draw, now + Lifetime)))
      && (t >= now + Lifetime ==> Lookup(s.cache, user, t).result == None)
  {
  }

  /** A sweep never changes what `get_otp` answers at the same time, for any user: it only
      drops entries the lookup would not return anyway. */
  lemma {:induction false} SweepAgreesWithLookup(c: Cache, now: int, user: nat)
    ensures Lookup(Sweep(c, now), user, now).result == Lookup(c, user, now).result
  {
    if user in c && now <= c[user].expires {
      assert user in Sweep(c, now) && Sweep(c, now)[user] == c[user];
    } else {
      assert user !in Sweep(c, now);
    }
  }

  /** At the expiry instant the two evictions disagree: `get_otp` removes the entry (`<=`)
      while the sweep keeps it (`<`). */
  lemma BoundaryAsymmetry(c: Cache, now: int, user: nat)
    requires user in c && c[user].expires == now
    ensures user in Sweep(c, now)
    ensures user !in Lookup(c, user, now).cache && Lookup(c, user, now).result == None
  {
  }

  /** A second sweep at the same time or earlier removes nothing more. */
  lemma SweepIdempotent(c: Cache, now: int, earlier: int)
    requires earlier <= now
    ensures Sweep(Sweep(c, now), earlier) == Sweep(c, now)
  {
  }

  /** The cog's dictionary `__verify_otp`. */
  class Verification {
    var otps: Cache

    /** A new cog starts with no codes. */
    constructor ()
      ensures otps == map[]
    {
      otps := map[];
    }

    /** `get_otp(user)` at time `now`. */
    method GetOtp(user: nat, now: int) returns (e: Option<Entry>)
      modifies this
      ensures Step(otps, e) == Lookup(old(otps), user, now)
    {
      if user !in otps {
        return None;
      }
      var result := otps[user];
      if result.expires <= now {
        otps := otps - {user};
        return None;
      }
      e := Some(result);
    }

    /** `generate_otp(user)` at time `now`, with `draw` standing for the random choices. */
    method GenerateOtp(user: nat, now: int, draw: string) returns (e: Option<Entry>)
      requires IsCode(draw)
      modifies this
      ensures Step(otps, e) == Generate(old(otps), user, now, draw)
    {
      if user in otps {
        e := GetOtp(user, now);
        return;
      }
      var data := Entry(draw, now + OtpExpiresMinutes * SecondsPerMinute);
      otps := otps[user := data];
      e := Some(data);
    }

    /** One pass of the `clear_cache` loop at time `now`: walks a copy of the dictionary and
        deletes each entry whose expiry is strictly before `now`. */
    method SweepOnce(now: int)
      modifies this
      ensures otps == Sweep(old(otps), now)
    {
      var snapshot := otps;
      var rest := snapshot.Keys;
      while rest != {}
        invariant rest <= snapshot.Keys
        invariant otps.Keys == set u | u in snapshot && (u in rest || now <= snapshot[u].expires)
        invariant forall u :: u in otps ==> otps[u] == snapshot[u]
        decreases rest
      {
        var user :| user in rest;
        if snapshot[user].expires < now {
          otps := otps - {user};
        }
        rest := rest - {user};
      }
      assert otps.Keys == Sweep(snapshot, now).Keys;
    }
  }
}
