/** The in-memory sliding-window rate limiter of src/brain/security/resilience.py.

    The limiter forgets: each `Allow` drops the caller's expired timestamps, and an occasional sweep drops whole
    keys after looking at their last timestamp only.  The ghost field `history` forgets nothing; every answer is
    specified against it. */
module RateLimiting {
  import opened Windows

  /** `h` could have been produced by admitting each entry only while fewer than `limit` earlier ones were
      younger than `window`. */
  predicate Admitted(h: seq<real>, limit: int, window: real) {
    h == [] || (CountIn(h[..|h| - 1], h[|h| - 1] - window, h[|h| - 1]) < limit
                && Admitted(h[..|h| - 1], limit, window))
  }

  /** What is left of the allowance at `now`, computed from the complete history. */
  function Budget(h: seq<real>, limit: int, window: real, now: real): nat {
    var used := CountIn(h, now - window, now);
    if used >= limit then 0 else limit - used
  }

  /** How many of `n` successive requests at the one instant `now` are admitted. */
  function Burst(h: seq<real>, limit: int, window: real, now: real, n: nat): nat
    decreases n
  {
    if n == 0 then 0
    else if CountIn(h, now - window, now) < limit then 1 + Burst(h + [now], limit, window, now, n - 1)
    else Burst(h, limit, window, now, n - 1)
  }

  /** What is stored for a key and its full history agree on everything still inside the window at `clock`. */
  predicate Agree(stored: seq<real>, accepted: seq<real>, clock: real, limit: int, window: real) {
    && Ordered(stored) && AllUpTo(stored, clock)
    && Ordered(accepted) && AllUpTo(accepted, clock)
    && After(stored, clock - window) == After(accepted, clock - window)
    && Admitted(accepted, limit, window)
  }

  /** Time passing keeps the agreement: what leaves the window leaves it on both sides. */
  lemma AgreeAges(stored: seq<real>, accepted: seq<real>, clock: real, limit: int, window: real, now: real)
    requires Agree(stored, accepted, clock, limit, window) && clock <= now
    ensures Agree(stored, accepted, now, limit, window)
  {
    AllUpToRaised(stored, clock, now);
    AllUpToRaised(accepted, clock, now);
    AfterTwice(stored, clock - window, now - window);
    AfterTwice(accepted, clock - window, now - window);
  }

  /** Dropping the expired timestamps keeps it, and what is left counts the window. */
  lemma AgreePruned(stored: seq<real>, accepted: seq<real>, now: real, limit: int, window: real)
    requires Agree(stored, accepted, now, limit, window)
    ensures Agree(After(stored, now - window), accepted, now, limit, window)
    ensures |After(stored, now - window)| == CountIn(accepted, now - window, now)
  {
    AfterKeepsShape(stored, now - window, now);
    AfterTwice(stored, now - window, now - window);
    AfterCounts(accepted, now - window, now);
  }

  /** Recording one more request on both sides keeps it. */
  lemma AgreeExtends(stored: seq<real>, accepted: seq<real>, now: real, limit: int, window: real)
    requires Agree(stored, accepted, now, limit, window)
    requires CountIn(accepted, now - window, now) < limit
    ensures Agree(stored + [now], accepted + [now], now, limit, window)
  {
    AfterAppend(stored, now, now - window);
    AfterAppend(accepted, now, now - window);
    OrderedAppend(stored, now);
    OrderedAppend(accepted, now);
    AdmittedAppend(accepted, now, limit, window);
    hide After, Ordered, AllUpTo, Admitted, CountIn;
  }

  lemma AdmittedAppend(h: seq<real>, now: real, limit: int, window: real)
    requires Admitted(h, limit, window) && CountIn(h, now - window, now) < limit
    ensures Admitted(h + [now], limit, window)
  {
    assert (h + [now])[..|h|] == h;
  }

  /** Looking at the last stored timestamp alone tells whether anything is left in the window, and a list with
      nothing left may be forgotten altogether. */
  lemma LastTells(stored: seq<real>, accepted: seq<real>, now: real, limit: int, window: real)
    requires Agree(stored, accepted, now, limit, window)
    ensures (stored == [] || stored[|stored| - 1] <= now - window) <==> After(stored, now - window) == []
    ensures After(stored, now - window) == [] ==> Agree([], accepted, now, limit, window)
  {
    if stored != [] && stored[|stored| - 1] <= now - window {
      AllUpToRaised(stored[..|stored| - 1], stored[|stored| - 1], now - window);
      AfterIsEmpty(stored, now - window);
    }
  }

  function Lookup(m: map<string, seq<real>>, key: string): seq<real> {
    if key in m then m[key] else []
  }

  ghost predicate AllKeysAgree(stored: map<string, seq<real>>, accepted: map<string, seq<real>>, clock: real,
                           limit: int, window: real) {
    forall key :: Agree(Lookup(stored, key), Lookup(accepted, key), clock, limit, window)
  }

  lemma AllKeysAgreeAges(stored: map<string, seq<real>>, accepted: map<string, seq<real>>, clock: real,
                     limit: int, window: real, now: real)
    requires AllKeysAgree(stored, accepted, clock, limit, window) && clock <= now
    ensures AllKeysAgree(stored, accepted, now, limit, window)
  {
    forall key ensures Agree(Lookup(stored, key), Lookup(accepted, key), now, limit, window) {
      AgreeAges(Lookup(stored, key), Lookup(accepted, key), clock, limit, window, now);
    }
  }

  /** Touching one key's two lists, so that they still agree, leaves all keys in agreement. */
  lemma AllKeysAgreeUpdated(stored: map<string, seq<real>>, accepted: map<string, seq<real>>, clock: real,
                        limit: int, window: real, key: string,
                        stored': map<string, seq<real>>, accepted': map<string, seq<real>>)
    requires AllKeysAgree(stored, accepted, clock, limit, window)
    requires Agree(Lookup(stored', key), Lookup(accepted', key), clock, limit, window)
    requires forall other :: other != key ==>
               Lookup(stored', other) == Lookup(stored, other) && Lookup(accepted', other) == Lookup(accepted, other)
    ensures AllKeysAgree(stored', accepted', clock, limit, window)
  {
    forall other ensures Agree(Lookup(stored', other), Lookup(accepted', other), clock, limit, window) {
      assert Agree(Lookup(stored, other), Lookup(accepted, other), clock, limit, window);
    }
  }

  class RateLimiter {
    const maxRequests: int
    const window: real
    const pruneInterval: real
    var requests: map<string, seq<real>>
    var lastPrune: real

    ghost var history: map<string, seq<real>>  // every accepted request of every key, never pruned
    ghost var clock: real                      // the latest reading of the clock

    /** The complete list of accepted requests of a key. */
    ghost function Accepted(key: string): seq<real>
      reads this`history
    {
      Lookup(history, key)
    }

    /** For every key, the stored timestamps and the complete history agree on everything still in the window. */
    ghost predicate Valid()
      reads this
    {
      AllKeysAgree(requests, history, clock, maxRequests, window)
    }

    constructor (maxRequests: int, window: real, ghost start: real)
      ensures Valid() && clock == start && history == map[]
      ensures this.maxRequests == maxRequests && this.window == window
    {
      this.maxRequests := maxRequests;
      this.window := window;
      pruneInterval := window * 5.0;
      requests := map[];
      lastPrune := 0.0;
      history := map[];
      clock := start;
    }

    /** In every reachable state, no half-open window of length `window`, wherever it starts, holds more accepted
        requests of a key than allowed. */
    lemma NoWindowExceeds(key: string, s: real)
      requires Valid()
      ensures CountIn(Accepted(key), s, s + window) <= if maxRequests > 0 then maxRequests else 0
    {
      assert Agree(Lookup(requests, key), Lookup(history, key), clock, maxRequests, window);
      EveryWindowIsBounded(Accepted(key), maxRequests, window, s);
    }

    /** Any `maxRequests + 1` admissions of a key in a row span at least the window. */
    lemma RequestsAreSpaced(key: string)
      requires Valid() && maxRequests > 0
      ensures Spaced(Accepted(key), maxRequests, window)
    {
      assert Agree(Lookup(requests, key), Lookup(history, key), clock, maxRequests, window);
      hide Ordered, Admitted, Spaced;
      AdmittedIffSpaced(Accepted(key), maxRequests, window);
    }

    /** The idle sweep inspects only the last timestamp of each key, yet removes exactly the keys with nothing left
        in their window. */
    method PruneIdleKeys(now: real)
      requires Valid() && clock <= now
      modifies this`requests, this`lastPrune, this`clock
      ensures Valid() && clock == now
      ensures now - old(lastPrune) < pruneInterval ==> requests == old(requests) && lastPrune == old(lastPrune)
      ensures now - old(lastPrune) >= pruneInterval ==>
                lastPrune == now &&
                requests == map key | key in old(requests) && After(old(requests)[key], now - window) != []
                            :: old(requests)[key]
    {
      hide Agree, Admitted, CountIn, AllUpTo;
      AllKeysAgreeAges(requests, history, clock, maxRequests, window, now);
      clock := now;
      if now - lastPrune < pruneInterval {
        return;
      }
      lastPrune := now;
      var cutoff := now - window;
      forall key | key in requests
        ensures (requests[key] == [] || requests[key][|requests[key]| - 1] <= cutoff)
           <==> After(requests[key], cutoff) == []
        ensures After(requests[key], cutoff) == [] ==> Agree([], Lookup(history, key), now, maxRequests, window)
      {
        assert Agree(Lookup(requests, key), Lookup(history, key), now, maxRequests, window);
        LastTells(requests[key], Lookup(history, key), now, maxRequests, window);
      }
      var idle := set key | key in requests
                            && (requests[key] == [] || requests[key][|requests[key]| - 1] <= cutoff);
      ghost var before := requests;
      requests := requests - idle;
      forall key ensures Agree(Lookup(requests, key), Lookup(history, key), now, maxRequests, window) {
        assert Agree(Lookup(before, key), Lookup(history, key), now, maxRequests, window);
        if key in idle {
          assert After(before[key], cutoff) == [];
        }
      }
    }

    /** The answer is the one computed from the complete history, and the complete history only ever grows by the
        admitted request. */
    method Allow(key: string, now: real) returns (ok: bool)
      requires Valid() && clock <= now
      modifies this
      ensures Valid() && clock == now
      ensures ok <==> CountIn(old(Accepted(key)), now - window, now) < maxRequests
      ensures Accepted(key) == if ok then old(Accepted(key)) + [now] else old(Accepted(key))
      ensures forall other :: other != key ==> Accepted(other) == old(Accepted(other))
    {
      hide Agree, Admitted, After, CountIn, AllUpTo, Ordered;
      PruneIdleKeys(now);
      var timestamps := if key in requests then requests[key] else [];
      ghost var accepted := Lookup(history, key);
      assert Agree(timestamps, accepted, now, maxRequests, window) by {
        assert timestamps == Lookup(requests, key);
      }
      AgreePruned(timestamps, accepted, now, maxRequests, window);
      var kept := After(timestamps, now - window);
      AllKeysAgreeUpdated(requests, history, now, maxRequests, window, key, requests[key := kept], history);
      requests := requests[key := kept];
      ok := |requests[key]| < maxRequests;
      if ok {
        AgreeExtends(kept, accepted, now, maxRequests, window);
        AllKeysAgreeUpdated(requests, history, now, maxRequests, window, key,
                        requests[key := kept + [now]], history[key := accepted + [now]]);
        requests := requests[key := requests[key] + [now]];
        history := history[key := accepted + [now]];
      }
    }

    /** The number reported is the allowance the complete history leaves; reading it leaves at most an empty
        entry behind. */
    method Remaining(key: string, now: real) returns (n: nat)
      requires Valid() && clock <= now
      modifies this`requests
      ensures Valid() && n == Budget(Accepted(key), maxRequests, window, now)
      ensures forall k :: Lookup(requests, k) == old(Lookup(requests, k))
    {
      assert Agree(Lookup(requests, key), Lookup(history, key), clock, maxRequests, window);
      AgreeAges(Lookup(requests, key), Lookup(history, key), clock, maxRequests, window, now);
      AgreePruned(Lookup(requests, key), Lookup(history, key), now, maxRequests, window);
      if key !in requests {
        AllKeysAgreeUpdated(requests, history, clock, maxRequests, window, key, requests[key := []], history);
        requests := requests[key := []];
      }
      var active := After(requests[key], now - window);
      n := if maxRequests - |active| > 0 then maxRequests - |active| else 0;
    }
  }

  /** Every half-open window of the given length, wherever it starts, holds at most `limit` accepted requests,
      not only those windows that end at a call. */
  lemma {:induction false} EveryWindowIsBounded(h: seq<real>, limit: int, window: real, s: real)
    requires Ordered(h) && Admitted(h, limit, window)
    ensures CountIn(h, s, s + window) <= if limit > 0 then limit else 0
  {
    if h != [] {
      var init, t := h[..|h| - 1], h[|h| - 1];
      EveryWindowIsBounded(init, limit, window, s);
      if s < t <= s + window {
        // The newest entry lies inside: at its admission the window ending at it covered all the others.
        assert CountIn(init, t - window, t) < limit;
        CountInClips(init, s, s + window, t);
        CountInWidens(init, s, t, t - window, t);
      }
    }
  }

  /** Timestamps in order, any `limit + 1` of which in a row span at least the window. */
  predicate Spaced(h: seq<real>, limit: nat, window: real) {
    && (forall i, j :: 0 <= i < j < |h| ==> h[i] <= h[j])
    && forall i, j :: 0 <= i < |h| - limit && j == i + limit ==> h[j] - h[i] >= window
  }

  /** Admitting only while the window ending now has room yields all such logs, and only these. */
  lemma {:induction false} AdmittedIffSpaced(h: seq<real>, limit: nat, window: real)
    requires limit > 0
    ensures Ordered(h) && Admitted(h, limit, window) <==> Spaced(h, limit, window)
  {
    OrderedIndexed(h);
    if h != [] && Ordered(h) {
      var n := |h| - 1;
      var init, t := h[..n], h[n];
      AdmittedIffSpaced(init, limit, window);
      hide CountIn;
      FewerAfterIff(init, t - window, t, limit);
      assert forall i :: 0 <= i < n ==> init[i] == h[i];
      assert Spaced(h, limit, window) <==> Spaced(init, limit, window) && (n < limit || t - h[n - limit] >= window);
    }
  }

  /** Fewer than `limit` of some timestamps in order are later than `lo` if and only if the `limit`-th from the end is
      not. */
  lemma {:induction false} FewerAfterIff(ts: seq<real>, lo: real, hi: real, limit: nat)
    requires Ordered(ts) && AllUpTo(ts, hi) && limit > 0
    ensures CountIn(ts, lo, hi) < limit <==> |ts| < limit || ts[|ts| - limit] <= lo
  {
    if ts != [] {
      var n := |ts| - 1;
      var init, t := ts[..n], ts[n];
      AllUpToRaised(init, t, hi);
      if t <= lo {
        OrderedIndexed(ts);
        AllUpToRaised(init, t, lo);
        NoneAfter(ts, lo, hi);
      } else if limit > 1 {
        FewerAfterIff(init, lo, hi, limit - 1);
      }
    }
  }

  lemma {:induction false} NoneAfter(ts: seq<real>, lo: real, hi: real)
    requires AllUpTo(ts, lo)
    ensures CountIn(ts, lo, hi) == 0
  {
    if ts != [] {
      NoneAfter(ts[..|ts| - 1], lo, hi);
    }
  }

  /** `Remaining` promises the future exactly: of any number of immediate requests, as many succeed as it says,
      provided the window is not empty (or nothing is ever allowed). */
  lemma {:induction false} RemainingIsExact(h: seq<real>, limit: int, window: real, now: real)
    requires AllUpTo(h, now)
    ensures (window > 0.0 || limit <= 0)
       <==> forall n: nat :: Burst(h, limit, window, now, n) == if n <= Budget(h, limit, window, now) then n
                                                                 else Budget(h, limit, window, now)
  {
    if window > 0.0 || limit <= 0 {
      forall n: nat
        ensures Burst(h, limit, window, now, n) == if n <= Budget(h, limit, window, now) then n
                                                   else Budget(h, limit, window, now)
      {
        BurstFills(h, limit, window, now, n);
      }
    } else {
      // An empty window never fills up, yet the budget is finite.
      EmptyWindowCountsNothing(h, now - window, now);
      var n := limit as nat + 1;
      BurstUnlimited(h, limit, window, now, n);
      assert Burst(h, limit, window, now, n) == n;
    }
  }

  lemma {:induction false} BurstFills(h: seq<real>, limit: int, window: real, now: real, n: nat)
    requires window > 0.0 || limit <= 0
    ensures Burst(h, limit, window, now, n) == if n <= Budget(h, limit, window, now) then n
                                               else Budget(h, limit, window, now)
    decreases n
  {
    if n > 0 {
      CountInAppend(h, now, now - window, now);
      if CountIn(h, now - window, now) < limit {
        BurstFills(h + [now], limit, window, now, n - 1);
      } else {
        BurstFills(h, limit, window, now, n - 1);
      }
    }
  }

  lemma {:induction false} EmptyWindowCountsNothing(h: seq<real>, lo: real, hi: real)
    requires hi <= lo
    ensures CountIn(h, lo, hi) == 0
  {
    if h != [] {
      EmptyWindowCountsNothing(h[..|h| - 1], lo, hi);
    }
  }

  lemma {:induction false} BurstUnlimited(h: seq<real>, limit: int, window: real, now: real, n: nat)
    requires window <= 0.0 && limit > 0
    ensures Burst(h, limit, window, now, n) == n
    decreases n
  {
    EmptyWindowCountsNothing(h, now - window, now);
    if n > 0 {
      BurstUnlimited(h + [now], limit, window, now, n - 1);
    }
  }
}
