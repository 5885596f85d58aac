/** Timestamps in a list and the half-open windows `(lo, hi]` over them, as both the rate limiter and the
    ban manager use them.  Lists grow at the end, so every function here recurses from the end. */
module Windows {

  /** The timestamps later than `cutoff`, in order: the comprehension `[t for t in ts if t > cutoff]`. */
  function After(ts: seq<real>, cutoff: real): seq<real> {
    if ts == [] then [] else
      var rest := After(ts[..|ts| - 1], cutoff);
      if ts[|ts| - 1] > cutoff then rest + [ts[|ts| - 1]] else rest
  }

  /** How many timestamps lie in the half-open window `(lo, hi]`. */
  function CountIn(ts: seq<real>, lo: real, hi: real): nat {
    if ts == [] then 0 else
      CountIn(ts[..|ts| - 1], lo, hi) + (if lo < ts[|ts| - 1] <= hi then 1 else 0)
  }

  predicate AllUpTo(ts: seq<real>, bound: real) {
    ts == [] || (ts[|ts| - 1] <= bound && AllUpTo(ts[..|ts| - 1], bound))
  }

  predicate Ordered(ts: seq<real>) {
    ts == [] || (AllUpTo(ts[..|ts| - 1], ts[|ts| - 1]) && Ordered(ts[..|ts| - 1]))
  }

  lemma {:induction false} AllUpToRaised(ts: seq<real>, bound: real, higher: real)
    requires AllUpTo(ts, bound) && bound <= higher
    ensures AllUpTo(ts, higher)
  {
    if ts != [] {
      AllUpToRaised(ts[..|ts| - 1], bound, higher);
    }
  }

  /** The recursive definitions say what they should about the indices. */
  lemma {:induction false} AllUpToIndexed(ts: seq<real>, bound: real)
    ensures AllUpTo(ts, bound) <==> forall i :: 0 <= i < |ts| ==> ts[i] <= bound
  {
    if ts != [] {
      AllUpToIndexed(ts[..|ts| - 1], bound);
    }
  }

  lemma OrderedIndexed(ts: seq<real>)
    ensures Ordered(ts) <==> forall i, j :: 0 <= i < j < |ts| ==> ts[i] <= ts[j]
  {
    if Ordered(ts) {
      forall i, j | 0 <= i < j < |ts| ensures ts[i] <= ts[j] {
        OrderedPair(ts, i, j);
      }
    }
    if forall i, j :: 0 <= i < j < |ts| ==> ts[i] <= ts[j] {
      OrderedByPairs(ts);
    }
  }

  lemma {:induction false} OrderedPair(ts: seq<real>, i: nat, j: nat)
    requires Ordered(ts) && i < j < |ts|
    ensures ts[i] <= ts[j]
  {
    var n := |ts| - 1;
    if j < n {
      OrderedPair(ts[..n], i, j);
    } else {
      AllUpToIndexed(ts[..n], ts[n]);
      assert ts[..n][i] == ts[i];
    }
  }

  lemma {:induction false} OrderedByPairs(ts: seq<real>)
    requires forall i, j :: 0 <= i < j < |ts| ==> ts[i] <= ts[j]
    ensures Ordered(ts)
  {
    if ts != [] {
      var n := |ts| - 1;
      OrderedByPairs(ts[..n]);
      AllUpToIndexed(ts[..n], ts[n]);
    }
  }

  lemma OrderedAppend(ts: seq<real>, t: real)
    requires Ordered(ts) && AllUpTo(ts, t)
    ensures Ordered(ts + [t]) && AllUpTo(ts + [t], t)
  {
    assert (ts + [t])[..|ts|] == ts;
  }

  lemma {:induction false} AfterAppend(ts: seq<real>, t: real, cutoff: real)
    ensures After(ts + [t], cutoff) == After(ts, cutoff) + (if t > cutoff then [t] else [])
  {
    assert (ts + [t])[..|ts|] == ts;
  }

  lemma {:induction false} CountInAppend(ts: seq<real>, t: real, lo: real, hi: real)
    ensures CountIn(ts + [t], lo, hi) == CountIn(ts, lo, hi) + (if lo < t <= hi then 1 else 0)
  {
    assert (ts + [t])[..|ts|] == ts;
  }

  /** When nothing lies beyond `hi`, filtering by the lower end alone counts the window. */
  lemma {:induction false} AfterCounts(ts: seq<real>, lo: real, hi: real)
    requires AllUpTo(ts, hi)
    ensures |After(ts, lo)| == CountIn(ts, lo, hi)
  {
    if ts != [] {
      AfterCounts(ts[..|ts| - 1], lo, hi);
    }
  }

  /** Filtering twice is filtering once by the later cutoff. */
  lemma {:induction false} AfterTwice(ts: seq<real>, early: real, late: real)
    requires early <= late
    ensures After(After(ts, early), late) == After(ts, late)
  {
    if ts != [] {
      var init, t := ts[..|ts| - 1], ts[|ts| - 1];
      AfterTwice(init, early, late);
      if t > early {
        AfterAppend(After(init, early), t, late);
      }
    }
  }

  /** What survives a filter was in the list, so it keeps every upper bound and the order. */
  lemma {:induction false} AfterKeepsShape(ts: seq<real>, cutoff: real, bound: real)
    requires AllUpTo(ts, bound) && Ordered(ts)
    ensures AllUpTo(After(ts, cutoff), bound) && Ordered(After(ts, cutoff))
  {
    if ts != [] {
      var init, t := ts[..|ts| - 1], ts[|ts| - 1];
      AllUpToRaised(init, t, bound);
      AfterKeepsShape(init, cutoff, bound);
      AfterKeepsShape(init, cutoff, t);
      assert (After(init, cutoff) + [t])[..|After(init, cutoff)|] == After(init, cutoff);
    }
  }

  lemma {:induction false} AfterIsEmpty(ts: seq<real>, cutoff: real)
    requires AllUpTo(ts, cutoff)
    ensures After(ts, cutoff) == []
  {
    if ts != [] {
      AfterIsEmpty(ts[..|ts| - 1], cutoff);
    }
  }

  /** A wider window counts at least as much. */
  lemma {:induction false} CountInWidens(ts: seq<real>, lo: real, hi: real, lo': real, hi': real)
    requires lo' <= lo && hi <= hi'
    ensures CountIn(ts, lo, hi) <= CountIn(ts, lo', hi')
  {
    if ts != [] {
      CountInWidens(ts[..|ts| - 1], lo, hi, lo', hi');
    }
  }

  /** Raising `hi` past the largest timestamp changes nothing. */
  lemma {:induction false} CountInClips(ts: seq<real>, lo: real, hi: real, last: real)
    requires AllUpTo(ts, last) && last <= hi
    ensures CountIn(ts, lo, hi) == CountIn(ts, lo, last)
  {
    if ts != [] {
      CountInClips(ts[..|ts| - 1], lo, hi, last);
    }
  }
}
