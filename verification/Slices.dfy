/** Python's slices. */
module Slices {

  /** Where a slice bound lies in a list of length `n`: negative bounds count from the end. */
  function Bound(i: int, n: nat): (b: nat)
    ensures b <= n
  {
    if i >= n then n else if i >= 0 then i else if n + i >= 0 then n + i else 0
  }

  /** `s[lo:hi]`. */
  function Slice<T>(s: seq<T>, lo: int, hi: int): seq<T> {
    var a, b := Bound(lo, |s|), Bound(hi, |s|);
    if a <= b then s[a..b] else []
  }

  lemma FrontIsPrefix<T>(s: seq<T>, n: int)
    ensures Slice(s, 0, n) <= s
  {}
}
