/** The replay-nonce cache of `RequestSigner.verify`, src/brain/security/zero_trust.py.

    The cache is bounded: past 10,000 entries the oldest 5,000 are evicted at once.  The ghost field `accepted` is
    the complete sequence of accepted nonces; the cache is shown to be a suffix of it whose length is a closed
    function of how many requests were accepted so far. */
module ReplayGuarding {

  const MAX_TIMESTAMP_DRIFT: int := 300
  const MAX_NONCE_CACHE: nat := 10_000
  const EVICTED: nat := MAX_NONCE_CACHE / 2

  datatype Message = Message(httpMethod: string, path: string, timestamp: int, nonce: string,
                             componentId: string, bodyHash: string)

  datatype SignedRequest = SignedRequest(timestamp: int, nonce: string, signature: string, componentId: string)

  function Abs(x: int): nat { if x < 0 then -x else x }

  /** The cache length after `total` accepted requests: it grows to the maximum, and from then on moves between
      5,001 and the maximum. */
  function CacheLength(total: nat): nat {
    if total <= MAX_NONCE_CACHE then total
    else MAX_NONCE_CACHE - EVICTED + 1 + (total - MAX_NONCE_CACHE - 1) % EVICTED
  }

  lemma NextRemainder(x: nat)
    ensures (x + 1) % 5_000 == if x % 5_000 == 4_999 then 0 else x % 5_000 + 1
  {
    var d, r := x / 5_000, x % 5_000;
    assert x + 1 == 5_000 * d + r + 1;
    if r == 4_999 {
      assert x + 1 == 5_000 * (d + 1);
    }
  }

  lemma CacheLengthSteps(total: nat)
    ensures CacheLength(total) <= total
    ensures CacheLength(total) <= MAX_NONCE_CACHE
    ensures CacheLength(total) >= if total <= 5_001 then total else 5_001
    ensures CacheLength(total + 1) == if CacheLength(total) == MAX_NONCE_CACHE then 5_001 else CacheLength(total) + 1
  {
    if total > MAX_NONCE_CACHE {
      NextRemainder(total - MAX_NONCE_CACHE - 1);
    }
  }

  /** The part of the log the cache still holds. */
  function Remembered(log: seq<string>): (r: seq<string>)
    ensures |r| == CacheLength(|log|) <= MAX_NONCE_CACHE
  {
    CacheLengthSteps(|log|);
    log[|log| - CacheLength(|log|)..]
  }

  /** Every nonce in the log was, when accepted, different from all the ones remembered at that moment. */
  ghost predicate Guarded(log: seq<string>) {
    forall i :: 0 <= i < |log| ==> log[i] !in Remembered(log[..i])
  }

  datatype Acceptance = Acceptance(request: SignedRequest, at: int)

  /** The accepted requests carry these nonces, and each was accepted within the drift of its timestamp. */
  ghost predicate InTime(nonces: seq<string>, acceptances: seq<Acceptance>) {
    && |acceptances| == |nonces|
    && forall i :: 0 <= i < |nonces| ==>
         && acceptances[i].request.nonce == nonces[i]
         && Abs(acceptances[i].at - acceptances[i].request.timestamp) <= MAX_TIMESTAMP_DRIFT
  }

  lemma NothingAccepted()
    ensures Guarded([]) && Remembered([]) == [] && InTime([], [])
  {}

  lemma InTimeGrows(nonces: seq<string>, acceptances: seq<Acceptance>, request: SignedRequest, now: int)
    requires InTime(nonces, acceptances) && Abs(now - request.timestamp) <= MAX_TIMESTAMP_DRIFT
    ensures InTime(nonces + [request.nonce], acceptances + [Acceptance(request, now)])
  {}

  class RequestSigner {
    const mac: Message -> string
    const digest: seq<bv8> -> string
    var seenNonces: seq<string>        // the ordered dictionary's keys, oldest first

    ghost var accepted: seq<string>    // the nonce of every accepted request, in order
    ghost var acceptances: seq<Acceptance>

    ghost predicate Valid()
      reads this
    {
      && Guarded(accepted)
      && seenNonces == Remembered(accepted)
      && InTime(accepted, acceptances)
    }

    constructor (mac: Message -> string, digest: seq<bv8> -> string)
      ensures Valid() && accepted == [] && this.mac == mac && this.digest == digest
    {
      this.mac := mac;
      this.digest := digest;
      seenNonces := [];
      accepted, acceptances := [], [];
      NothingAccepted();
      hide Guarded, Remembered, InTime;
    }

    /** Accepts exactly the requests that are in time, correctly signed and whose nonce is none of the last
        `CacheLength` accepted ones; a rejected request changes nothing. */
    method Verify(httpMethod: string, path: string, body: seq<bv8>, signed: SignedRequest, now: int) returns (ok: bool)
      requires Valid()
      modifies this
      ensures Valid()
      ensures ok <==>
              && Abs(now - signed.timestamp) <= MAX_TIMESTAMP_DRIFT
              && signed.nonce !in Remembered(old(accepted))
              && signed.signature == mac(Message(httpMethod, path, signed.timestamp, signed.nonce, signed.componentId,
                                                 digest(body)))
      ensures accepted == if ok then old(accepted) + [signed.nonce] else old(accepted)
      ensures acceptances == if ok then old(acceptances) + [Acceptance(signed, now)] else old(acceptances)
      ensures !ok ==> seenNonces == old(seenNonces)
    {
      hide Guarded, Remembered, Abs, InTime;
      if Abs(now - signed.timestamp) > MAX_TIMESTAMP_DRIFT {
        return false;
      }
      if signed.nonce in seenNonces {
        return false;
      }
      var expected := mac(Message(httpMethod, path, signed.timestamp, signed.nonce, signed.componentId, digest(body)));
      if expected != signed.signature {
        return false;
      }
      GuardedGrows(accepted, signed.nonce);
      InTimeGrows(accepted, acceptances, signed, now);
      acceptances := acceptances + [Acceptance(signed, now)];
      accepted := accepted + [signed.nonce];
      seenNonces := seenNonces + [signed.nonce];
      if |seenNonces| > MAX_NONCE_CACHE {
        ghost var full, log, all := seenNonces, accepted, acceptances;
        for i := 0 to EVICTED
          invariant seenNonces == full[i..] && accepted == log && acceptances == all
        {
          seenNonces := seenNonces[1..];
        }
      }
      return true;
    }

    /** In every run, any 5,002 consecutive accepted requests carry pairwise distinct nonces. */
    lemma NoReplayWithin5001(i: nat, j: nat)
      requires Valid() && i < j < |accepted| && j - i <= 5_001
      ensures accepted[i] != accepted[j]
    {
      GuardedSeparates(accepted, i, j);
    }

    /** Nonce and time window together: the same signed request is accepted twice only if at least 5,001 others were
        accepted in between, and that within 600 seconds, if the clock did not go backwards. */
    lemma ReplayNeedsTraffic(i: nat, j: nat)
      requires Valid() && i < j < |acceptances| && acceptances[i].request == acceptances[j].request
      ensures j - i - 1 >= 5_001
      ensures Abs(acceptances[j].at - acceptances[i].at) <= 2 * MAX_TIMESTAMP_DRIFT
      ensures (forall k, l :: 0 <= k < l < |acceptances| ==> acceptances[k].at <= acceptances[l].at) ==>
                forall k :: i <= k <= j ==>
                  acceptances[i].at <= acceptances[k].at <= acceptances[i].at + 2 * MAX_TIMESTAMP_DRIFT
    {
      assert accepted[i] == accepted[j];
      if j - i <= 5_001 {
        NoReplayWithin5001(i, j);
      }
    }

    /** The cache never holds a nonce twice. */
    lemma CacheHasNoDuplicates()
      requires Valid()
      ensures forall i, j :: 0 <= i < j < |seenNonces| ==> seenNonces[i] != seenNonces[j]
    {
      var start := |accepted| - CacheLength(|accepted|);
      forall i, j | 0 <= i < j < |seenNonces| ensures seenNonces[i] != seenNonces[j] {
        CacheReachesBack(|accepted|, start + j);
        GuardedSeparates(accepted, start + i, start + j);
      }
    }
  }

  /** Appending a nonce the cache does not hold keeps the log guarded, and moves the remembered part on as the
      eviction does. */
  lemma GuardedGrows(log: seq<string>, nonce: string)
    requires Guarded(log) && nonce !in Remembered(log)
    ensures Guarded(log + [nonce])
    ensures Remembered(log + [nonce]) == if |Remembered(log)| == MAX_NONCE_CACHE
                                         then (Remembered(log) + [nonce])[EVICTED..]
                                         else Remembered(log) + [nonce]
  {
    RememberedGrows(log, nonce);
    var longer := log + [nonce];
    forall i | 0 <= i < |longer| ensures longer[i] !in Remembered(longer[..i]) {
      if i < |log| {
        assert longer[..i] == log[..i];
        hide Remembered;
      } else {
        assert longer[..i] == log;
        hide Remembered;
      }
    }
    hide Remembered;
  }

  lemma RememberedGrows(log: seq<string>, nonce: string)
    ensures Remembered(log + [nonce]) == if |Remembered(log)| == MAX_NONCE_CACHE
                                         then (Remembered(log) + [nonce])[EVICTED..]
                                         else Remembered(log) + [nonce]
  {
    CacheLengthSteps(|log|);
    var length, after := CacheLength(|log|), CacheLength(|log| + 1);
    assert Remembered(log) == log[|log| - length..];
    assert Remembered(log + [nonce]) == (log + [nonce])[|log| + 1 - after..];
    hide Remembered, CacheLength;
    DropAppended(log, nonce, |log| - length);
    if length == MAX_NONCE_CACHE {
      DropTwice(log + [nonce], |log| - length, EVICTED);
    }
  }

  lemma DropAppended<T>(s: seq<T>, x: T, n: nat)
    requires n <= |s|
    ensures s[n..] + [x] == (s + [x])[n..]
  {}

  lemma DropTwice<T>(s: seq<T>, m: nat, n: nat)
    requires m + n <= |s|
    ensures s[m..][n..] == s[m + n..]
  {}

  /** What the cache holds at a given moment it held, back to the same point, at every moment since. */
  lemma {:induction false} CacheReachesBack(total: nat, earlier: nat)
    requires total - CacheLength(total) <= earlier <= total
    ensures earlier - CacheLength(earlier) <= total - CacheLength(total)
    decreases total - earlier
  {
    if earlier < total {
      CacheLengthSteps(total - 1);
      CacheLengthSteps(earlier);
      CacheReachesBack(total - 1, earlier);
    }
  }

  lemma GuardedSeparates(log: seq<string>, i: nat, j: nat)
    requires Guarded(log) && i < j < |log|
    requires j - CacheLength(j) <= i
    ensures log[i] != log[j]
  {
    CacheLengthSteps(j);
    var prefix := log[..j];
    assert log[j] !in Remembered(prefix);
    assert Remembered(prefix)[i - (j - CacheLength(j))] == log[i];
  }

  /** The time window alone does not stop a replay: a nonce is still refused exactly while the requests accepted
      since it are fewer than the cache length of that moment, however recent its timestamp. */
  lemma RefusedWhileRemembered(log: seq<string>, nonce: string, last: nat)
    requires last < |log| && log[last] == nonce && nonce !in log[last + 1..]
    ensures nonce in Remembered(log) <==> |log| - last <= CacheLength(|log|)
  {
    CacheLengthSteps(|log|);
    var start := |log| - CacheLength(|log|);
    forall k | last < k < |log| ensures log[k] != nonce {
      assert log[k] == log[last + 1..][k - (last + 1)];
    }
    if start <= last {
      assert Remembered(log)[last - start] == nonce;
    }
  }

  function Name(i: nat): (name: string)
    ensures |name| == i
  {
    seq(i, _ => 'n')
  }

  /** 5,002 is the largest such number: a reachable log repeats a nonce at distance 5,002. */
  lemma DistanceIsTight() returns (log: seq<string>)
    ensures Guarded(log) && |log| == 10_002 && log[4_999] == log[10_001]
  {
    var distinct := seq(10_001, i requires i >= 0 => Name(i));
    forall i | 0 <= i < |distinct| ensures distinct[i] !in Remembered(distinct[..i]) {
      CacheLengthSteps(i);
      forall k | 0 <= k < |Remembered(distinct[..i])| ensures |Remembered(distinct[..i])[k]| < i {
        assert Remembered(distinct[..i])[k] == distinct[i - CacheLength(i) + k];
      }
    }
    forall k | 0 <= k < |Remembered(distinct)| ensures Remembered(distinct)[k] != distinct[4_999] {
      assert CacheLength(10_001) == 5_001;
      assert Remembered(distinct)[k] == distinct[5_000 + k];
      assert |distinct[5_000 + k]| == 5_000 + k && |distinct[4_999]| == 4_999;
    }
    GuardedGrows(distinct, distinct[4_999]);
    log := distinct + [distinct[4_999]];
  }
}
