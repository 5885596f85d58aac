/** Hash-chained logs, as src/brain/security/action_ledger.py and audit_log.py keep them: every entry carries the hash
    of its predecessor and a hash over its own content. */
module HashChain {

  datatype Entry<Body> = Entry(body: Body, prev: string, hash: string)

  function LastHash<B>(entries: seq<Entry<B>>): string {
    if entries == [] then "" else entries[|entries| - 1].hash
  }

  /** What chain verification accepts: entries linked from the empty hash on, each with the hash of its content. */
  predicate Verifies<B>(mac: (B, string) -> string, entries: seq<Entry<B>>) {
    || entries == []
    || (&& Verifies(mac, entries[..|entries| - 1])
        && entries[|entries| - 1].prev == LastHash(entries[..|entries| - 1])
        && entries[|entries| - 1].hash == mac(entries[|entries| - 1].body, entries[|entries| - 1].prev))
  }

  lemma VerifiesOneMore<B>(mac: (B, string) -> string, entries: seq<Entry<B>>, e: Entry<B>)
    ensures Verifies(mac, entries + [e]) <==>
              Verifies(mac, entries) && e.prev == LastHash(entries) && e.hash == mac(e.body, e.prev)
    ensures LastHash(entries + [e]) == e.hash
  {
    assert (entries + [e])[..|entries|] == entries;
  }

  /** The verification loop both logs share. */
  method VerifyEntries<B>(mac: (B, string) -> string, entries: seq<Entry<B>>) returns (ok: bool)
    ensures ok <==> Verifies(mac, entries)
  {
    var prevHash := "";
    for n := 0 to |entries|
      invariant Verifies(mac, entries[..n]) && prevHash == LastHash(entries[..n])
    {
      var entry := entries[n];
      assert entries[..n + 1][..n] == entries[..n];
      if entry.prev != prevHash {
        PrefixVerifies(mac, entries, n + 1);
        return false;
      }
      if entry.hash != mac(entry.body, entry.prev) {
        PrefixVerifies(mac, entries, n + 1);
        return false;
      }
      prevHash := entry.hash;
    }
    assert entries[..|entries|] == entries;
    ok := true;
  }

  /** Cutting entries off the end goes unnoticed. */
  lemma {:induction false} PrefixVerifies<B>(mac: (B, string) -> string, entries: seq<Entry<B>>, n: nat)
    requires n <= |entries|
    ensures Verifies(mac, entries) ==> Verifies(mac, entries[..n])
  {
    if n == |entries| {
      assert entries[..n] == entries;
    } else {
      PrefixVerifies(mac, entries[..|entries| - 1], n);
      assert entries[..|entries| - 1][..n] == entries[..n];
    }
  }

  ghost predicate NeverEmpty<B(!new)>(mac: (B, string) -> string) {
    forall b: B, p: string :: mac(b, p) != ""
  }

  /** The hash tells apart contents in the domain `good`. */
  ghost predicate InjectiveOn<B(!new)>(mac: (B, string) -> string, good: (B, string) -> bool) {
    forall b: B, p: string, c: B, q: string ::
      good(b, p) && good(c, q) && mac(b, p) == mac(c, q) ==> b == c && p == q
  }

  /** Less than that: it tells apart contents in the domain that are linked differently. */
  ghost predicate TellsLinks<B(!new)>(mac: (B, string) -> string, good: (B, string) -> bool) {
    forall b: B, p: string, c: B, q: string :: good(b, p) && good(c, q) && mac(b, p) == mac(c, q) ==> p == q
  }

  ghost predicate Within<B>(good: (B, string) -> bool, entries: seq<Entry<B>>) {
    forall i :: 0 <= i < |entries| ==> good(entries[i].body, entries[i].prev)
  }

  /** Everything else is noticed: two accepted logs with the same final hash are the same, entry for entry, as far as
      the hash tells their contents apart.  So no edit, insertion, reordering or deletion before the last entry is
      accepted. */
  lemma {:induction false} FinalHashDetermines<B(!new)>(mac: (B, string) -> string, good: (B, string) -> bool,
                                                        a: seq<Entry<B>>, b: seq<Entry<B>>)
    requires NeverEmpty(mac) && InjectiveOn(mac, good) && Within(good, a) && Within(good, b)
    requires Verifies(mac, a) && Verifies(mac, b) && LastHash(a) == LastHash(b)
    ensures a == b
  {
    if a != [] && b != [] {
      var s, t := a[..|a| - 1], b[..|b| - 1];
      FinalHashDetermines(mac, good, s, t);
      assert a == s + [a[|a| - 1]] && b == t + [b[|b| - 1]];
    }
  }

  // ----- entries that get lost -----

  /** The entries that are kept, in order. */
  function Kept<B>(entries: seq<Entry<B>>, keep: seq<bool>): seq<Entry<B>>
    requires |keep| == |entries|
  {
    if entries == [] then [] else
      var n := |entries| - 1;
      Kept(entries[..n], keep[..n]) + (if keep[n] then [entries[n]] else [])
  }

  /** Nothing is kept after something that is not. */
  predicate CutOff(keep: seq<bool>) {
    forall i, j :: 0 <= i < j < |keep| && keep[j] ==> keep[i]
  }

  lemma {:induction false} CutOffKeepsPrefix<B>(entries: seq<Entry<B>>, keep: seq<bool>)
    requires |keep| == |entries| && CutOff(keep)
    ensures |Kept(entries, keep)| <= |entries| && Kept(entries, keep) == entries[..|Kept(entries, keep)|]
    ensures |Kept(entries, keep)| == |entries| <==> forall i :: 0 <= i < |keep| ==> keep[i]
  {
    if entries != [] {
      var n := |entries| - 1;
      CutOffKeepsPrefix(entries[..n], keep[..n]);
      assert forall i :: 0 <= i < n ==> keep[..n][i] == keep[i];
      if keep[n] {
        assert entries == entries[..n] + [entries[n]];
      }
    }
  }

  /** Losing entries of an accepted log goes unnoticed if and only if they are cut off the end. */
  lemma {:induction false} OnlyCuttingOffGoesUnnoticed<B(!new)>(mac: (B, string) -> string,
                                                                good: (B, string) -> bool,
                                                                entries: seq<Entry<B>>, keep: seq<bool>)
    requires NeverEmpty(mac) && TellsLinks(mac, good) && Within(good, entries) && Verifies(mac, entries)
    requires |keep| == |entries|
    ensures Verifies(mac, Kept(entries, keep)) <==> CutOff(keep)
  {
    hide Verifies, TellsLinks, LastHash;
    if entries == [] {
      NothingKept<B>(mac);
      assert Kept(entries, keep) == [];
    } else {
      var n := |entries| - 1;
      var init, kept := entries[..n], Kept(entries[..n], keep[..n]);
      assert entries == init + [entries[n]];
      VerifiesOneMore(mac, init, entries[n]);
      OnlyCuttingOffGoesUnnoticed(mac, good, init, keep[..n]);
      CutOffOneMore(keep);
      assert kept + [] == kept;
      if keep[n] {
        VerifiesOneMore(mac, kept, entries[n]);
        if CutOff(keep[..n]) {
          CutOffKeepsPrefix(init, keep[..n]);
          LastHashTells(mac, good, init, |kept|);
        }
      }
    }
  }

  lemma NothingKept<B>(mac: (B, string) -> string)
    ensures Verifies(mac, [])
  {}

  lemma CutOffOneMore(keep: seq<bool>)
    requires keep != []
    ensures var n := |keep| - 1;
            CutOff(keep) <==> CutOff(keep[..n]) && (keep[n] ==> forall i :: 0 <= i < n ==> keep[..n][i])
  {
    var n := |keep| - 1;
    assert forall i :: 0 <= i < n ==> keep[..n][i] == keep[i];
  }

  /** In an accepted log no proper first part ends with the hash the whole ends with. */
  lemma {:induction false} LastHashTells<B(!new)>(mac: (B, string) -> string, good: (B, string) -> bool,
                                                  entries: seq<Entry<B>>, m: nat)
    requires NeverEmpty(mac) && TellsLinks(mac, good) && Within(good, entries) && Verifies(mac, entries)
    requires m <= |entries|
    ensures LastHash(entries[..m]) == LastHash(entries) <==> m == |entries|
  {
    if m < |entries| {
      var init, e := entries[..|entries| - 1], entries[|entries| - 1];
      PrefixVerifies(mac, entries, m);
      if m > 0 {
        var f := entries[m - 1];
        assert entries[..m][..m - 1] == init[..m - 1] && entries[..m][m - 1] == f;
        LastHashTells(mac, good, init, m - 1);
        assert f.hash == mac(f.body, f.prev) && e.hash == mac(e.body, e.prev);
      }
    } else {
      assert entries[..m] == entries;
    }
  }

  // ----- the front of what is kept -----

  function NoneKept(n: nat): (keep: seq<bool>)
    ensures |keep| == n
  {
    seq(n, _ => false)
  }

  lemma {:induction false} NoneIsKept<B>(entries: seq<Entry<B>>)
    ensures Kept(entries, NoneKept(|entries|)) == []
  {
    if entries != [] {
      var n := |entries| - 1;
      NoneIsKept(entries[..n]);
      assert NoneKept(n + 1)[..n] == NoneKept(n);
    }
  }

  lemma KeptGrows<B>(entries: seq<Entry<B>>, keep: seq<bool>, e: Entry<B>, k: bool)
    requires |keep| == |entries|
    ensures Kept(entries + [e], keep + [k]) == Kept(entries, keep) + (if k then [e] else [])
  {
    assert (entries + [e])[..|entries|] == entries && (keep + [k])[..|keep|] == keep;
  }

  /** The first `n` entries are kept. */
  predicate FrontKept(keep: seq<bool>, n: nat) {
    n <= |keep| && forall i :: 0 <= i < n ==> keep[i]
  }

  lemma FrontKeptGrows(keep: seq<bool>, k: bool, n: nat)
    requires n <= |keep| + 1
    ensures FrontKept(keep + [k], n) <==> FrontKept(keep, if n <= |keep| then n else |keep|) && (n <= |keep| || k)
  {
    var grown := keep + [k];
    assert grown[|keep|] == k && grown[..|keep|] == keep;
    assert forall i :: 0 <= i < |keep| ==> grown[i] == keep[i];
    assert forall i :: 0 <= i < |keep| ==> keep[i] == grown[i];
  }

  /** The first `n` kept entries are what is kept of the first `m`, which end with a kept one. */
  predicate EndsAt<B(==)>(entries: seq<Entry<B>>, keep: seq<bool>, n: nat, m: nat)
    requires |keep| == |entries|
  {
    && 0 < n <= m <= |entries| && n <= |Kept(entries, keep)|
    && keep[m - 1] && Kept(entries, keep)[n - 1] == entries[m - 1]
    && Kept(entries[..m], keep[..m]) == Kept(entries, keep)[..n]
    && (FrontKept(keep, n) <==> m == n)
  }

  lemma TakeOfLonger<T>(s: seq<T>, x: T, n: nat)
    requires n <= |s|
    ensures (s + [x])[..n] == s[..n] && (n > 0 ==> (s + [x])[n - 1] == s[n - 1])
  {}

  lemma EndsAtGrows<B>(entries: seq<Entry<B>>, keep: seq<bool>, e: Entry<B>, k: bool, n: nat, m: nat)
    requires |keep| == |entries| && EndsAt(entries, keep, n, m)
    ensures EndsAt(entries + [e], keep + [k], n, m)
  {
    hide Kept, FrontKept;
    KeptGrows(entries, keep, e, k);
    var kept := Kept(entries, keep);
    FrontKeptGrows(keep, k, n);
    TakeOfLonger(entries, e, m);
    TakeOfLonger(keep, k, m);
    assert kept + [] == kept;
    TakeOfLonger(kept, e, n);
  }

  lemma FrontOfLast<B>(entries: seq<Entry<B>>, keep: seq<bool>)
    requires |keep| == |entries|
    ensures |Kept(entries, keep)| <= |entries|
    ensures FrontKept(keep + [true], |Kept(entries, keep)| + 1) <==> |Kept(entries, keep)| == |entries|
  {
    hide Kept, FrontKept;
    var n := |Kept(entries, keep)| + 1;
    FrontIsKept(entries, keep, if n <= |entries| then n else |entries|);
    FrontKeptGrows(keep, true, n);
  }

  lemma TakeAll<T>(s: seq<T>)
    ensures s[..|s|] == s
  {}

  lemma EndsAtLast<B>(entries: seq<Entry<B>>, keep: seq<bool>, e: Entry<B>)
    requires |keep| == |entries|
    ensures EndsAt(entries + [e], keep + [true], |Kept(entries, keep)| + 1, |entries| + 1)
  {
    hide Kept, FrontKept;
    KeptGrows(entries, keep, e, true);
    FrontOfLast(entries, keep);
    TakeAll(entries + [e]);
    TakeAll(keep + [true]);
    TakeAll(Kept(entries, keep) + [e]);
  }

  /** There is such an `m`. */
  lemma {:induction false} KeptUpTo<B>(entries: seq<Entry<B>>, keep: seq<bool>, n: nat) returns (m: nat)
    requires |keep| == |entries| && 0 < n <= |Kept(entries, keep)|
    ensures EndsAt(entries, keep, n, m)
  {
    hide FrontKept, EndsAt;
    var init, before := entries[..|entries| - 1], keep[..|keep| - 1];
    var last, k := entries[|entries| - 1], keep[|keep| - 1];
    assert entries == init + [last] && keep == before + [k];
    if n <= |Kept(init, before)| {
      m := KeptUpTo(init, before, n);
      EndsAtGrows(init, before, last, k, n, m);
    } else {
      m := |entries|;
      EndsAtLast(init, before, last);
    }
  }

  lemma {:induction false} FrontIsKept<B>(entries: seq<Entry<B>>, keep: seq<bool>, n: nat)
    requires |keep| == |entries| && n <= |entries|
    ensures FrontKept(keep, n) ==> n <= |Kept(entries, keep)| && Kept(entries, keep)[..n] == entries[..n]
    ensures |Kept(entries, keep)| <= |entries|
    ensures |Kept(entries, keep)| == |entries| ==> FrontKept(keep, |keep|)
  {
    if entries != [] {
      var m := |entries| - 1;
      FrontIsKept(entries[..m], keep[..m], if n <= m then n else m);
      assert entries == entries[..m] + [entries[m]] && keep == keep[..m] + [keep[m]];
      FrontKeptGrows(keep[..m], keep[m], n);
      FrontKeptGrows(keep[..m], keep[m], m + 1);
    }
  }

  /** Losing entries of an accepted log goes unnoticed in the first `n` stored ones if none of the first `n` logged was
      lost, and never if the first of all was. */
  lemma KeptVerifies<B(!new)>(mac: (B, string) -> string, entries: seq<Entry<B>>, keep: seq<bool>, n: nat)
    requires NeverEmpty(mac) && Verifies(mac, entries) && |keep| == |entries| && 0 < n <= |Kept(entries, keep)|
    ensures FrontKept(keep, n) ==> Verifies(mac, Kept(entries, keep)[..n])
    ensures !keep[0] ==> Kept(entries, keep)[0].prev != "" && !Verifies(mac, Kept(entries, keep)[..n])
  {
    if FrontKept(keep, n) {
      FrontIsKept(entries, keep, n);
      PrefixVerifies(mac, entries, n);
    }
    if !keep[0] {
      var m := KeptUpTo(entries, keep, 1);
      PrefixVerifies(mac, entries, m);
      PrefixVerifies(mac, entries, m - 1);
      assert entries[..m][..m - 1] == entries[..m - 1];
      PrefixVerifies(mac, Kept(entries, keep)[..n], 1);
      assert Kept(entries, keep)[..n][..1] == [Kept(entries, keep)[0]];
    }
  }

  /** And in general if and only if none of the first `n` logged was lost. */
  lemma KeptVerifiesIff<B(!new)>(mac: (B, string) -> string, good: (B, string) -> bool, entries: seq<Entry<B>>,
                                 keep: seq<bool>, n: nat)
    requires NeverEmpty(mac) && TellsLinks(mac, good) && Within(good, entries) && Verifies(mac, entries)
    requires |keep| == |entries| && 0 < n <= |Kept(entries, keep)|
    ensures Verifies(mac, Kept(entries, keep)[..n]) <==> FrontKept(keep, n)
  {
    var m := KeptUpTo(entries, keep, n);
    PrefixVerifies(mac, entries, m);
    OnlyCuttingOffGoesUnnoticed(mac, good, entries[..m], keep[..m]);
    KeptVerifies(mac, entries, keep, n);
    hide Verifies, TellsLinks, NeverEmpty, Kept;
    if CutOff(keep[..m]) {
      assert keep[..m][m - 1];
      assert forall i :: 0 <= i < n ==> keep[i] == keep[..m][i];
    }
  }

  /** A log that ends with an entry of an accepted one is accepted if and only if it is that one up to the entry. */
  lemma EndTells<B(!new)>(mac: (B, string) -> string, good: (B, string) -> bool, chain: seq<Entry<B>>,
                          entries: seq<Entry<B>>, m: nat)
    requires NeverEmpty(mac) && InjectiveOn(mac, good) && Within(good, chain) && Verifies(mac, chain)
    requires Verifies(mac, entries) ==> Within(good, entries)
    requires entries != [] && 0 < m <= |chain| && entries[|entries| - 1] == chain[m - 1]
    ensures Verifies(mac, entries) <==> entries == chain[..m]
  {
    hide Verifies, InjectiveOn, NeverEmpty;
    PrefixVerifies(mac, chain, m);
    if Verifies(mac, entries) {
      FinalHashDetermines(mac, good, entries, chain[..m]);
    }
  }
}
