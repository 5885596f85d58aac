/** The encrypted audit log of src/brain/security/audit_log.py: per tenant and month one text of encrypted lines, whose
    entries are chained by hash.

    SHA-256, JSON and AES-GCM are parameters; the nonce each encryption draws is an argument. */
module AuditLogging {
  import opened HashChain
  import opened Options
  import opened Slices
  import opened Texts

  const MAX_ENTRIES_PER_FILE: nat := 10_000

  /** The fields of an entry other than its two hashes; `detail` is its JSON text. */
  datatype Record = Record(timestamp: string, tenant: string, user: string, action: string, resource: string,
                           detail: string)

  type AuditEntry = Entry<Record>

  /** The text an entry's hash is computed over. */
  function Payload(r: Record, prev: string): string { Join(Fields(r, prev), '|') }

  function Fields(r: Record, prev: string): (f: seq<string>)
    ensures |f| == 7
  {
    [r.timestamp, r.tenant, r.user, r.action, r.resource, r.detail, prev]
  }

  datatype Codec = Codec(digest: string -> string, encrypt: (int, string, AuditEntry) -> string,
                         decrypt: (string, string) -> Option<AuditEntry>)
  {
    ghost predicate CollisionFree() { forall s, t :: digest(s) == digest(t) ==> s == t }

    function Mac(): (Record, string) -> string {
      (r: Record, prev: string) => digest(Payload(r, prev))
    }

    /** A digest is hexadecimal; decrypting undoes encrypting, and a ciphertext is one visible line (it is base64). */
    ghost predicate Sound() {
      && (forall text :: digest(text) != "" && '|' !in digest(text))
      && (forall nonce, tenant, e ::
            ProperLine(encrypt(nonce, tenant, e)) && decrypt(tenant, encrypt(nonce, tenant, e)) == Some(e))
    }
  }

  // ----- reading a stored text -----

  function StoredLines(text: string): seq<string> {
    if text == "" then [] else Split(Strip(text), '\n')
  }

  /** The entries read from some lines: what is blank or does not decrypt is passed over. */
  function Opened(codec: Codec, tenant: string, lines: seq<string>): seq<AuditEntry> {
    if lines == [] then [] else
      var before, line := Opened(codec, tenant, lines[..|lines| - 1]), Strip(lines[|lines| - 1]);
      if line == "" then before else
        match codec.decrypt(tenant, line)
        case Some(e) => before + [e]
        case None => before
  }

  function NonBlank(lines: seq<string>): nat {
    if lines == [] then 0
    else NonBlank(lines[..|lines| - 1]) + (if Strip(lines[|lines| - 1]) != "" then 1 else 0)
  }

  lemma OpenedGrows(codec: Codec, tenant: string, lines: seq<string>, n: nat)
    requires n < |lines|
    ensures var line := Strip(lines[n]);
            Opened(codec, tenant, lines[..n + 1]) == Opened(codec, tenant, lines[..n])
              + (if line != "" && codec.decrypt(tenant, line).Some? then [codec.decrypt(tenant, line).value] else [])
  {
    assert lines[..n + 1][..n] == lines[..n];
  }

  // ----- what a text holds -----

  /** The lines are the encrypted entries, in order. */
  ghost predicate Sealed(codec: Codec, tenant: string, lines: seq<string>, entries: seq<AuditEntry>) {
    && |lines| == |entries|
    && ProperLines(lines)
    && forall i :: 0 <= i < |lines| ==> codec.decrypt(tenant, lines[i]) == Some(entries[i])
  }

  ghost predicate Stores(codec: Codec, tenant: string, text: string, entries: seq<AuditEntry>) {
    exists lines :: Sealed(codec, tenant, lines, entries) && text == Lines(lines)
  }

  lemma StoresNothing(codec: Codec, tenant: string)
    ensures Stores(codec, tenant, "", [])
  {
    assert Sealed(codec, tenant, [], []) && Lines([]) == "";
  }

  lemma StoresOneMore(codec: Codec, tenant: string, text: string, entries: seq<AuditEntry>, nonce: int, e: AuditEntry)
    requires codec.Sound() && Stores(codec, tenant, text, entries)
    ensures Stores(codec, tenant, text + codec.encrypt(nonce, tenant, e) + "\n", entries + [e])
  {
    var line := codec.encrypt(nonce, tenant, e);
    var lines :| Sealed(codec, tenant, lines, entries) && text == Lines(lines);
    assert (lines + [line])[..|lines|] == lines;
    assert Sealed(codec, tenant, lines + [line], entries + [e]);
  }

  lemma {:induction false} SealedOpens(codec: Codec, tenant: string, lines: seq<string>, entries: seq<AuditEntry>)
    requires Sealed(codec, tenant, lines, entries)
    ensures Opened(codec, tenant, lines) == entries && NonBlank(lines) == |entries|
  {
    if lines != [] {
      var n := |lines| - 1;
      assert ProperLine(lines[n]);
      StripsOneNewline(lines[n]);
      SealedOpens(codec, tenant, lines[..n], entries[..n]);
    } else {
      assert entries == [];
    }
  }

  lemma StoredLinesReadBack(lines: seq<string>)
    requires ProperLines(lines)
    ensures StoredLines(Lines(lines)) == lines
  {
    if lines != [] {
      LinesReadBack(lines);
    }
  }

  lemma SealedSlice(codec: Codec, tenant: string, lines: seq<string>, entries: seq<AuditEntry>, lo: int, hi: int)
    requires Sealed(codec, tenant, lines, entries)
    ensures Sealed(codec, tenant, Slice(lines, lo, hi), Slice(entries, lo, hi))
  {
    hide ProperLine;
  }

  /** Reading any slice of a stored text gives that slice of the entries. */
  lemma StoredSlice(codec: Codec, tenant: string, text: string, entries: seq<AuditEntry>, lo: int, hi: int)
    requires Stores(codec, tenant, text, entries)
    ensures Opened(codec, tenant, Slice(StoredLines(text), lo, hi)) == Slice(entries, lo, hi)
    ensures NonBlank(StoredLines(text)) == |entries|
  {
    var lines :| Sealed(codec, tenant, lines, entries) && text == Lines(lines);
    hide Opened, NonBlank, StoredLines, Slice;
    StoredLinesReadBack(lines);
    SealedOpens(codec, tenant, lines, entries);
    SealedSlice(codec, tenant, lines, entries, lo, hi);
    SealedOpens(codec, tenant, Slice(lines, lo, hi), Slice(entries, lo, hi));
  }

  // ----- pages -----

  /** What reading page after page yields, `limit` entries at a time from `offset` on. */
  function Pages<T>(s: seq<T>, offset: nat, limit: nat): seq<T>
    requires limit > 0
    decreases |s| - offset
  {
    if offset >= |s| then [] else Slice(s, offset, offset + limit) + Pages(s, offset + limit, limit)
  }

  /** Consecutive pages concatenate to the rest of the log, in order. */
  lemma {:induction false} PagesConcatenate<T>(s: seq<T>, offset: nat, limit: nat)
    requires limit > 0 && offset <= |s|
    ensures Pages(s, offset, limit) == s[offset..]
    decreases |s| - offset
  {
    if offset + limit < |s| {
      PagesConcatenate(s, offset + limit, limit);
      assert s[offset..offset + limit] + s[offset + limit..] == s[offset..];
    } else if offset < |s| {
      assert Pages(s, offset + limit, limit) == [];
    }
  }

  // ----- what is held -----

  /** What a tenant's log of one month comes from: everything the process has logged for the tenant since it started or
      last purged, and which of it is in the month's file. */
  datatype History = History(chain: seq<AuditEntry>, keep: seq<bool>)

  type MonthLog = h: History | |h.keep| == |h.chain| witness History([], [])

  function Stored(h: MonthLog): seq<AuditEntry> { Kept(h.chain, h.keep) }

  /** What of one tenant's log the proofs speak about: the entries of an earlier process still in the file of the month
      this one started in; everything logged since the process started or last purged; and the months it has written to
      or tried to. */
  datatype TenantLog = TenantLog(inherited: seq<AuditEntry>, chain: seq<AuditEntry>, months: map<int, MonthLog>)

  function MonthOf(log: TenantLog, m: int): MonthLog {
    if m in log.months then log.months[m] else History(log.chain, NoneKept(|log.chain|))
  }

  /** The entries of an earlier process in the file of month `m`, when this one started in month `born`. */
  function Found(log: TenantLog, born: int, m: int): seq<AuditEntry> {
    if m == born then log.inherited else []
  }

  function Held(log: TenantLog, born: int, m: int): seq<AuditEntry> { Found(log, born, m) + Stored(MonthOf(log, m)) }

  /** The text kept under a month, empty if none is. */
  function At(texts: map<int, string>, month: int): string {
    if month in texts then texts[month] else ""
  }

  ghost predicate HoldsAt(codec: Codec, tenant: string, texts: map<int, string>, log: TenantLog, born: int, m: int) {
    Stores(codec, tenant, At(texts, m), Held(log, born, m))
  }

  /** The texts hold what the log says. */
  ghost predicate Holds(codec: Codec, tenant: string, texts: map<int, string>, log: TenantLog, born: int) {
    forall m :: born <= m ==> HoldsAt(codec, tenant, texts, log, born, m)
  }

  /** What was logged is a chain, the hash of whose last entry is remembered; `month` is that of the latest call. */
  ghost predicate Chained(codec: Codec, month: int, log: TenantLog, remembered: string) {
    && (forall m :: Verifies(codec.Mac(), MonthOf(log, m).chain))
    && (forall m :: m in log.months ==> m <= month)
    && MonthOf(log, month).chain == log.chain
    && remembered == LastHash(log.chain)
  }

  /** The entry that is logged next. */
  function Next(codec: Codec, r: Record, remembered: string): AuditEntry {
    Entry(r, remembered, codec.Mac()(r, remembered))
  }

  /** The log after logging an entry: a failing read makes the new text start afresh, and an entry whose write fails is
      lost, although its hash is remembered. */
  function Extended(log: TenantLog, born: int, now: int, e: AuditEntry, readable: bool, writable: bool): TenantLog
    requires |MonthOf(log, now).keep| == |log.chain|
  {
    var keep := if readable || !writable then MonthOf(log, now).keep else NoneKept(|log.chain|);
    TenantLog(if now == born && writable && !readable then [] else log.inherited, log.chain + [e],
              log.months[now := History(log.chain + [e], keep + [writable])])
  }

  function Purged(log: TenantLog, born: int, now: int): TenantLog {
    TenantLog(if now == born then [] else log.inherited, [], log.months[now := History([], [])])
  }

  lemma ChainedLater(codec: Codec, month: int, log: TenantLog, remembered: string, now: int)
    requires Chained(codec, month, log, remembered) && month <= now
    ensures Chained(codec, now, log, remembered)
  {}

  lemma ChainedLogged(codec: Codec, born: int, now: int, log: TenantLog, remembered: string, r: Record,
                      readable: bool, writable: bool)
    requires Chained(codec, now, log, remembered)
    ensures var e := Next(codec, r, remembered);
            Chained(codec, now, Extended(log, born, now, e, readable, writable), e.hash)
  {
    var e := Next(codec, r, remembered);
    var after := Extended(log, born, now, e, readable, writable);
    VerifiesOneMore(codec.Mac(), log.chain, e);
    hide Verifies, LastHash, NoneKept;
    assert Verifies(codec.Mac(), MonthOf(log, now).chain);
    forall m ensures Verifies(codec.Mac(), MonthOf(after, m).chain) {
      assert Verifies(codec.Mac(), MonthOf(log, m).chain);
    }
  }

  lemma ChainedPurged(codec: Codec, born: int, now: int, log: TenantLog, remembered: string)
    requires Chained(codec, now, log, remembered)
    ensures Chained(codec, now, Purged(log, born, now), "")
  {
    var after := Purged(log, born, now);
    forall m ensures Verifies(codec.Mac(), MonthOf(after, m).chain) {
      assert Verifies(codec.Mac(), MonthOf(log, m).chain);
    }
  }

  /** What logging an entry does to what the months hold. */
  lemma HeldExtends(log: TenantLog, born: int, now: int, e: AuditEntry, readable: bool, writable: bool)
    requires |MonthOf(log, now).keep| == |log.chain| && MonthOf(log, now).chain == log.chain
    ensures var after := Extended(log, born, now, e, readable, writable);
            Held(after, born, now)
            == (if readable || !writable then Held(log, born, now) else []) + (if writable then [e] else [])
  {
    hide Kept, NoneKept;
    var h := MonthOf(log, now);
    NoneIsKept(log.chain);
    if readable || !writable {
      KeptGrows(log.chain, h.keep, e, writable);
      Associates(Found(log, born, now), Stored(h), if writable then [e] else []);
    } else {
      KeptGrows(log.chain, NoneKept(|log.chain|), e, writable);
    }
  }

  lemma Associates<T>(a: seq<T>, b: seq<T>, c: seq<T>)
    ensures a + (b + c) == a + b + c
  {}

  lemma HeldElsewhere(log: TenantLog, born: int, now: int, e: AuditEntry, readable: bool, writable: bool)
    requires |MonthOf(log, now).keep| == |log.chain|
    ensures var after := Extended(log, born, now, e, readable, writable);
            forall m :: m != now ==> Held(after, born, m) == Held(log, born, m)
  {
    var after := Extended(log, born, now, e, readable, writable);
    NoneIsKept(log.chain);
    NoneIsKept(log.chain + [e]);
    hide Kept, NoneKept;
    forall m | m != now ensures Held(after, born, m) == Held(log, born, m) {}
  }

  lemma HeldPurged(log: TenantLog, born: int, now: int)
    ensures var after := Purged(log, born, now);
            Held(after, born, now) == [] && forall m :: m != now ==> Held(after, born, m) == Held(log, born, m)
  {
    NoneIsKept(log.chain);
    NoneIsKept<Record>([]);
  }

  /** Replacing one month's text, so that it stores what that month's log holds now. */
  lemma StillHolds(codec: Codec, tenant: string, born: int, now: int, texts: map<int, string>, log: TenantLog,
                   texts': map<int, string>, after: TenantLog)
    requires Holds(codec, tenant, texts, log, born)
    requires Stores(codec, tenant, At(texts', now), Held(after, born, now))
    requires forall m :: m != now ==> Held(after, born, m) == Held(log, born, m) && At(texts', m) == At(texts, m)
    ensures Holds(codec, tenant, texts', after, born)
  {
    hide Stores, Held, At;
    forall m | born <= m ensures HoldsAt(codec, tenant, texts', after, born, m) {
      assert HoldsAt(codec, tenant, texts, log, born, m);
    }
  }

  /** The texts after an entry was logged. */
  function TextsAfter(codec: Codec, tenant: string, texts: map<int, string>, now: int, nonce: int, e: AuditEntry,
                      readable: bool, writable: bool): map<int, string>
  {
    if !writable then texts
    else texts[now := (if readable then At(texts, now) else "") + codec.encrypt(nonce, tenant, e) + "\n"]
  }

  lemma HoldsLogged(codec: Codec, tenant: string, born: int, now: int, texts: map<int, string>, log: TenantLog,
                    nonce: int, e: AuditEntry, readable: bool, writable: bool)
    requires codec.Sound() && born <= now && Holds(codec, tenant, texts, log, born)
    requires |MonthOf(log, now).keep| == |log.chain| && MonthOf(log, now).chain == log.chain
    ensures Holds(codec, tenant, TextsAfter(codec, tenant, texts, now, nonce, e, readable, writable),
                  Extended(log, born, now, e, readable, writable), born)
  {
    HeldExtends(log, born, now, e, readable, writable);
    HeldElsewhere(log, born, now, e, readable, writable);
    assert HoldsAt(codec, tenant, texts, log, born, now);
    hide Stores, Held, Extended, Codec.Sound, MonthOf;
    var text, held := At(texts, now), Held(log, born, now);
    StoresNothing(codec, tenant);
    if writable {
      StoresOneMore(codec, tenant, if readable then text else "", if readable then held else [], nonce, e);
    } else {
      assert held + [] == held;
    }
    StillHolds(codec, tenant, born, now, texts, log,
               TextsAfter(codec, tenant, texts, now, nonce, e, readable, writable),
               Extended(log, born, now, e, readable, writable));
  }

  lemma HoldsPurged(codec: Codec, tenant: string, born: int, now: int, texts: map<int, string>, log: TenantLog)
    requires Holds(codec, tenant, texts, log, born)
    ensures Holds(codec, tenant, texts[now := ""], Purged(log, born, now), born)
  {
    HeldPurged(log, born, now);
    StoresNothing(codec, tenant);
    hide Stores, Held;
    StillHolds(codec, tenant, born, now, texts, log, texts[now := ""], Purged(log, born, now));
  }

  /** The log of a tenant when the process starts. */
  lemma FreshHolds(codec: Codec, tenant: string, month: int, texts: map<int, string>, inherited: seq<AuditEntry>)
    requires (forall m :: m in texts ==> m <= month) && Stores(codec, tenant, At(texts, month), inherited)
    ensures var log := TenantLog(inherited, [], map[]);
            Holds(codec, tenant, texts, log, month) && Chained(codec, month, log, "")
  {
    var log := TenantLog(inherited, [], map[]);
    StoresNothing(codec, tenant);
    NoneIsKept<Record>([]);
    assert inherited + [] == inherited;
    hide Stores, Kept;
    forall m | month <= m ensures HoldsAt(codec, tenant, texts, log, month, m) {}
  }

  const NO_LOG := TenantLog([], [], map[])

  class AuditLog {
    const codec: Codec
    var store: map<string, map<int, string>>                  // the texts, by tenant and month
    var lastHash: map<string, string>                         // by tenant

    ghost var logs: map<string, TenantLog>
    ghost const born: int
    ghost var month: int

    function Texts(tenant: string): map<int, string>
      reads this`store
    {
      if tenant in store then store[tenant] else map[]
    }

    function Text(tenant: string, month: int): string
      reads this`store
    {
      At(Texts(tenant), month)
    }

    function Remembered(tenant: string): string
      reads this`lastHash
    {
      if tenant in lastHash then lastHash[tenant] else ""
    }

    ghost function LogOf(tenant: string): TenantLog
      reads this`logs
    {
      if tenant in logs then logs[tenant] else NO_LOG
    }

    /** All the tenant's log of the month holds. */
    ghost function Entries(tenant: string, month: int): seq<AuditEntry>
      reads this`logs
    {
      Held(LogOf(tenant), born, month)
    }

    ghost predicate TidyAt(tenant: string, month: int)
      reads this`store, this`lastHash, this`logs
    {
      && Holds(codec, tenant, Texts(tenant), LogOf(tenant), born)
      && Chained(codec, month, LogOf(tenant), Remembered(tenant))
    }

    ghost predicate Valid()
      reads this
    {
      codec.Sound() && born <= month && forall tenant :: TidyAt(tenant, month)
    }

    /** A process starts on a store that may already hold logs of the current month: those entries `earlier` says. */
    constructor (codec: Codec, store: map<string, map<int, string>>, ghost month: int,
                 ghost earlier: map<string, seq<AuditEntry>>)
      requires codec.Sound()
      requires forall tenant, m :: tenant in store && m in store[tenant] ==> m <= month
      requires forall tenant ::
                 Stores(codec, tenant, if tenant in store then At(store[tenant], month) else "",
                        if tenant in earlier then earlier[tenant] else [])
      ensures Valid() && this.codec == codec && this.store == store && born == this.month == month
      ensures forall tenant :: LogOf(tenant)
                            == TenantLog(if tenant in earlier then earlier[tenant] else [], [], map[])
      ensures forall tenant :: Remembered(tenant) == ""
    {
      this.codec, this.store, lastHash := codec, store, map[];
      logs := map tenant | tenant in earlier :: TenantLog(earlier[tenant], [], map[]);
      born, this.month := month, month;
      new;
      forall tenant ensures TidyAt(tenant, month) {
        var inherited := if tenant in earlier then earlier[tenant] else [];
        assert LogOf(tenant) == TenantLog(inherited, [], map[]);
        FreshHolds(codec, tenant, month, Texts(tenant), inherited);
        hide Holds, Chained;
      }
    }

    lemma StaysTidy(now: int)
      requires Valid() && month <= now
      ensures forall tenant :: TidyAt(tenant, now)
    {
      hide Holds, Chained;
      forall tenant ensures TidyAt(tenant, now) {
        assert TidyAt(tenant, month);
        ChainedLater(codec, month, LogOf(tenant), Remembered(tenant), now);
      }
    }

    /** Logs one entry: it is linked to the one remembered, remembered itself, and appended to the tenant's log of the
        month.  A read that fails is taken for an empty log, and a write that fails raises. */
    method Log(r: Record, now: int, nonce: int, readable: bool, writable: bool) returns (entry: Option<AuditEntry>)
      requires Valid() && month <= now
      modifies this
      ensures Valid() && month == now
      ensures var e := Next(codec, r, old(Remembered(r.tenant)));
              && entry == (if writable then Some(e) else None)
              && Remembered(r.tenant) == e.hash
              && |MonthOf(old(LogOf(r.tenant)), now).keep| == |old(LogOf(r.tenant)).chain|
              && LogOf(r.tenant) == Extended(old(LogOf(r.tenant)), born, now, e, readable, writable)
              && Entries(r.tenant, now)
                 == (if readable || !writable then old(Entries(r.tenant, now)) else []) + (if writable then [e] else [])
      ensures forall t :: t != r.tenant ==> LogOf(t) == old(LogOf(t)) && Remembered(t) == old(Remembered(t))
    {
      hide Holds, Extended, Held, Codec.Sound, MonthOf;
      StaysTidy(now);
      var tenant := r.tenant;
      var previous := Remembered(tenant);
      var e := Entry(r, previous, codec.Mac()(r, previous));
      ghost var log, texts := LogOf(tenant), Texts(tenant);
      assert TidyAt(tenant, now);
      assert MonthOf(log, now).chain == log.chain && |MonthOf(log, now).keep| == |log.chain|;
      HeldExtends(log, born, now, e, readable, writable);
      HoldsLogged(codec, tenant, born, now, texts, log, nonce, e, readable, writable);
      ChainedLogged(codec, born, now, log, previous, r, readable, writable);
      hide Chained;
      lastHash := lastHash[tenant := e.hash];
      if writable {
        var encrypted := codec.encrypt(nonce, tenant, e);
        var existing := if readable then Text(tenant, now) else "";
        store := store[tenant := Texts(tenant)[now := existing + encrypted + "\n"]];
        entry := Some(e);
      } else {
        entry := None;
      }
      logs := logs[tenant := Extended(log, born, now, e, readable, writable)];
      month := now;
      assert Texts(tenant) == TextsAfter(codec, tenant, texts, now, nonce, e, readable, writable);
      forall t | t != tenant ensures TidyAt(t, now) {
        assert old(TidyAt(t, now));
        assert Texts(t) == old(Texts(t)) && LogOf(t) == old(LogOf(t)) && Remembered(t) == old(Remembered(t));
      }
    }

    /** Forgets the tenant's log of the month; a write that fails is swallowed. */
    method Purge(tenant: string, now: int, writable: bool)
      requires Valid() && month <= now
      modifies this
      ensures Valid() && month == now
      ensures writable ==> Entries(tenant, now) == [] && Remembered(tenant) == ""
      ensures !writable ==> Remembered(tenant) == old(Remembered(tenant)) && store == old(store)
      ensures LogOf(tenant) == if writable then Purged(old(LogOf(tenant)), born, now) else old(LogOf(tenant))
      ensures forall t :: t != tenant ==> LogOf(t) == old(LogOf(t)) && Remembered(t) == old(Remembered(t))
    {
      hide Holds, Chained, Purged, Held, Codec.Sound;
      StaysTidy(now);
      HeldPurged(LogOf(tenant), born, now);
      assert TidyAt(tenant, now);
      HoldsPurged(codec, tenant, born, now, Texts(tenant), LogOf(tenant));
      ChainedPurged(codec, born, now, LogOf(tenant), Remembered(tenant));
      month := now;
      if writable {
        store := store[tenant := Texts(tenant)[now := ""]];
        lastHash := lastHash - {tenant};
        logs := logs[tenant := Purged(LogOf(tenant), born, now)];
        forall t | t != tenant ensures TidyAt(t, now) {
          assert old(TidyAt(t, now));
          assert Texts(t) == old(Texts(t)) && LogOf(t) == old(LogOf(t)) && Remembered(t) == old(Remembered(t));
        }
      }
    }

    /** What a read of the month's log sees: nothing if it fails. */
    function Seen(tenant: string, now: int, readable: bool): string
      reads this`store
    {
      if readable then Text(tenant, now) else ""
    }

    /** Reads a slice of the month's log; lines that do not decrypt are passed over. */
    method Read(tenant: string, now: int, readable: bool, limit: int := 100, offset: int := 0)
      returns (found: seq<AuditEntry>)
      ensures found == Opened(codec, tenant, Slice(StoredLines(Seen(tenant, now, readable)), offset, offset + limit))
    {
      var raw := Seen(tenant, now, readable);
      if raw == "" {
        return [];
      }
      var lines := Slice(Split(Strip(raw), '\n'), offset, offset + limit);
      found := [];
      for n := 0 to |lines|
        invariant found == Opened(codec, tenant, lines[..n])
      {
        OpenedGrows(codec, tenant, lines, n);
        var line := Strip(lines[n]);
        if line != "" {
          match codec.decrypt(tenant, line) {
            case Some(e) => found := found + [e];
            case None =>
          }
        }
      }
      assert lines[..|lines|] == lines;
    }

    /** The entries verification looks at: what can be read of the first 10,000 lines. */
    function Examined(tenant: string, now: int, readable: bool): seq<AuditEntry>
      reads this`store
    {
      Opened(codec, tenant, Slice(StoredLines(Seen(tenant, now, readable)), 0, MAX_ENTRIES_PER_FILE))
    }

    method VerifyChain(tenant: string, now: int, readable: bool) returns (ok: bool)
      ensures ok <==> Verifies(codec.Mac(), Examined(tenant, now, readable))
    {
      var found := Read(tenant, now, readable, MAX_ENTRIES_PER_FILE);
      ok := VerifyEntries(codec.Mac(), found);
    }

    function Count(tenant: string, now: int, readable: bool): nat
      reads this`store
    {
      NonBlank(StoredLines(Seen(tenant, now, readable)))
    }

    /** A log that can be read is exactly what it holds: a page is that slice of the entries, pages concatenate to all
        of them, and the count is their number.  One that cannot be read looks empty, and verifies. */
    lemma ReadsWhatIsHeld(tenant: string, now: int, readable: bool, offset: int, limit: int)
      requires Valid() && born <= now
      ensures var seen := if readable then Entries(tenant, now) else [];
              && Opened(codec, tenant, Slice(StoredLines(Seen(tenant, now, readable)), offset, offset + limit))
                 == Slice(seen, offset, offset + limit)
              && Count(tenant, now, readable) == |seen|
      ensures limit > 0 ==> Pages(Entries(tenant, now), 0, limit) == Entries(tenant, now)
      ensures !readable ==> Verifies(codec.Mac(), Examined(tenant, now, readable))
    {
      hide *;
      SeenIsStored(tenant, now, readable);
      StoredSlice(codec, tenant, Seen(tenant, now, readable), if readable then Entries(tenant, now) else [], offset,
                  offset + limit);
      CountIs(tenant, now, readable);
      UnseenVerifies(tenant, now);
      if limit > 0 {
        PagesConcatenate(Entries(tenant, now), 0, limit);
        assert Entries(tenant, now)[0..] == Entries(tenant, now);
      }
    }

    lemma CountIs(tenant: string, now: int, readable: bool)
      ensures Count(tenant, now, readable) == NonBlank(StoredLines(Seen(tenant, now, readable)))
    {}

    lemma UnseenVerifies(tenant: string, now: int)
      ensures Verifies(codec.Mac(), Examined(tenant, now, false))
    {
      assert Seen(tenant, now, false) == "" && StoredLines("") == [];
    }

    lemma SeenIsStored(tenant: string, now: int, readable: bool)
      requires Valid() && born <= now
      ensures Stores(codec, tenant, Seen(tenant, now, readable), if readable then Entries(tenant, now) else [])
      ensures Verifies(codec.Mac(), MonthOf(LogOf(tenant), now).chain)
    {
      assert TidyAt(tenant, month);
      hide Stores;
      StoresNothing(codec, tenant);
      assert HoldsAt(codec, tenant, Texts(tenant), LogOf(tenant), born, now);
    }

    /** The exact condition for an untampered log to verify: if what this process stored in it is looked at, that the
        first 10,000 entries are the first ones it logged, and otherwise that those an earlier process left verify. */
    lemma UntamperedVerifiesIff(tenant: string, now: int)
      requires Valid() && born <= now && codec.CollisionFree()
      requires AllPlain(Found(LogOf(tenant), born, now)) && AllPlain(MonthOf(LogOf(tenant), now).chain)
      ensures var found, h := Found(LogOf(tenant), born, now), MonthOf(LogOf(tenant), now);
              Verifies(codec.Mac(), Examined(tenant, now, true))
              <==> if Stored(h) == [] || |found| >= MAX_ENTRIES_PER_FILE
                   then Verifies(codec.Mac(), Slice(found, 0, MAX_ENTRIES_PER_FILE))
                   else Slice(found + Stored(h), 0, MAX_ENTRIES_PER_FILE) <= h.chain
    {
      hide TidyAt, Stores, Opened, StoredLines, NonBlank, Slice, Verifies, MonthOf, Codec.Sound, Codec.CollisionFree;
      ReadsWhatIsHeld(tenant, now, true, 0, MAX_ENTRIES_PER_FILE);
      SeenIsStored(tenant, now, true);
      HeadVerifiesIff(codec, Found(LogOf(tenant), born, now), MonthOf(LogOf(tenant), now));
    }

    /** So a log without entries of an earlier process verifies if and only if none of the first entries logged since
        the last purge, as many as are looked at, is missing from the month's file: lost to a failing write, cut off by
        a failing read, or stored under an earlier month. */
    lemma OwnLogVerifiesIff(tenant: string, now: int)
      requires Valid() && born <= now && Found(LogOf(tenant), born, now) == [] && codec.CollisionFree()
      ensures var h := MonthOf(LogOf(tenant), now);
              Verifies(codec.Mac(), Examined(tenant, now, true))
              <==> FrontKept(h.keep, Bound(MAX_ENTRIES_PER_FILE, |Stored(h)|))
    {
      hide TidyAt, Stores, Opened, StoredLines, NonBlank, Verifies, MonthOf, Codec.Sound, Codec.CollisionFree;
      ReadsWhatIsHeld(tenant, now, true, 0, MAX_ENTRIES_PER_FILE);
      SeenIsStored(tenant, now, true);
      OwnHeadVerifiesIff(codec, MonthOf(LogOf(tenant), now));
    }

    /** Some of it holds of any digest: nothing missing at the front is accepted; the very first entry missing is
        noticed, and so is the very first entry behind those of an earlier process. */
    lemma FirstEntryDecides(tenant: string, now: int)
      requires Valid() && born <= now
      ensures var found, h := Found(LogOf(tenant), born, now), MonthOf(LogOf(tenant), now);
              var own := Stored(h);
              && (found == [] && FrontKept(h.keep, Bound(MAX_ENTRIES_PER_FILE, |own|))
                  ==> Verifies(codec.Mac(), Examined(tenant, now, true)))
              && (own != [] && (if found == [] then !h.keep[0] else |found| < MAX_ENTRIES_PER_FILE && h.keep[0])
                  ==> !Verifies(codec.Mac(), Examined(tenant, now, true)))
    {
      hide TidyAt, Stores, Opened, StoredLines, NonBlank, Verifies, MonthOf, Codec.Sound, Slice;
      ReadsWhatIsHeld(tenant, now, true, 0, MAX_ENTRIES_PER_FILE);
      SeenIsStored(tenant, now, true);
      HeadFirst(codec, Found(LogOf(tenant), born, now), MonthOf(LogOf(tenant), now));
    }
  }

  // ----- the first entries of a log -----

  ghost predicate AllPlain(entries: seq<AuditEntry>) {
    forall i :: 0 <= i < |entries| ==> Plain(entries[i].body)
  }

  lemma HeadVerifiesIff(codec: Codec, found: seq<AuditEntry>, h: MonthLog)
    requires codec.Sound() && codec.CollisionFree() && Verifies(codec.Mac(), h.chain)
    requires AllPlain(found) && AllPlain(h.chain)
    ensures Verifies(codec.Mac(), Slice(found + Stored(h), 0, MAX_ENTRIES_PER_FILE))
       <==> if Stored(h) == [] || |found| >= MAX_ENTRIES_PER_FILE
            then Verifies(codec.Mac(), Slice(found, 0, MAX_ENTRIES_PER_FILE))
            else Slice(found + Stored(h), 0, MAX_ENTRIES_PER_FILE) <= h.chain
  {
    var own := Stored(h);
    var head := Slice(found + own, 0, MAX_ENTRIES_PER_FILE);
    hide Verifies, Codec.Sound, Codec.CollisionFree;
    if own == [] {
      assert found + own == found;
    } else if |found| >= MAX_ENTRIES_PER_FILE {
      assert head == Slice(found, 0, MAX_ENTRIES_PER_FILE);
    } else {
      var n := |head| - |found|;
      assert head == found + own[..n];
      var m := KeptUpTo(h.chain, h.keep, n);
      assert head[|head| - 1] == h.chain[m - 1];
      KeptIsPlain(h, n);
      EndIsKnown(codec, h.chain, head, m);
    }
  }

  lemma EndIsKnown(codec: Codec, chain: seq<AuditEntry>, head: seq<AuditEntry>, m: nat)
    requires codec.Sound() && codec.CollisionFree() && Verifies(codec.Mac(), chain)
    requires AllPlain(chain) && AllPlain(head)
    requires head != [] && 0 < m <= |chain| && head[|head| - 1] == chain[m - 1]
    ensures Verifies(codec.Mac(), head) <==> head <= chain
  {
    hide Verifies, Codec.Sound, Codec.CollisionFree, Plain;
    MacTellsPlainApart(codec);
    VerifiedIsWithin(codec, chain);
    if Verifies(codec.Mac(), head) {
      VerifiedIsWithin(codec, head);
    }
    EndTells(codec.Mac(), PlainEntry, chain, head, m);
    if head <= chain {
      PrefixVerifies(codec.Mac(), chain, |head|);
      assert head == chain[..|head|];
    }
  }

  lemma {:induction false} KeptIsPlain(h: MonthLog, n: nat)
    requires AllPlain(h.chain) && n <= |Stored(h)|
    ensures AllPlain(Stored(h)[..n])
  {
    forall i | 0 <= i < n ensures Plain(Stored(h)[i].body) {
      var m := KeptUpTo(h.chain, h.keep, i + 1);
    }
  }

  lemma OwnHeadVerifiesIff(codec: Codec, h: MonthLog)
    requires codec.Sound() && codec.CollisionFree() && Verifies(codec.Mac(), h.chain)
    ensures Verifies(codec.Mac(), Slice([] + Stored(h), 0, MAX_ENTRIES_PER_FILE))
       <==> FrontKept(h.keep, Bound(MAX_ENTRIES_PER_FILE, |Stored(h)|))
  {
    var n := Bound(MAX_ENTRIES_PER_FILE, |Stored(h)|);
    assert Slice([] + Stored(h), 0, MAX_ENTRIES_PER_FILE) == Stored(h)[..n];
    if n > 0 {
      MacTellsLinks(codec);
      VerifiedLinks(codec, h.chain);
      hide Verifies, Codec.Sound, Codec.CollisionFree, TellsLinks, Within;
      KeptVerifiesIff(codec.Mac(), BarFree, h.chain, h.keep, n);
    }
  }

  lemma HeadFirst(codec: Codec, found: seq<AuditEntry>, h: MonthLog)
    requires codec.Sound() && Verifies(codec.Mac(), h.chain)
    ensures var own := Stored(h);
            var head := Slice(found + own, 0, MAX_ENTRIES_PER_FILE);
            && (found == [] && FrontKept(h.keep, Bound(MAX_ENTRIES_PER_FILE, |own|)) ==> Verifies(codec.Mac(), head))
            && (own != [] && (if found == [] then !h.keep[0] else |found| < MAX_ENTRIES_PER_FILE && h.keep[0])
                ==> !Verifies(codec.Mac(), head))
  {
    var own := Stored(h);
    var head, n := Slice(found + own, 0, MAX_ENTRIES_PER_FILE), Bound(MAX_ENTRIES_PER_FILE, |own|);
    MacIsNeverEmpty(codec);
    if found == [] {
      assert head == own[..n];
      if n > 0 {
        KeptVerifies(codec.Mac(), h.chain, h.keep, n);
      }
    } else if own != [] && |found| < MAX_ENTRIES_PER_FILE && h.keep[0] {
      assert FrontKept(h.keep, 1);
      FrontIsKept(h.chain, h.keep, 1);
      assert own[0] == own[..1][0] == h.chain[..1][0] == h.chain[0];
      PrefixVerifies(codec.Mac(), h.chain, 1);
      assert head[..|found| + 1] == found + [own[0]];
      PrefixVerifies(codec.Mac(), head, |found| + 1);
      RestartIsNoticed(codec, found, own[0]);
    }
  }

  lemma MacIsNeverEmpty(codec: Codec)
    requires codec.Sound()
    ensures NeverEmpty(codec.Mac())
  {
    assert forall r, p :: codec.Mac()(r, p) == codec.digest(Payload(r, p)) != "";
  }

  /** An entry that links to nothing does not continue a chain. */
  lemma RestartIsNoticed(codec: Codec, earlier: seq<AuditEntry>, e: AuditEntry)
    requires codec.Sound() && earlier != [] && e.prev == ""
    ensures !Verifies(codec.Mac(), earlier + [e])
  {
    VerifiesOneMore(codec.Mac(), earlier, e);
    if Verifies(codec.Mac(), earlier) {
      assert LastHash(earlier) == codec.digest(Payload(earlier[|earlier| - 1].body, earlier[|earlier| - 1].prev));
    }
  }

  // ----- what the hash tells apart -----

  /** None of the fields before the detail contains '|'. */
  predicate Plain(r: Record) {
    '|' !in r.timestamp && '|' !in r.tenant && '|' !in r.user && '|' !in r.action && '|' !in r.resource
  }

  predicate BarFree(r: Record, prev: string) { '|' !in prev }

  predicate PlainEntry(r: Record, prev: string) { Plain(r) && BarFree(r, prev) }

  /** In an accepted log every previous hash is a digest or empty. */
  lemma {:induction false} VerifiedLinks(codec: Codec, entries: seq<AuditEntry>)
    requires codec.Sound() && Verifies(codec.Mac(), entries)
    ensures Within(BarFree, entries) && '|' !in LastHash(entries)
  {
    if entries != [] {
      var n := |entries| - 1;
      VerifiedLinks(codec, entries[..n]);
      assert entries[n].hash == codec.digest(Payload(entries[n].body, entries[n].prev));
      forall i | 0 <= i < |entries| ensures BarFree(entries[i].body, entries[i].prev) {
        assert i < n ==> entries[..n][i] == entries[i];
      }
    }
  }

  lemma VerifiedIsWithin(codec: Codec, entries: seq<AuditEntry>)
    requires codec.Sound() && AllPlain(entries) && Verifies(codec.Mac(), entries)
    ensures Within(PlainEntry, entries)
  {
    VerifiedLinks(codec, entries);
    hide Plain;
    forall i | 0 <= i < |entries| ensures PlainEntry(entries[i].body, entries[i].prev) {
      assert BarFree(entries[i].body, entries[i].prev);
    }
  }

  /** Accepted logs without '|' in those fields agree entry for entry when their final hashes do, if the digest has no
      collisions. */
  lemma AcceptedLogsAgree(codec: Codec, a: seq<AuditEntry>, b: seq<AuditEntry>)
    requires codec.Sound() && codec.CollisionFree() && AllPlain(a) && AllPlain(b)
    requires Verifies(codec.Mac(), a) && Verifies(codec.Mac(), b) && LastHash(a) == LastHash(b)
    ensures a == b
  {
    MacTellsPlainApart(codec);
    VerifiedIsWithin(codec, a);
    VerifiedIsWithin(codec, b);
    hide Verifies, Codec.Sound, Codec.CollisionFree, LastHash, InjectiveOn, Within;
    FinalHashDetermines(codec.Mac(), PlainEntry, a, b);
  }

  /** Making lines of an accepted log unreadable goes unnoticed if and only if they are cut off the end; `garbled` are
      the lines afterwards, and `keep` tells which are as they were. */
  lemma GarblingGoesUnnoticedIff(codec: Codec, tenant: string, lines: seq<string>, entries: seq<AuditEntry>,
                                 garbled: seq<string>, keep: seq<bool>)
    requires codec.Sound() && codec.CollisionFree()
    requires Sealed(codec, tenant, lines, entries) && Verifies(codec.Mac(), entries)
    requires Garbled(codec, tenant, lines, garbled, keep)
    ensures Verifies(codec.Mac(), Opened(codec, tenant, garbled)) <==> CutOff(keep)
  {
    OpensWhatIsKept(codec, tenant, lines, entries, garbled, keep);
    MacTellsLinks(codec);
    VerifiedLinks(codec, entries);
    hide Verifies, Codec.Sound, Codec.CollisionFree, LastHash, TellsLinks, Within, Opened;
    OnlyCuttingOffGoesUnnoticed(codec.Mac(), BarFree, entries, keep);
  }

  ghost predicate Garbled(codec: Codec, tenant: string, lines: seq<string>, garbled: seq<string>, keep: seq<bool>) {
    && |garbled| == |keep| == |lines|
    && forall i :: 0 <= i < |lines| ==>
         if keep[i] then garbled[i] == lines[i]
         else Strip(garbled[i]) == "" || codec.decrypt(tenant, Strip(garbled[i])) == None
  }

  lemma {:induction false} OpensWhatIsKept(codec: Codec, tenant: string, lines: seq<string>,
                                           entries: seq<AuditEntry>, garbled: seq<string>, keep: seq<bool>)
    requires Sealed(codec, tenant, lines, entries) && Garbled(codec, tenant, lines, garbled, keep)
    ensures Opened(codec, tenant, garbled) == Kept(entries, keep)
  {
    if lines != [] {
      var n := |lines| - 1;
      assert ProperLine(lines[n]);
      StripsOneNewline(lines[n]);
      hide ProperLine, Strip;
      OpensWhatIsKept(codec, tenant, lines[..n], entries[..n], garbled[..n], keep[..n]);
    }
  }

  lemma MacTellsPlainApart(codec: Codec)
    requires codec.Sound() && codec.CollisionFree()
    ensures NeverEmpty(codec.Mac()) && InjectiveOn(codec.Mac(), PlainEntry)
  {
    MacIsNeverEmpty(codec);
    hide Codec.Sound, NeverEmpty;
    forall r, p, s, q | PlainEntry(r, p) && PlainEntry(s, q) && codec.Mac()(r, p) == codec.Mac()(s, q)
      ensures r == s && p == q
    {
      assert codec.digest(Payload(r, p)) == codec.digest(Payload(s, q));
      PlainPayloads(r, p, s, q);
    }
  }

  /** The previous hash is what follows the last '|' of the hashed text, whatever the other fields contain. */
  lemma MacTellsLinks(codec: Codec)
    requires codec.Sound() && codec.CollisionFree()
    ensures NeverEmpty(codec.Mac()) && TellsLinks(codec.Mac(), BarFree)
  {
    MacIsNeverEmpty(codec);
    hide Codec.Sound, NeverEmpty;
    forall r, p, s, q | BarFree(r, p) && BarFree(s, q) && codec.Mac()(r, p) == codec.Mac()(s, q) ensures p == q {
      assert codec.digest(Payload(r, p)) == codec.digest(Payload(s, q));
      PayloadParts(r, p);
      PayloadParts(s, q);
      LastBar(Heading(r) + "|" + r.detail, p, Heading(s) + "|" + s.detail, q);
    }
  }

  /** A log in which no line decrypts is accepted, whatever it held before. */
  lemma {:induction false} UnreadableVerifies(codec: Codec, tenant: string, lines: seq<string>)
    requires forall i :: 0 <= i < |lines| ==> codec.decrypt(tenant, Strip(lines[i])) == None
    ensures Opened(codec, tenant, lines) == [] && Verifies(codec.Mac(), Opened(codec, tenant, lines))
  {
    if lines != [] {
      UnreadableVerifies(codec, tenant, lines[..|lines| - 1]);
    }
  }

  // ----- the hashed text -----

  /** The part of the hashed text before the detail. */
  function Heading(r: Record): string { Join([r.timestamp, r.tenant, r.user, r.action, r.resource], '|') }

  lemma PayloadParts(r: Record, prev: string)
    ensures Payload(r, prev) == Heading(r) + "|" + r.detail + "|" + prev
  {
    var heading, rest := [r.timestamp, r.tenant, r.user, r.action, r.resource], [r.detail, prev];
    assert Fields(r, prev) == heading + rest;
    JoinConcat(heading, rest, '|');
    assert rest[1..] == [prev];
    hide Fields;
    assert Join(rest, '|') == r.detail + ['|'] + Join([prev], '|');
  }

  lemma BarsInHeading(r: Record)
    ensures multiset(Heading(r))['|'] >= 4
    ensures multiset(Heading(r))['|'] == 4 <==> Plain(r)
  {
    var f := [r.timestamp, r.tenant, r.user, r.action, r.resource];
    SeparatorsInJoin(f, '|');
    assert f[0] == r.timestamp && f[1] == r.tenant && f[2] == r.user && f[3] == r.action && f[4] == r.resource;
  }

  lemma HeadingDetermines(r: Record, s: Record)
    requires Plain(r) && Heading(r) == Heading(s)
    ensures s == r.(detail := s.detail)
  {
    BarsInHeading(r);
    BarsInHeading(s);
    hide Join;
    var f := [r.timestamp, r.tenant, r.user, r.action, r.resource];
    var g := [s.timestamp, s.tenant, s.user, s.action, s.resource];
    JoinIsInjective(f, g, '|');
    assert f[0] == g[0] && f[1] == g[1] && f[2] == g[2] && f[3] == g[3] && f[4] == g[4];
  }

  /** Where the rests after the last '|' contain none, they and what is before agree. */
  lemma LastBar(a: string, p: string, b: string, q: string)
    requires '|' !in p && '|' !in q && a + "|" + p == b + "|" + q
    ensures a == b && p == q
  {
    var text := a + "|" + p;
    assert text[|a|] == '|' == text[|b|];
    assert forall i :: |a| < i < |text| ==> text[i] == p[i - |a| - 1] != '|';
    assert forall i :: |b| < i < |text| ==> text[i] == q[i - |b| - 1] != '|';
    assert text[..|a|] == a && text[..|b|] == b && text[|a| + 1..] == p && text[|b| + 1..] == q;
  }

  /** A heading without further bars is no proper beginning of the text before another record's detail. */
  lemma HeadingIsShortest(r: Record, s: Record, rest: string)
    requires Heading(s) == Heading(r) + "|" + rest
    ensures !Plain(s)
  {
    BarsInHeading(r);
    BarsInHeading(s);
    hide Heading;
    assert multiset(Heading(r) + "|" + rest)['|'] == multiset(Heading(r))['|'] + 1 + multiset(rest)['|'];
  }

  /** What a record with the same hashed text can differ in. */
  lemma SamePayload(r: Record, prev: string, s: Record, q: string)
    requires Plain(r) && '|' !in prev && '|' !in q && Payload(s, q) == Payload(r, prev)
    ensures q == prev
    ensures s == r || exists i :: 0 <= i < |r.detail| && r.detail[i] == '|' && s.detail == r.detail[i + 1..]
    ensures s == r || !Plain(s)
  {
    PayloadParts(r, prev);
    PayloadParts(s, q);
    hide Payload, Heading, Plain;
    var a, b := Heading(r), Heading(s);
    LastBar(a + "|" + r.detail, prev, b + "|" + s.detail, q);
    var text := a + "|" + r.detail;
    assert text == b + "|" + s.detail;
    if |a| == |b| {
      assert a == text[..|a|] == b && r.detail == text[|a| + 1..] == s.detail;
      HeadingDetermines(r, s);
    } else if |a| < |b| {
      var i := |b| - |a| - 1;
      assert b == text[..|b|] == a + "|" + r.detail[..i];
      HeadingIsShortest(r, s, r.detail[..i]);
      assert text[|b|] == '|' == r.detail[i];
      assert s.detail == text[|b| + 1..] == r.detail[i + 1..];
    } else {
      var rest := s.detail[..|a| - |b| - 1];
      assert a == text[..|a|] == b + "|" + rest;
      HeadingIsShortest(s, r, rest);
    }
  }

  lemma PlainPayloads(r: Record, p: string, s: Record, q: string)
    requires PlainEntry(r, p) && PlainEntry(s, q) && Payload(r, p) == Payload(s, q)
    ensures r == s && p == q
  {
    SamePayload(r, p, s, q);
  }

  // ----- details are JSON -----

  /** Whether a text, from inside or outside a string literal on, ends outside of one, and has neither '|' nor a
      backslash outside of them. */
  predicate Closes(text: string, inside: bool) {
    if text == "" then !inside
    else if text[0] == '"' then Closes(text[1..], !inside)
    else if text[0] == '\\' then inside && |text| > 1 && Closes(text[2..], true)
    else (inside || text[0] != '|') && Closes(text[1..], inside)
  }

  /** What every JSON text is. */
  predicate LikeJson(text: string) { Closes(text, false) }

  lemma {:induction false} NotBoth(text: string)
    ensures !(Closes(text, true) && Closes(text, false))
  {
    if text != "" && text[0] != '\\' {
      NotBoth(text[1..]);
    }
  }

  /** A '|' in JSON is inside a string literal. */
  lemma {:induction false} AfterBar(text: string, inside: bool, i: nat)
    requires Closes(text, inside) && i < |text| && text[i] == '|'
    ensures Closes(text[i + 1..], true)
  {
    if text[0] == '"' {
      AfterBar(text[1..], !inside, i - 1);
      assert text[1..][i..] == text[i + 1..];
    } else if text[0] == '\\' {
      if i > 1 {
        AfterBar(text[2..], true, i - 2);
        assert text[2..][i - 1..] == text[i + 1..];
      }
    } else if i > 0 {
      AfterBar(text[1..], inside, i - 1);
      assert text[1..][i..] == text[i + 1..];
    }
  }

  /** So what follows it is no JSON. */
  lemma NoJsonAfterBar(text: string, i: nat)
    requires LikeJson(text) && i < |text| && text[i] == '|'
    ensures !LikeJson(text[i + 1..])
  {
    AfterBar(text, false, i);
    NotBoth(text[i + 1..]);
  }

  lemma AroundTwo<T>(f: seq<T>, i: nat, x: T, y: T)
    requires i + 2 <= |f|
    ensures f == f[..i] + [f[i], f[i + 1]] + f[i + 2..]
    ensures var g := f[..i] + [x, y] + f[i + 2..];
            |g| == |f| && g[i] == x && g[i + 1] == y && forall k :: i + 2 <= k < |f| ==> g[k] == f[k]
  {}

  /** The border between two neighbours moves to a separator in one of them. */
  lemma Regrouped(f: seq<string>, i: nat, k: nat) returns (g: seq<string>)
    requires i < 4 && i <= k <= i + 1 && |f| == 7 && '|' in f[k]
    ensures |g| == 7 && g != f && g[5] == f[5] && g[6] == f[6] && Join(g, '|') == Join(f, '|')
  {
    hide Join;
    var a, b := Cut(f[k], '|');
    if k == i {
      AroundTwo(f, i, a, b + "|" + f[i + 1]);
      g := f[..i] + [a, b + "|" + f[i + 1]] + f[i + 2..];
      JoinRegroups(f[..i], a, b, f[i + 1], f[i + 2..], '|');
      assert |g[i]| < |f[i]|;
    } else {
      AroundTwo(f, i, f[i] + "|" + a, b);
      g := f[..i] + [f[i] + "|" + a, b] + f[i + 2..];
      JoinRegroups(f[..i], f[i], a, b, f[i + 2..], '|');
      assert |g[k]| < |f[k]|;
    }
  }

  /** Another record with the same detail and hashed text. */
  lemma Double(r: Record, prev: string) returns (s: Record)
    requires !Plain(r)
    ensures s != r && s.detail == r.detail && Payload(s, prev) == Payload(r, prev)
  {
    var f := Fields(r, prev);
    var k := if '|' in r.timestamp then 0 else if '|' in r.tenant then 1 else if '|' in r.user then 2
             else if '|' in r.action then 3 else 4;
    assert '|' in f[k];
    hide Join;
    var g := Regrouped(f, if k < 4 then k else 3, k);
    s := Record(g[0], g[1], g[2], g[3], g[4], g[5]);
    assert Fields(s, prev) == g;
  }

  /** The hash of an entry confuses its record with another if and only if '|' occurs in a field before the detail: then
      with one that has the same detail, and otherwise with none, whatever JSON its detail is and whatever digest its
      previous hash is. */
  lemma SharedPayloadIff(r: Record, prev: string)
    requires LikeJson(r.detail) && '|' !in prev
    ensures (exists s: Record :: s != r && s.detail == r.detail && Payload(s, prev) == Payload(r, prev)) <==> !Plain(r)
    ensures (exists s: Record, q: string ::
               (s, q) != (r, prev) && LikeJson(s.detail) && '|' !in q && Payload(s, q) == Payload(r, prev))
       <==> !Plain(r)
  {
    hide Payload, Plain, LikeJson;
    if Plain(r) {
      forall s: Record, q: string | LikeJson(s.detail) && '|' !in q && Payload(s, q) == Payload(r, prev)
        ensures s == r && q == prev
      {
        SamePayload(r, prev, s, q);
        if s != r {
          var i :| 0 <= i < |r.detail| && r.detail[i] == '|' && s.detail == r.detail[i + 1..];
          NoJsonAfterBar(r.detail, i);
        }
      }
    } else {
      var s := Double(r, prev);
      assert (s, prev) != (r, prev);
    }
  }

  /** Who did what to what: the three adjacent fields a caller chooses. */
  function Deed(r: Record): string { r.user + "|" + r.action + "|" + r.resource }

  /** Two records that agree outside of those fields. */
  predicate AlikeOutside(r: Record, s: Record) {
    r.timestamp == s.timestamp && r.tenant == s.tenant && r.detail == s.detail
  }

  lemma JoinThree(a: string, b: string, c: string)
    ensures Join([a, b, c], '|') == a + "|" + b + "|" + c
  {
    assert [a, b, c][1..] == [b, c] && [b, c][1..] == [c];
    assert Join([b, c], '|') == b + ['|'] + Join([c], '|');
  }

  lemma PayloadOfDeed(r: Record, prev: string)
    ensures Payload(r, prev) == r.timestamp + "|" + r.tenant + "|" + Deed(r) + ("|" + r.detail + "|" + prev)
  {
    PayloadParts(r, prev);
    JoinConcat([r.timestamp, r.tenant], [r.user, r.action, r.resource], '|');
    JoinThree(r.user, r.action, r.resource);
    assert [r.timestamp, r.tenant] + [r.user, r.action, r.resource]
        == [r.timestamp, r.tenant, r.user, r.action, r.resource];
    assert [r.timestamp, r.tenant][1..] == [r.tenant];
    assert Join([r.timestamp, r.tenant], '|') == r.timestamp + ['|'] + Join([r.tenant], '|');
  }

  lemma MiddleDecides(before: string, a: string, b: string, after: string)
    ensures before + a + after == before + b + after <==> a == b
  {
    if before + a + after == before + b + after {
      assert |a| == |b|;
      assert a == (before + a + after)[|before|..|before| + |a|];
      assert b == (before + b + after)[|before|..|before| + |a|];
    }
  }

  lemma Cut(text: string, sep: char) returns (a: string, b: string)
    requires sep in text
    ensures text == a + [sep] + b
  {
    var i :| 0 <= i < |text| && text[i] == sep;
    a, b := text[..i], text[i + 1..];
  }

  /** The digest confuses a record with another that differs only in user, action and resource, if and only if one of
      these contains '|'. */
  lemma AmbiguousIff(r: Record, prev: string)
    ensures (exists s :: s != r && AlikeOutside(r, s) && Payload(s, prev) == Payload(r, prev))
       <==> '|' in r.user || '|' in r.action || '|' in r.resource
  {
    if '|' in r.user {
      var a, b := Cut(r.user, '|');
      Confused(r, r.(user := a, action := b + "|" + r.action), prev);
    } else if '|' in r.action {
      var a, b := Cut(r.action, '|');
      Confused(r, r.(action := a, resource := b + "|" + r.resource), prev);
    } else if '|' in r.resource {
      var a, b := Cut(r.resource, '|');
      Confused(r, r.(action := r.action + "|" + a, resource := b), prev);
    } else {
      forall s | AlikeOutside(r, s) && Payload(s, prev) == Payload(r, prev) ensures s == r {
        SameDeed(r, s, prev);
      }
    }
  }

  lemma Confused(r: Record, s: Record, prev: string)
    requires AlikeOutside(r, s) && Deed(r) == Deed(s)
    ensures Payload(s, prev) == Payload(r, prev)
  {
    PayloadOfDeed(r, prev);
    PayloadOfDeed(s, prev);
  }

  lemma BarsInDeed(r: Record)
    ensures multiset(Deed(r))['|'] == 2 <==> '|' !in r.user && '|' !in r.action && '|' !in r.resource
  {
    assert multiset(Deed(r))['|']
        == multiset(r.user)['|'] + 1 + multiset(r.action)['|'] + 1 + multiset(r.resource)['|'];
  }

  lemma SameDeed(r: Record, s: Record, prev: string)
    requires '|' !in r.user && '|' !in r.action && '|' !in r.resource
    requires AlikeOutside(r, s) && Payload(s, prev) == Payload(r, prev)
    ensures s == r
  {
    PayloadOfDeed(r, prev);
    PayloadOfDeed(s, prev);
    MiddleDecides(r.timestamp + "|" + r.tenant + "|", Deed(r), Deed(s), "|" + r.detail + "|" + prev);
    BarsInDeed(r);
    BarsInDeed(s);
    hide Join, Payload;
    var f, g := [r.user, r.action, r.resource], [s.user, s.action, s.resource];
    JoinThree(r.user, r.action, r.resource);
    JoinThree(s.user, s.action, s.resource);
    JoinIsInjective(f, g, '|');
    assert f[0] == g[0] && f[1] == g[1] && f[2] == g[2];
  }
}
