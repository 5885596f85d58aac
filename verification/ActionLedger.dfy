/** The action ledger of src/brain/security/action_ledger.py: an append-only log in one file per day, chained by HMAC,
    whose chain is restarted every `maxEntries` entries and whenever the process starts.

    The MAC is a parameter. */
module Ledger {
  import opened HashChain

  /** The content of an entry other than its two hashes.  An object in a file that no ledger wrote may have any other
      content. */
  datatype Action = Action(timestamp: string, category: string, action: string, tenant: string, user: string,
                           status: string, detail: string)
                  | Other(json: string)

  type LedgerEntry = Entry<Action>

  /** A line of a log file as the verifier meets it: blank, no JSON, JSON that is no object, or an object: with a
      previous hash that is no text, or with one that is but a hash that is none, or with two texts (a missing one
      counts as empty).  A value that is no text can be sliced (a list) or not. */
  datatype Line = Blank | NoJson | NoObject | BadPrev(sliceable: bool) | BadHash(prev: string, sliceable: bool)
                | Parsed(entry: LedgerEntry)

  /** What verification does: it returns True, returns False, or raises an exception. */
  datatype Verdict = Intact | Broken | Raised

  function EntriesOf(lines: seq<Line>): seq<LedgerEntry> {
    if lines == [] then [] else
      EntriesOf(lines[..|lines| - 1])
      + (if lines[|lines| - 1].Parsed? then [lines[|lines| - 1].entry] else [])
  }

  function LinesOf(entries: seq<LedgerEntry>): seq<Line> {
    seq(|entries|, i requires 0 <= i < |entries| => Parsed(entries[i]))
  }

  lemma {:induction false} LinesReadBack(entries: seq<LedgerEntry>)
    ensures EntriesOf(LinesOf(entries)) == entries
  {
    if entries != [] {
      var init := entries[..|entries| - 1];
      LinesReadBack(init);
      assert LinesOf(entries)[..|entries| - 1] == LinesOf(init);
      assert entries == init + [entries[|entries| - 1]];
    }
  }

  /** Lines verification gets past. */
  predicate Readable(lines: seq<Line>) {
    forall i :: 0 <= i < |lines| ==> lines[i].Blank? || lines[i].Parsed?
  }

  /** The file is accepted. */
  predicate Accepted(mac: (Action, string) -> string, lines: seq<Line>) {
    Readable(lines) && Verifies(mac, EntriesOf(lines))
  }

  /** Up to line `n` the file is accepted. */
  predicate AcceptedUpTo(mac: (Action, string) -> string, lines: seq<Line>, n: nat)
    requires n <= |lines|
  {
    Accepted(mac, lines[..n])
  }

  /** Looking at the line raises, after an entry with the given hash: it is no object, or the error message about the
      hash that is not as expected cannot be formed. */
  predicate RaisesAt(line: Line, prevHash: string) {
    match line
    case NoObject => true
    case BadPrev(sliceable) => !sliceable
    case BadHash(prev, sliceable) => prev == prevHash && !sliceable
    case _ => false
  }

  /** Some line on which verification raises is reached. */
  ghost predicate ReachesRaising(mac: (Action, string) -> string, lines: seq<Line>) {
    exists n :: 0 <= n < |lines| && AcceptedUpTo(mac, lines, n) && RaisesAt(lines[n], HashAt(lines, n))
  }

  /** `verify_chain` on a file: it is intact if and only if every non-blank line is an object that continues the chain,
      and raises if and only if it is accepted up to a line on which verification raises. */
  method VerifyChain(mac: (Action, string) -> string, lines: seq<Line>) returns (verdict: Verdict)
    ensures verdict == Intact <==> Accepted(mac, lines)
    ensures verdict == Raised <==> ReachesRaising(mac, lines)
  {
    hide *;
    AcceptsNothing(mac, lines);
    var prevHash := "";
    for n := 0 to |lines|
      invariant AcceptedUpTo(mac, lines, n) && prevHash == HashAt(lines, n)
    {
      AcceptsOneMore(mac, lines, n);
      FirstObstacleDecides(mac, lines, n);
      WhenRaising(lines[n], prevHash);
      match lines[n] {
        case Blank =>
        case NoJson =>
          return Broken;
        case NoObject =>
          return Raised;
        case BadPrev(sliceable) =>
          return if sliceable then Broken else Raised;
        case BadHash(prev, sliceable) =>
          return if prev != prevHash || sliceable then Broken else Raised;
        case Parsed(entry) =>
          if entry.prev != prevHash {
            return Broken;
          }
          if entry.hash != mac(entry.body, entry.prev) {
            return Broken;
          }
          prevHash := entry.hash;
      }
    }
    NoObstacle(mac, lines);
    verdict := Intact;
  }

  lemma WhenRaising(line: Line, prevHash: string)
    ensures RaisesAt(line, prevHash)
       <==> || line == NoObject || line == BadPrev(false)
            || (line.BadHash? && line.prev == prevHash && !line.sliceable)
  {}

  /** The hash of the last entry before line `n`. */
  function HashAt(lines: seq<Line>, n: nat): string
    requires n <= |lines|
  {
    LastHash(EntriesOf(lines[..n]))
  }

  lemma AcceptsNothing(mac: (Action, string) -> string, lines: seq<Line>)
    ensures AcceptedUpTo(mac, lines, 0) && HashAt(lines, 0) == ""
  {
    assert lines[..0] == [];
    NothingVerifies(mac);
  }

  lemma ReadableGrows(lines: seq<Line>, line: Line)
    ensures Readable(lines + [line]) <==> Readable(lines) && (line.Blank? || line.Parsed?)
  {
    var grown := lines + [line];
    assert grown[|lines|] == line;
    assert forall i :: 0 <= i < |lines| ==> lines[i] == grown[i];
  }

  lemma AcceptsOneMore(mac: (Action, string) -> string, lines: seq<Line>, n: nat)
    requires n < |lines|
    ensures AcceptedUpTo(mac, lines, n + 1) <==>
              && AcceptedUpTo(mac, lines, n)
              && match lines[n] {
                   case Blank => true
                   case Parsed(e) => e.prev == HashAt(lines, n) && e.hash == mac(e.body, e.prev)
                   case _ => false
                 }
    ensures HashAt(lines, n + 1) == if lines[n].Parsed? then lines[n].entry.hash else HashAt(lines, n)
  {
    OneMoreLine(lines, n);
    hide EntriesOf, Verifies, LastHash, Readable;
    var before, line := EntriesOf(lines[..n]), lines[n];
    assert lines[..n + 1] == lines[..n] + [line];
    ReadableGrows(lines[..n], line);
    assert before + [] == before;
    if line.Parsed? {
      VerifiesOneMore(mac, before, line.entry);
    }
  }

  lemma {:induction false} AcceptedEarlier(mac: (Action, string) -> string, lines: seq<Line>, n: nat, m: nat)
    requires n <= m <= |lines| && AcceptedUpTo(mac, lines, m)
    ensures AcceptedUpTo(mac, lines, n)
  {
    hide AcceptedUpTo;
    if n < m {
      AcceptsOneMore(mac, lines, m - 1);
      AcceptedEarlier(mac, lines, n, m - 1);
    }
  }

  /** The first line that is not accepted decides. */
  lemma FirstObstacleDecides(mac: (Action, string) -> string, lines: seq<Line>, n: nat)
    requires n < |lines| && AcceptedUpTo(mac, lines, n)
    ensures !AcceptedUpTo(mac, lines, n + 1) ==>
              !Accepted(mac, lines) && (ReachesRaising(mac, lines) <==> RaisesAt(lines[n], HashAt(lines, n)))
  {
    assert lines[..|lines|] == lines;
    assert AcceptedUpTo(mac, lines, |lines|) <==> Accepted(mac, lines);
    hide AcceptedUpTo, Accepted, HashAt, RaisesAt;
    if !AcceptedUpTo(mac, lines, n + 1) {
      forall m | n < m <= |lines| ensures !AcceptedUpTo(mac, lines, m) {
        if AcceptedUpTo(mac, lines, m) {
          AcceptedEarlier(mac, lines, n + 1, m);
        }
      }
      forall m | 0 <= m < n ensures !RaisesAt(lines[m], HashAt(lines, m)) {
        AcceptedEarlier(mac, lines, m + 1, n);
        AcceptsOneMore(mac, lines, m);
        WhenRaising(lines[m], HashAt(lines, m));
      }
    }
  }

  lemma NoObstacle(mac: (Action, string) -> string, lines: seq<Line>)
    requires AcceptedUpTo(mac, lines, |lines|)
    ensures Accepted(mac, lines) && !ReachesRaising(mac, lines)
  {
    assert lines[..|lines|] == lines;
    hide AcceptedUpTo, Accepted, HashAt, RaisesAt;
    forall m | 0 <= m < |lines| ensures !RaisesAt(lines[m], HashAt(lines, m)) {
      AcceptedEarlier(mac, lines, m + 1, |lines|);
      AcceptsOneMore(mac, lines, m);
      WhenRaising(lines[m], HashAt(lines, m));
    }
  }

  /** A file with further entries is accepted if and only if it could be read before and its entries verify with
      them. */
  lemma AcceptedWith(mac: (Action, string) -> string, lines: seq<Line>, more: seq<LedgerEntry>)
    ensures Accepted(mac, lines + LinesOf(more)) <==> Readable(lines) && Verifies(mac, EntriesOf(lines) + more)
  {
    EntriesOfBoth(lines, more);
    var all := lines + LinesOf(more);
    if Readable(all) {
      assert forall i :: 0 <= i < |lines| ==> lines[i] == all[i];
    }
  }

  lemma {:induction false} EntriesOfBoth(lines: seq<Line>, more: seq<LedgerEntry>)
    ensures EntriesOf(lines + LinesOf(more)) == EntriesOf(lines) + more
  {
    if more == [] {
      assert lines + LinesOf(more) == lines;
    } else {
      var n := |more| - 1;
      EntriesOfBoth(lines, more[..n]);
      assert (lines + LinesOf(more))[..|lines| + n] == lines + LinesOf(more[..n]);
      assert more == more[..n] + [more[n]];
    }
  }

  lemma NothingVerifies(mac: (Action, string) -> string)
    ensures Verifies(mac, EntriesOf([])) && LastHash<Action>([]) == "" && EntriesOf([]) == []
  {}

  lemma OneMoreLine(lines: seq<Line>, n: nat)
    requires n < |lines|
    ensures EntriesOf(lines[..n + 1])
         == EntriesOf(lines[..n]) + (if lines[n].Parsed? then [lines[n].entry] else [])
  {
    assert lines[..n + 1][..n] == lines[..n];
  }

  /** After `n` entries a segment is complete. */
  predicate Complete(n: nat, maxEntries: nat)
    requires maxEntries > 0
  {
    n % maxEntries == 0
  }

  /** The hash the next entry links to: none at the start of a segment. */
  function Link(written: seq<LedgerEntry>, maxEntries: nat): string
    requires maxEntries > 0
  {
    if Complete(|written|, maxEntries) then "" else LastHash(written)
  }

  /** What a process writes: every entry linked to its predecessor, except that each segment starts afresh. */
  predicate Segmented(mac: (Action, string) -> string, written: seq<LedgerEntry>, maxEntries: nat)
    requires maxEntries > 0
  {
    || written == []
    || (var init, e := written[..|written| - 1], written[|written| - 1];
        && Segmented(mac, init, maxEntries)
        && e.prev == Link(init, maxEntries) && e.hash == mac(e.body, e.prev))
  }

  lemma SegmentedGrows(mac: (Action, string) -> string, written: seq<LedgerEntry>, maxEntries: nat, e: LedgerEntry)
    requires maxEntries > 0 && Segmented(mac, written, maxEntries)
    requires e.prev == Link(written, maxEntries) && e.hash == mac(e.body, e.prev)
    ensures Segmented(mac, written + [e], maxEntries)
    ensures Link(written + [e], maxEntries) == if Complete(|written| + 1, maxEntries) then "" else e.hash
  {
    assert (written + [e])[..|written|] == written;
  }

  /** The two fields that carry the chain are what the written entries call for. */
  ghost predicate Chained(mac: (Action, string) -> string, maxEntries: nat, written: seq<LedgerEntry>,
                          entryCount: nat, lastHash: string)
  {
    && maxEntries > 0 && Segmented(mac, written, maxEntries)
    && entryCount == |written| && lastHash == Link(written, maxEntries)
  }

  lemma ChainedGrows(mac: (Action, string) -> string, maxEntries: nat, written: seq<LedgerEntry>, entryCount: nat,
                     lastHash: string, action: Action)
    requires Chained(mac, maxEntries, written, entryCount, lastHash)
    ensures maxEntries > 0 && entryCount == |written|
    ensures var e := Entry(action, lastHash, mac(action, lastHash));
            Chained(mac, maxEntries, written + [e], entryCount + 1,
                    if Complete(entryCount + 1, maxEntries) then "" else e.hash)
  {
    SegmentedGrows(mac, written, maxEntries, Entry(action, lastHash, mac(action, lastHash)));
  }

  /** The lines of those entries from index `from` on that were stored. */
  function LinesFrom(written: seq<LedgerEntry>, stored: seq<bool>, from: nat): seq<Line>
    requires from <= |written| == |stored|
  {
    LinesOf(Kept(written[from..], stored[from..]))
  }

  lemma LinesGrow(written: seq<LedgerEntry>, stored: seq<bool>, from: nat, e: LedgerEntry, stores: bool)
    requires from <= |written| == |stored|
    ensures LinesFrom(written + [e], stored + [stores], from)
         == LinesFrom(written, stored, from) + (if stores then [Parsed(e)] else [])
    ensures LinesFrom(written, stored, |written|) == []
  {
    assert (written + [e])[from..] == written[from..] + [e];
    assert (stored + [stores])[from..] == stored[from..] + [stores];
    assert (written[from..] + [e])[..|written| - from] == written[from..];
    assert (stored[from..] + [stores])[..|written| - from] == stored[from..];
  }

  function FileOf(files: map<int, seq<Line>>, day: int): seq<Line> {
    if day in files then files[day] else []
  }

  /** The directory with one more line in the day's file, if the write succeeds. */
  function Appended(files: map<int, seq<Line>>, day: int, line: Line, stores: bool): map<int, seq<Line>> {
    if stores then files[day := FileOf(files, day) + [line]] else files
  }

  ghost predicate NothingAfter(files: map<int, seq<Line>>, today: int) {
    forall day :: day > today ==> day !in files
  }

  lemma FilesGrow(files: map<int, seq<Line>>, today: int, day: int, line: Line, stores: bool)
    requires NothingAfter(files, today) && today <= day
    ensures day > today ==> FileOf(files, day) == []
    ensures var after := Appended(files, day, line, stores);
            && NothingAfter(after, day)
            && FileOf(after, day) == FileOf(files, day) + (if stores then [line] else [])
  {
    assert FileOf(files, day) + [] == FileOf(files, day);
  }

  /** The day's file holds what was there before and what was stored since the day began. */
  ghost predicate DayHolds(file: seq<Line>, inherited: seq<Line>, written: seq<LedgerEntry>, stored: seq<bool>,
                           dayStart: nat)
  {
    dayStart <= |written| == |stored| && file == inherited + LinesFrom(written, stored, dayStart)
  }

  lemma DayGrows(file: seq<Line>, inherited: seq<Line>, written: seq<LedgerEntry>, stored: seq<bool>, dayStart: nat,
                 e: LedgerEntry, stores: bool)
    requires DayHolds(file, inherited, written, stored, dayStart)
    ensures var line := if stores then [Parsed(e)] else [];
            && DayHolds(file + line, inherited, written + [e], stored + [stores], dayStart)
            && DayHolds([] + line, [], written + [e], stored + [stores], |written|)
  {
    LinesGrow(written, stored, dayStart, e, stores);
    LinesGrow(written, stored, |written|, e, stores);
    hide LinesFrom;
  }

  /** What of the process's state the proofs speak about: everything it logged, over all days; which of it reached the
      files (a failing write is swallowed); the day of the latest entry, or of the start; how many entries had been
      logged before that day; and what was in that day's file before the process's entries. */
  datatype Past = Past(written: seq<LedgerEntry>, stored: seq<bool>, today: int, dayStart: nat, inherited: seq<Line>)

  function Later(p: Past, e: LedgerEntry, day: int, stores: bool): Past {
    Past(p.written + [e], p.stored + [stores], day, if day > p.today then |p.written| else p.dayStart,
         if day > p.today then [] else p.inherited)
  }

  ghost predicate Coherent(mac: (Action, string) -> string, maxEntries: nat, p: Past, entryCount: nat,
                           lastHash: string, files: map<int, seq<Line>>)
  {
    && Chained(mac, maxEntries, p.written, entryCount, lastHash)
    && DayHolds(FileOf(files, p.today), p.inherited, p.written, p.stored, p.dayStart)
    && NothingAfter(files, p.today)
  }

  lemma SameDay(files: map<int, seq<Line>>, p: Past, e: LedgerEntry, stores: bool)
    requires DayHolds(FileOf(files, p.today), p.inherited, p.written, p.stored, p.dayStart)
    requires NothingAfter(files, p.today)
    ensures DayHolds(FileOf(Appended(files, p.today, Parsed(e), stores), p.today), p.inherited, p.written + [e],
                     p.stored + [stores], p.dayStart)
  {
    hide DayHolds, FileOf, NothingAfter, Appended;
    DayGrows(FileOf(files, p.today), p.inherited, p.written, p.stored, p.dayStart, e, stores);
    FilesGrow(files, p.today, p.today, Parsed(e), stores);
  }

  lemma NextDay(files: map<int, seq<Line>>, p: Past, e: LedgerEntry, day: int, stores: bool)
    requires DayHolds(FileOf(files, p.today), p.inherited, p.written, p.stored, p.dayStart)
    requires NothingAfter(files, p.today) && p.today < day
    ensures DayHolds(FileOf(Appended(files, day, Parsed(e), stores), day), [], p.written + [e], p.stored + [stores],
                     |p.written|)
  {
    hide DayHolds, FileOf, NothingAfter, Appended;
    DayGrows(FileOf(files, p.today), p.inherited, p.written, p.stored, p.dayStart, e, stores);
    FilesGrow(files, p.today, day, Parsed(e), stores);
  }

  /** Logging an entry, on a day that may be a later one, keeps the state coherent. */
  lemma StaysCoherent(mac: (Action, string) -> string, maxEntries: nat, p: Past, entryCount: nat, lastHash: string,
                      files: map<int, seq<Line>>, action: Action, day: int, stores: bool)
    requires Coherent(mac, maxEntries, p, entryCount, lastHash, files) && p.today <= day
    ensures maxEntries > 0
    ensures var e := Entry(action, lastHash, mac(action, lastHash));
            Coherent(mac, maxEntries, Later(p, e, day, stores), entryCount + 1,
                     Relinked(e.hash, entryCount + 1, maxEntries), Appended(files, day, Parsed(e), stores))
  {
    hide DayHolds, FileOf, NothingAfter, Appended, Chained, Complete;
    var e := Entry(action, lastHash, mac(action, lastHash));
    ChainedGrows(mac, maxEntries, p.written, entryCount, lastHash, action);
    FilesGrow(files, p.today, day, Parsed(e), stores);
    if day > p.today {
      NextDay(files, p, e, day, stores);
    } else {
      SameDay(files, p, e, stores);
    }
  }

  /** The link after `n` entries, the last of which has the given hash. */
  function Relinked(hash: string, n: nat, maxEntries: nat): string
    requires maxEntries > 0
  {
    if n > 0 && Complete(n, maxEntries) then "" else hash
  }

  class ActionLedger {
    const mac: (Action, string) -> string
    const maxEntries: nat
    var lastHash: string
    var entryCount: nat
    var files: map<int, seq<Line>>        // the log directory, by day

    ghost var past: Past

    ghost predicate Valid()
      reads this
    {
      Coherent(mac, maxEntries, past, entryCount, lastHash, files)
    }

    ghost function File(day: int): seq<Line>
      reads this`files
    {
      FileOf(files, day)
    }

    constructor (mac: (Action, string) -> string, maxEntries: nat, files: map<int, seq<Line>>, ghost today: int)
      requires maxEntries > 0 && NothingAfter(files, today)
      ensures Valid() && past == Past([], [], today, 0, FileOf(files, today))
      ensures this.mac == mac && this.maxEntries == maxEntries && this.files == files
    {
      this.mac, this.maxEntries, this.files := mac, maxEntries, files;
      lastHash, entryCount := "", 0;
      past := Past([], [], today, 0, FileOf(files, today));
    }

    /** Writes the entry to the day's file, if the write succeeds, and restarts the chain if a segment is complete. */
    method Append(entry: LedgerEntry, day: int, stores: bool)
      requires maxEntries > 0
      modifies this`lastHash, this`files
      ensures lastHash == Relinked(old(lastHash), entryCount, maxEntries)
      ensures files == Appended(old(files), day, Parsed(entry), stores)
    {
      if entryCount > 0 && entryCount % maxEntries == 0 {
        lastHash := "";
      }
      if stores {
        files := files[day := FileOf(files, day) + [Parsed(entry)]];
      }
    }

    /** Logs one chained entry, which is lost if the write fails. */
    method Log(action: Action, day: int, stores: bool) returns (entry: LedgerEntry)
      requires Valid() && past.today <= day
      modifies this
      ensures Valid() && past == Later(old(past), entry, day, stores) && entry.body == action
      ensures files == Appended(old(files), day, Parsed(entry), stores)
    {
      entry := Entry(action, lastHash, mac(action, lastHash));
      StaysCoherent(mac, maxEntries, past, entryCount, lastHash, files, action, day, stores);
      hide Coherent, Relinked, Appended, Later;
      lastHash := entry.hash;
      entryCount := entryCount + 1;
      Append(entry, day, stores);
      past := Later(past, entry, day, stores);
    }

    /** What the process has stored in today's file. */
    ghost function Own(): seq<LedgerEntry>
      reads this
      requires Valid()
    {
      Kept(past.written[past.dayStart..], past.stored[past.dayStart..])
    }

    /** The process's entries of the segment the last one stored today is in, up to that one. */
    ghost function LastSegment(): seq<LedgerEntry>
      reads this
      requires Valid()
    {
      SegmentUpTo(past.written, past.dayStart + LastKept(past.stored[past.dayStart..]), maxEntries)
    }

    lemma TodayIs()
      requires Valid()
      ensures File(past.today) == past.inherited + LinesOf(Own())
      ensures Segmented(mac, past.written, maxEntries)
    {}

    /** Today's file is accepted if and only if what was found in it is and nothing was added, or it could be read and
        its entries are exactly those of one segment of the process, from its start up to the last one stored. */
    lemma TodayVerifiesIff()
      requires Valid() && NeverEmpty(mac) && InjectiveOn(mac, Anything)
      ensures Accepted(mac, File(past.today))
         <==> if Own() == [] then Accepted(mac, past.inherited)
              else Readable(past.inherited) && EntriesOf(past.inherited) + Own() == LastSegment()
    {
      TodayIs();
      hide Accepted, LinesOf, EntriesOf, Segmented, InjectiveOn, NeverEmpty, Readable, SegmentUpTo, Valid;
      AcceptedWith(mac, past.inherited, Own());
      StoredVerifiesIff(mac, EntriesOf(past.inherited), past.written, past.stored, maxEntries, past.dayStart);
      assert past.inherited + [] == past.inherited;
      assert LinesOf([]) == [] by { LinesOfNothing(); }
    }

    /** So where no action is logged twice with the same timestamp: if and only if what was found in it is, and either
        none were added, or none were found and what was stored is one run of consecutive entries that starts at the
        start of a segment and stays within it. */
    lemma OneRunVerifiesIff()
      requires Valid() && NeverEmpty(mac) && InjectiveOn(mac, Anything)
      requires DistinctActions(past.written) && OtherActions(EntriesOf(past.inherited), past.written)
      ensures Accepted(mac, File(past.today))
         <==> && Accepted(mac, past.inherited)
              && (|| Own() == []
                  || (&& EntriesOf(past.inherited) == []
                      && OneRun(past.stored[past.dayStart..], past.dayStart, maxEntries)))
    {
      TodayVerifiesIff();
      TodayIs();
      NothingFound(mac, past.inherited);
      hide Accepted, LinesOf, EntriesOf, Segmented, InjectiveOn, NeverEmpty, Readable, SegmentUpTo, Valid;
      hide DistinctActions, OtherActions, OneRun;
      if Own() != [] {
        IsSegmentIff(EntriesOf(past.inherited), past.written, past.stored, maxEntries, past.dayStart);
      }
    }

    /** So when no write fails it verifies if and only if the process's count stood at the start of a segment when the
        day began, and the day has not gone beyond that segment.  This needs no assumption on collisions. */
    lemma FullDayVerifiesIff()
      requires Valid() && past.inherited == [] && NeverEmpty(mac)
      requires forall i :: past.dayStart <= i < |past.stored| ==> past.stored[i]
      ensures Accepted(mac, File(past.today))
         <==> || past.dayStart == |past.written|
              || (past.dayStart % maxEntries == 0 && |past.written| - past.dayStart <= maxEntries)
    {
      TodayIs();
      AcceptedWith(mac, [], Own());
      NothingFound(mac, []);
      hide Verifies, LinesFrom, EntriesOf, Segmented, Kept, Complete, Accepted;
      AllKept(past.written[past.dayStart..], past.stored[past.dayStart..]);
      assert [] + past.written[past.dayStart..] == past.written[past.dayStart..];
      StretchVerifiesIff(mac, past.written, maxEntries, past.dayStart);
      CompleteIs(past.dayStart, maxEntries);
    }

    /** A process that continues a file with entries of an earlier one breaks its chain with the first entry it
        stores, if that is the first it logs.  This needs no assumption on collisions either. */
    lemma RestartBreaksTheChain()
      requires Valid() && NeverEmpty(mac) && EntriesOf(past.inherited) != []
      requires past.dayStart == 0 && past.written != [] && past.stored[0]
      ensures !Accepted(mac, File(past.today))
    {
      assert past.written[0..] == past.written && past.stored[0..] == past.stored;
      TodayIs();
      AcceptedWith(mac, past.inherited, Own());
      FirstKept(past.written, past.stored);
      FirstLinksToNothing(mac, past.written, maxEntries);
      hide Verifies, EntriesOf, Kept, LinesOf, Accepted, Segmented;
      BreaksAfter(mac, EntriesOf(past.inherited), Own());
    }
  }

  lemma LinesOfNothing()
    ensures LinesOf([]) == []
  {}

  lemma NothingFound(mac: (Action, string) -> string, lines: seq<Line>)
    ensures Accepted(mac, []) && Readable([]) && EntriesOf([]) == []
    ensures Accepted(mac, lines) ==> Readable(lines)
    ensures EntriesOf(lines) == [] ==> (Accepted(mac, lines) <==> Readable(lines))
  {
    NothingVerifies(mac);
  }

  lemma AllKept(entries: seq<LedgerEntry>, keep: seq<bool>)
    requires |keep| == |entries| && forall i :: 0 <= i < |keep| ==> keep[i]
    ensures Kept(entries, keep) == entries
  {
    CutOffKeepsPrefix(entries, keep);
    assert entries[..|entries|] == entries;
  }

  lemma CompleteIs(n: nat, maxEntries: nat)
    requires maxEntries > 0
    ensures Complete(n, maxEntries) <==> n % maxEntries == 0
  {}

  /** Entries that start with a link to nothing do not continue a chain. */
  lemma BreaksAfter(mac: (Action, string) -> string, earlier: seq<LedgerEntry>, more: seq<LedgerEntry>)
    requires NeverEmpty(mac) && earlier != [] && more != [] && more[0].prev == ""
    ensures !Verifies(mac, earlier + more)
  {
    PrefixVerifies(mac, earlier + more, |earlier| + 1);
    assert (earlier + more)[..|earlier| + 1] == earlier + [more[0]];
    VerifiesOneMore(mac, earlier, more[0]);
  }

  lemma {:induction false} FirstKept(entries: seq<LedgerEntry>, keep: seq<bool>)
    requires |keep| == |entries| > 0 && keep[0]
    ensures Kept(entries, keep) != [] && Kept(entries, keep)[0] == entries[0]
  {
    if |entries| > 1 {
      FirstKept(entries[..|entries| - 1], keep[..|keep| - 1]);
    }
  }

  lemma {:induction false} FirstLinksToNothing(mac: (Action, string) -> string, written: seq<LedgerEntry>,
                                               maxEntries: nat)
    requires maxEntries > 0 && Segmented(mac, written, maxEntries) && written != []
    ensures written[0].prev == ""
  {
    if |written| > 1 {
      FirstLinksToNothing(mac, written[..|written| - 1], maxEntries);
    }
  }

  // ----- when the verifier accepts an untampered file -----

  lemma QuotientIsUnique(d: nat, q: nat, r: nat, k: nat, s: nat)
    requires q * d + r == k * d + s && r < d && s < d
    ensures q <= k
  {
    if q > k {
      Scale(k + 1, q, d);
    }
  }

  lemma Scale(a: nat, b: nat, d: nat)
    requires a <= b
    ensures a * d <= b * d
  {}

  lemma RemainderIs(x: nat, d: nat, q: nat, r: nat)
    requires d > 0 && x == q * d + r && r < d
    ensures x % d == r
  {
    var k, s := x / d, x % d;
    assert x == k * d + s;
    QuotientIsUnique(d, q, r, k, s);
    QuotientIsUnique(d, k, s, q, r);
  }

  /** From a multiple of `d`, `m` steps lead to a multiple again exactly when `m` is `d`. */
  lemma NextMultiple(a: nat, m: nat, d: nat)
    requires d > 0 && a % d == 0 && 0 < m <= d
    ensures (a + m) % d == 0 <==> m == d
  {
    var q := a / d;
    assert a == q * d;
    if m < d {
      RemainderIs(a + m, d, q, m);
    } else {
      assert a + m == (q + 1) * d + 0;
      RemainderIs(a + m, d, q + 1, 0);
    }
  }

  /** A stretch of a process's entries verifies if and only if it is empty, or starts at the start of a segment and
      does not go beyond it. */
  lemma {:induction false} StretchVerifiesIff(mac: (Action, string) -> string, written: seq<LedgerEntry>,
                                              maxEntries: nat, from: nat)
    requires maxEntries > 0 && Segmented(mac, written, maxEntries) && NeverEmpty(mac) && from <= |written|
    ensures Verifies(mac, written[from..])
       <==> from == |written| || (Complete(from, maxEntries) && |written| - from <= maxEntries)
  {
    hide Verifies, NeverEmpty, LastHash, Complete;
    if from == |written| {
      NothingVerifies(mac);
      assert written[from..] == [];
    } else {
      var init, e := written[..|written| - 1], written[|written| - 1];
      LastLinks(mac, written, maxEntries);
      hide Segmented;
      StretchVerifiesIff(mac, init, maxEntries, from);
      assert written[from..] == init[from..] + [e];
      VerifiesOneMore(mac, init[from..], e);
      StretchHash(mac, init, maxEntries, from);
      if from < |init| && Complete(from, maxEntries) && |init| - from <= maxEntries {
        NextComplete(from, |init| - from, maxEntries);
      }
    }
  }

  /** The last of some entries: what it links to, and that the ones before are linked like them. */
  lemma LastLinks(mac: (Action, string) -> string, written: seq<LedgerEntry>, maxEntries: nat)
    requires maxEntries > 0 && Segmented(mac, written, maxEntries) && written != []
    ensures var init, e := written[..|written| - 1], written[|written| - 1];
            && Segmented(mac, init, maxEntries)
            && e.hash == mac(e.body, e.prev)
            && e.prev == if Complete(|init|, maxEntries) then "" else LastHash(init)
  {}

  /** A stretch ends with the hash the whole ends with, which is not empty unless the stretch is. */
  lemma StretchHash(mac: (Action, string) -> string, written: seq<LedgerEntry>, maxEntries: nat, from: nat)
    requires maxEntries > 0 && Segmented(mac, written, maxEntries) && NeverEmpty(mac) && from <= |written|
    ensures LastHash(written[from..]) == (if from == |written| then "" else LastHash(written))
    ensures written != [] ==> LastHash(written) != ""
    ensures written == [] ==> Complete(|written|, maxEntries)
  {
    if from < |written| {
      assert written[from..][|written| - from - 1] == written[|written| - 1];
    }
  }

  // ----- when it accepts a file with lost entries -----

  /** The MAC tells any two contents apart. */
  predicate Anything(action: Action, prev: string) { true }

  /** No action is logged twice with the same timestamp. */
  ghost predicate DistinctActions(written: seq<LedgerEntry>) {
    forall i, j :: 0 <= i < j < |written| ==> written[i].body != written[j].body
  }

  /** No action of an earlier process is logged again. */
  ghost predicate OtherActions(earlier: seq<LedgerEntry>, written: seq<LedgerEntry>) {
    forall i, j :: 0 <= i < |earlier| && 0 <= j < |written| ==> earlier[i].body != written[j].body
  }

  /** The last kept entry, -1 if there is none. */
  function LastKept(keep: seq<bool>): (j: int)
    ensures -1 <= j < |keep| && (j >= 0 ==> keep[j])
    ensures forall i :: j < i < |keep| ==> !keep[i]
  {
    if keep == [] then -1 else if keep[|keep| - 1] then |keep| - 1 else LastKept(keep[..|keep| - 1])
  }

  lemma {:induction false} KeptEnds(entries: seq<LedgerEntry>, keep: seq<bool>)
    requires |keep| == |entries|
    ensures var kept, j := Kept(entries, keep), LastKept(keep);
            if j < 0 then kept == [] else kept != [] && kept[|kept| - 1] == entries[j]
  {
    if entries != [] {
      KeptEnds(entries[..|entries| - 1], keep[..|keep| - 1]);
    }
  }

  /** Where the segment of entry `j` starts. */
  function SegmentStart(j: nat, maxEntries: nat): (start: nat)
    requires maxEntries > 0
    ensures start <= j
  {
    j - j % maxEntries
  }

  lemma SegmentStarts(j: nat, maxEntries: nat)
    requires maxEntries > 0
    ensures Complete(SegmentStart(j, maxEntries), maxEntries) && j + 1 - SegmentStart(j, maxEntries) <= maxEntries
  {
    var q := j / maxEntries;
    assert j - j % maxEntries == q * maxEntries + 0;
    RemainderIs(j - j % maxEntries, maxEntries, q, 0);
  }

  /** The entries of the segment entry `j` is in, up to it. */
  function SegmentUpTo(written: seq<LedgerEntry>, j: int, maxEntries: nat): seq<LedgerEntry>
    requires maxEntries > 0
  {
    if 0 <= j < |written| then written[SegmentStart(j, maxEntries)..j + 1] else []
  }

  lemma SegmentVerifies(mac: (Action, string) -> string, written: seq<LedgerEntry>, maxEntries: nat, j: nat)
    requires maxEntries > 0 && Segmented(mac, written, maxEntries) && NeverEmpty(mac) && j < |written|
    ensures var segment := SegmentUpTo(written, j, maxEntries);
            segment != [] && segment[|segment| - 1] == written[j] && Verifies(mac, segment)
  {
    hide Segmented, NeverEmpty, Verifies, Complete, SegmentStart;
    SegmentStarts(j, maxEntries);
    SegmentedPrefix(mac, written, maxEntries, j + 1);
    StretchVerifiesIff(mac, written[..j + 1], maxEntries, SegmentStart(j, maxEntries));
    assert written[..j + 1][SegmentStart(j, maxEntries)..] == SegmentUpTo(written, j, maxEntries);
  }

  /** What an earlier process left and this one stored, of its entries from index `from` on, verifies if and only if
      these are the entries of a segment from its start up to the last one stored. */
  lemma StoredVerifiesIff(mac: (Action, string) -> string, earlier: seq<LedgerEntry>, written: seq<LedgerEntry>,
                          stored: seq<bool>, maxEntries: nat, from: nat)
    requires maxEntries > 0 && Segmented(mac, written, maxEntries) && NeverEmpty(mac) && InjectiveOn(mac, Anything)
    requires from <= |written| == |stored|
    ensures var kept, j := Kept(written[from..], stored[from..]), from + LastKept(stored[from..]);
            && (kept == [] <==> j < from)
            && (Verifies(mac, earlier + kept)
                <==> if kept == [] then Verifies(mac, earlier)
                     else earlier + kept == SegmentUpTo(written, j, maxEntries))
  {
    hide Segmented, Verifies, NeverEmpty, InjectiveOn, Kept, LastKept, SegmentUpTo;
    var kept := Kept(written[from..], stored[from..]);
    KeptEnds(written[from..], stored[from..]);
    if kept == [] {
      assert earlier + kept == earlier;
    } else {
      var j := from + LastKept(stored[from..]);
      SegmentVerifies(mac, written, maxEntries, j);
      var segment := SegmentUpTo(written, j, maxEntries);
      assert segment[..|segment|] == segment;
      var all := earlier + kept;
      assert all[|all| - 1] == kept[|kept| - 1];
      AllWithin(segment);
      AllWithin(all);
      EndTells(mac, Anything, segment, all, |segment|);
    }
  }

  lemma AllWithin(entries: seq<LedgerEntry>)
    ensures Within(Anything, entries)
  {}

  // ----- for distinct actions -----

  /** Exactly the entries from `a` up to `b` are kept. */
  ghost predicate KeepsRun(keep: seq<bool>, a: nat, b: nat) {
    a <= b <= |keep| && forall i :: 0 <= i < |keep| ==> (keep[i] <==> a <= i < b)
  }

  /** The kept entries of a stretch that starts at `from` are one run that starts at the start of a segment and stays
      within it; or none is kept. */
  ghost predicate OneRun(keep: seq<bool>, from: nat, maxEntries: nat)
    requires maxEntries > 0
  {
    exists a: nat, b: nat :: KeepsRun(keep, a, b) && (a == b || ((from + a) % maxEntries == 0 && b - a <= maxEntries))
  }

  function Least(a: nat, b: nat): nat { if a <= b then a else b }

  lemma KeepsOneLess(keep: seq<bool>, a: nat, b: nat)
    requires keep != [] && KeepsRun(keep, a, b)
    ensures var n := |keep| - 1;
            a <= b <= n + 1 && (keep[n] <==> a <= n < b) && KeepsRun(keep[..n], Least(a, n), Least(b, n))
  {}

  lemma {:induction false} RunKept(entries: seq<LedgerEntry>, keep: seq<bool>, a: nat, b: nat)
    requires |keep| == |entries| && KeepsRun(keep, a, b)
    ensures a <= b <= |entries| && Kept(entries, keep) == entries[a..b]
  {
    if entries == [] {
      assert Kept(entries, keep) == [];
    } else {
      var n := |entries| - 1;
      KeepsOneLess(keep, a, b);
      RunKept(entries[..n], keep[..n], Least(a, n), Least(b, n));
      KeptStep(entries, keep);
      hide KeepsRun, Kept;
      SliceSteps(entries, Least(a, n), Least(b, n), n);
    }
  }

  lemma KeptStep(entries: seq<LedgerEntry>, keep: seq<bool>)
    requires |keep| == |entries| > 0
    ensures var n := |entries| - 1;
            Kept(entries, keep)
            == if keep[n] then Kept(entries[..n], keep[..n]) + [entries[n]] else Kept(entries[..n], keep[..n])
  {
    var before := Kept(entries[..|entries| - 1], keep[..|keep| - 1]);
    assert before + [] == before;
  }

  lemma SliceSteps<T>(s: seq<T>, a: nat, b: nat, n: nat)
    requires a <= b <= n < |s|
    ensures s[..n][a..b] == s[a..b]
    ensures s[a..n] + [s[n]] == s[a..n + 1]
  {}

  lemma {:induction false} SegmentedPrefix(mac: (Action, string) -> string, written: seq<LedgerEntry>,
                                           maxEntries: nat, n: nat)
    requires maxEntries > 0 && Segmented(mac, written, maxEntries) && n <= |written|
    ensures Segmented(mac, written[..n], maxEntries)
    ensures n > 0 ==> written[n - 1].hash == mac(written[n - 1].body, written[n - 1].prev)
  {
    if n == |written| {
      assert written[..n] == written;
    } else {
      SegmentedPrefix(mac, written[..|written| - 1], maxEntries, n);
      assert written[..|written| - 1][..n] == written[..n];
    }
  }

  lemma NextComplete(a: nat, m: nat, maxEntries: nat)
    requires maxEntries > 0 && Complete(a, maxEntries) && 0 < m <= maxEntries
    ensures Complete(a + m, maxEntries) <==> m == maxEntries
  {
    NextMultiple(a, m, maxEntries);
  }

  /** Of distinct entries those in the result are the kept ones. */
  lemma {:induction false} KeptAre(entries: seq<LedgerEntry>, keep: seq<bool>)
    requires |keep| == |entries| && DistinctActions(entries)
    ensures forall i :: 0 <= i < |entries| ==> (keep[i] <==> entries[i] in Kept(entries, keep))
    ensures forall e :: e in Kept(entries, keep) ==> e in entries
  {
    if entries != [] {
      var n := |entries| - 1;
      KeptAre(entries[..n], keep[..n]);
      assert forall i :: 0 <= i < n ==> entries[..n][i] == entries[i] && keep[..n][i] == keep[i];
      assert entries[n] !in entries[..n];
      KeptStep(entries, keep);
      hide Kept;
      forall i | 0 <= i < |entries| ensures keep[i] <==> entries[i] in Kept(entries, keep) {
        assert i < n ==> entries[i] != entries[n];
      }
    }
  }


  lemma SliceOfRest<T>(s: seq<T>, from: nat, a: nat, b: nat)
    requires from <= |s| && a <= b <= |s| - from
    ensures s[from..][a..b] == s[from + a..from + b]
  {
    var part, whole := s[from..][a..b], s[from + a..from + b];
    forall i | 0 <= i < b - a ensures part[i] == whole[i] {
      assert part[i] == s[from..][a + i] == s[from + a + i];
    }
  }

  lemma InSlice(entries: seq<LedgerEntry>, a: nat, b: nat, i: nat)
    requires DistinctActions(entries) && a <= b <= |entries| && i < |entries|
    ensures entries[i] in entries[a..b] <==> a <= i < b
  {
    if a <= i < b {
      assert entries[a..b][i - a] == entries[i];
    }
    if entries[i] in entries[a..b] {
      var k :| 0 <= k < b - a && entries[a..b][k] == entries[i];
      assert entries[a + k] == entries[i];
    }
  }

  /** One run is all of a segment up to the last entry kept. */
  lemma RunIsSegment(written: seq<LedgerEntry>, stored: seq<bool>, maxEntries: nat, from: nat, a: nat, b: nat)
    requires maxEntries > 0 && from <= |written| == |stored|
    requires KeepsRun(stored[from..], a, b) && a < b && (from + a) % maxEntries == 0 && b - a <= maxEntries
    ensures LastKept(stored[from..]) == b - 1
    ensures Kept(written[from..], stored[from..]) == SegmentUpTo(written, from + b - 1, maxEntries)
  {
    var keep := stored[from..];
    assert keep[b - 1] && forall i :: b - 1 < i < |keep| ==> !keep[i];
    RunKept(written[from..], keep, a, b);
    SliceOfRest(written, from, a, b);
    hide KeepsRun, Kept;
    var q := (from + a) / maxEntries;
    assert from + a == q * maxEntries;
    RemainderIs(from + b - 1, maxEntries, q, b - 1 - a);
  }

  /** And where all of a segment up to the last entry kept is kept, that is one run. */
  lemma SegmentIsRun(written: seq<LedgerEntry>, stored: seq<bool>, maxEntries: nat, from: nat, j: nat)
    requires maxEntries > 0 && from <= |written| == |stored| && j < |written| && DistinctActions(written)
    requires Kept(written[from..], stored[from..]) == SegmentUpTo(written, j, maxEntries)
    ensures OneRun(stored[from..], from, maxEntries)
  {
    var keep, start := stored[from..], SegmentStart(j, maxEntries);
    SegmentStarts(j, maxEntries);
    CompleteIs(start, maxEntries);
    hide Kept, Complete, SegmentStart, DistinctActions;
    KeptSliceIsRun(written, stored, from, start, j + 1);
    assert from + (start - from) == start;
  }

  lemma DistinctRest(written: seq<LedgerEntry>, from: nat)
    requires from <= |written| && DistinctActions(written)
    ensures DistinctActions(written[from..])
  {}

  lemma KeptSliceIsRun(written: seq<LedgerEntry>, stored: seq<bool>, from: nat, a: nat, b: nat)
    requires from <= |written| == |stored| && a < b <= |written| && DistinctActions(written)
    requires Kept(written[from..], stored[from..]) == written[a..b]
    ensures from <= a && KeepsRun(stored[from..], a - from, b - from)
  {
    hide Kept, DistinctActions;
    KeptFromRest(written, stored, from, a, b);
    forall i | 0 <= i < |stored| - from ensures stored[from..][i] <==> a - from <= i < b - from {
      KeptIffInside(written, stored, from, a, b, i);
    }
  }

  lemma KeptFromRest(written: seq<LedgerEntry>, stored: seq<bool>, from: nat, a: nat, b: nat)
    requires from <= |written| == |stored| && a < b <= |written| && DistinctActions(written)
    requires Kept(written[from..], stored[from..]) == written[a..b]
    ensures from <= a
  {
    DistinctRest(written, from);
    KeptAre(written[from..], stored[from..]);
    hide Kept, DistinctActions;
    assert written[from..|written|] == written[from..];
    InSlice(written, a, b, a);
    InSlice(written, from, |written|, a);
  }

  lemma KeptIffInside(written: seq<LedgerEntry>, stored: seq<bool>, from: nat, a: nat, b: nat, i: nat)
    requires from <= |written| == |stored| && a < b <= |written| && DistinctActions(written)
    requires Kept(written[from..], stored[from..]) == written[a..b] && i < |stored| - from
    ensures stored[from..][i] <==> a <= from + i < b
  {
    DistinctRest(written, from);
    KeptAre(written[from..], stored[from..]);
    hide Kept, DistinctActions;
    assert written[from..][i] == written[from + i];
    InSlice(written, a, b, from + i);
  }

  lemma NoneBefore(earlier: seq<LedgerEntry>, kept: seq<LedgerEntry>, written: seq<LedgerEntry>, a: nat, b: nat)
    requires OtherActions(earlier, written) && a < b <= |written|
    ensures earlier + kept == written[a..b] ==> earlier == []
  {
    assert written[a..b][0] == written[a];
    assert earlier != [] ==> (earlier + kept)[0] == earlier[0];
  }

  lemma IsSegmentIff(earlier: seq<LedgerEntry>, written: seq<LedgerEntry>, stored: seq<bool>, maxEntries: nat,
                     from: nat)
    requires maxEntries > 0 && from <= |written| == |stored|
    requires DistinctActions(written) && OtherActions(earlier, written)
    requires Kept(written[from..], stored[from..]) != []
    ensures earlier + Kept(written[from..], stored[from..])
            == SegmentUpTo(written, from + LastKept(stored[from..]), maxEntries)
       <==> earlier == [] && OneRun(stored[from..], from, maxEntries)
  {
    var keep := stored[from..];
    var kept := Kept(written[from..], keep);
    KeptEnds(written[from..], keep);
    var j := from + LastKept(keep);
    hide Kept, LastKept, KeepsRun, Complete, SegmentStart, OtherActions, DistinctActions;
    NoneBefore(earlier, kept, written, SegmentStart(j, maxEntries), j + 1);
    if earlier == [] {
      assert earlier + kept == kept;
      if kept == SegmentUpTo(written, j, maxEntries) {
        SegmentIsRun(written, stored, maxEntries, from, j);
      }
      if OneRun(keep, from, maxEntries) {
        var a: nat, b: nat :| KeepsRun(keep, a, b)
                              && (a == b || ((from + a) % maxEntries == 0 && b - a <= maxEntries));
        RunKept(written[from..], keep, a, b);
        RunIsSegment(written, stored, maxEntries, from, a, b);
      }
    }
  }
}
