/** Brute-force bans with escalating penalties, src/brain/security/ban.py.

    A record keeps every failure since the key was last cleared.  The stage and the end of the ban, which the code
    updates incrementally, are specified as functions of that list alone. */
module Banning {
  import opened Windows

  datatype Rule = Rule(threshold: nat, window: real, duration: real)

  const SOFT: nat := 1
  const MEDIUM: nat := 2
  const HARD: nat := 3

  /** Failures in a window of seconds, and the length of the ban they earn; rule `k` leads to stage `k + 1`. */
  const RULES: seq<Rule> := [Rule(5, 300.0, 300.0), Rule(10, 900.0, 1800.0), Rule(20, 3600.0, 86400.0)]

  datatype Record = Record(failures: seq<real>, bannedUntil: real, stage: nat, isPermanent: bool)

  const NEW_RECORD := Record([], 0.0, 0, false)

  datatype Remaining = Seconds(seconds: real) | Forever

  datatype BanInfo = Permanent(reason: string) | Temporary(stage: nat, remaining: Remaining, failureCount: nat)

  // ----- what the list of failures means -----

  /** At least `threshold` failures lie in the half-open window ending at `t`. */
  predicate FullAt(rule: Rule, failures: seq<real>, t: real) {
    CountIn(failures, t - rule.window, t) >= rule.threshold
  }

  /** The rule was satisfied at the time of some failure. */
  ghost predicate Reached(rule: Rule, failures: seq<real>) {
    exists i :: 0 <= i < |failures| && FullAt(rule, failures, failures[i])
  }

  /** The highest stage whose rule the failures ever satisfied. */
  ghost function StageOf(failures: seq<real>): (stage: nat)
    ensures stage <= HARD
  {
    if Reached(RULES[2], failures) then HARD
    else if Reached(RULES[1], failures) then MEDIUM
    else if Reached(RULES[0], failures) then SOFT
    else 0
  }

  /** The ban runs from the failure at which the stage last rose. */
  ghost function BanEnd(failures: seq<real>): real {
    if failures == [] then 0.0 else
      var init := failures[..|failures| - 1];
      if StageOf(failures) > StageOf(init)
      then failures[|failures| - 1] + RULES[StageOf(failures) - 1].duration
      else BanEnd(init)
  }

  /** What the code keeps for a key is what its failures mean. */
  ghost predicate Faithful(r: Record, permanentStage3: bool, clock: real) {
    && Ordered(r.failures) && AllUpTo(r.failures, clock)
    && r.stage == StageOf(r.failures)
    && (r.isPermanent <==> permanentStage3 && r.stage == HARD)
    && r.bannedUntil == if r.isPermanent then 0.0 else BanEnd(r.failures)
  }

  /** The highest stage whose rule is satisfied by the window ending now. */
  function FullStage(failures: seq<real>, now: real): (stage: nat)
    ensures stage <= HARD
  {
    if FullAt(RULES[2], failures, now) then HARD
    else if FullAt(RULES[1], failures, now) then MEDIUM
    else if FullAt(RULES[0], failures, now) then SOFT
    else 0
  }

  /** One more failure reaches a rule if it was reached before or the window ending now is full. */
  lemma ReachedStep(rule: Rule, failures: seq<real>, now: real)
    requires AllUpTo(failures, now)
    ensures Reached(rule, failures + [now]) <==> Reached(rule, failures) || FullAt(rule, failures + [now], now)
  {
    hide CountIn;
    var longer := failures + [now];
    AllUpToIndexed(failures, now);
    if Reached(rule, failures) {
      var i :| 0 <= i < |failures| && FullAt(rule, failures, failures[i]);
      CountInAppend(failures, now, failures[i] - rule.window, failures[i]);
      assert FullAt(rule, longer, longer[i]);
    }
    if FullAt(rule, longer, now) {
      assert longer[|failures|] == now;
    }
    if Reached(rule, longer) {
      var i :| 0 <= i < |longer| && FullAt(rule, longer, longer[i]);
      if longer[i] != now {
        CountInAppend(failures, now, failures[i] - rule.window, failures[i]);
        assert FullAt(rule, failures, failures[i]);
      }
    }
  }

  /** One more failure lifts the stage exactly to what the windows ending now call for. */
  lemma StageStep(failures: seq<real>, now: real)
    requires AllUpTo(failures, now)
    ensures var full := FullStage(failures + [now], now);
            StageOf(failures + [now]) == if full > StageOf(failures) then full else StageOf(failures)
  {
    ReachedStep(RULES[0], failures, now);
    ReachedStep(RULES[1], failures, now);
    ReachedStep(RULES[2], failures, now);
  }

  lemma FaithfulAges(r: Record, permanentStage3: bool, clock: real, now: real)
    requires Faithful(r, permanentStage3, clock) && clock <= now
    ensures Faithful(r, permanentStage3, now)
  {
    AllUpToRaised(r.failures, clock, now);
  }

  /** What the loop over the rules makes of a record that has just got its newest failure. */
  ghost predicate Escalated(r: Record, permanentStage3: bool, now: real, updated: Record) {
    var full := FullStage(r.failures, now);
    if full <= r.stage then updated == r
    else if permanentStage3 && full == HARD then updated == Record(r.failures, 0.0, full, true)
    else updated == Record(r.failures, now + RULES[full - 1].duration, full, false)
  }

  /** That brings the record back in line with its failures. */
  lemma FaithfulStep(r: Record, permanentStage3: bool, now: real, updated: Record)
    requires Faithful(r, permanentStage3, now)
    requires Escalated(r.(failures := r.failures + [now]), permanentStage3, now, updated)
    ensures Faithful(updated, permanentStage3, now)
    ensures updated.failures == r.failures + [now]
  {
    hide StageOf, FullStage;
    StageStep(r.failures, now);
    assert updated.failures[..|r.failures|] == r.failures;
  }

  /** How a temporarily banned key is listed, in terms of its failures. */
  ghost function Listed(r: Record, now: real): BanInfo {
    Temporary(StageOf(r.failures), Seconds(BanEnd(r.failures) - now), |r.failures|)
  }

  lemma FaithfulEnds(r: Record, permanentStage3: bool, clock: real)
    requires Faithful(r, permanentStage3, clock)
    ensures r.stage == StageOf(r.failures)
    ensures !r.isPermanent ==> r.bannedUntil == BanEnd(r.failures)
  {}

  lemma NewRecordIsFaithful(permanentStage3: bool, clock: real)
    ensures Faithful(NEW_RECORD, permanentStage3, clock)
  {
    assert !Reached(RULES[0], []) && !Reached(RULES[1], []) && !Reached(RULES[2], []);
  }

  lemma FaithfulShape(r: Record, permanentStage3: bool, now: real)
    requires Faithful(r, permanentStage3, now)
    ensures r.stage <= HARD && AllUpTo(r.failures + [now], now)
    ensures r.stage == StageOf(r.failures) && (r.isPermanent <==> permanentStage3 && r.stage == HARD)
  {
    assert (r.failures + [now])[..|r.failures|] == r.failures;
  }

  lemma NothingEarnedByNothing()
    ensures BanEnd([]) == 0.0
  {}

  ghost predicate AllFaithful(records: map<string, Record>, permanentStage3: bool, clock: real) {
    forall key :: key in records ==> Faithful(records[key], permanentStage3, clock)
  }

  /** The record a failure of `key` is added to, and the state of all records once it has been. */
  function RecordOf(records: map<string, Record>, key: string): Record {
    if key in records then records[key] else NEW_RECORD
  }

  lemma RecordOfIsFaithful(records: map<string, Record>, permanentStage3: bool, clock: real, key: string, now: real)
    requires AllFaithful(records, permanentStage3, clock) && clock <= now
    ensures Faithful(RecordOf(records, key), permanentStage3, now)
  {
    NewRecordIsFaithful(permanentStage3, clock);
    FaithfulAges(RecordOf(records, key), permanentStage3, clock, now);
  }

  lemma AllFaithfulUpdated(records: map<string, Record>, permanentStage3: bool, clock: real, key: string, now: real,
                           updated: Record)
    requires AllFaithful(records, permanentStage3, clock) && clock <= now
    requires Faithful(updated, permanentStage3, now)
    ensures AllFaithful(records[key := updated], permanentStage3, now)
  {
    hide Faithful;
    forall other | other in records ensures Faithful(records[other], permanentStage3, now) {
      FaithfulAges(records[other], permanentStage3, clock, now);
    }
  }

  // ----- the manager -----

  class BanManager {
    const permanentStage3: bool
    var records: map<string, Record>
    var permanentBans: map<string, string>

    ghost var clock: real

    ghost predicate Valid()
      reads this
    {
      && 0.0 <= clock
      && AllFaithful(records, permanentStage3, clock)
      && (forall key :: key in records && records[key].isPermanent ==> key in permanentBans)
    }

    /** The failures recorded for a key since it was last cleared. */
    ghost function Failures(key: string): seq<real>
      reads this`records
    {
      if key in records then records[key].failures else []
    }

    /** A key is banned when it is on the permanent list or the ban its failures earned has not run out. */
    ghost predicate BannedAt(key: string, now: real)
      reads this
    {
      key in permanentBans || now < BanEnd(Failures(key))
    }

    constructor (permanentStage3: bool, persisted: map<string, string>, ghost start: real)
      requires 0.0 <= start
      ensures Valid() && records == map[] && permanentBans == persisted && clock == start
      ensures this.permanentStage3 == permanentStage3
    {
      this.permanentStage3 := permanentStage3;
      records := map[];
      permanentBans := persisted;
      clock := start;
    }

    method IsBanned(key: string, now: real) returns (banned: bool)
      requires Valid() && clock <= now
      ensures banned <==> BannedAt(key, now)
    {
      if key in permanentBans {
        return true;
      }
      if key !in records {
        return false;
      }
      var record := records[key];
      if record.isPermanent {
        return true;
      }
      if record.bannedUntil > 0.0 && now < record.bannedUntil {
        return true;
      }
      return false;
    }

    method GetBanRemaining(key: string, now: real) returns (left: Remaining)
      requires Valid() && clock <= now
      ensures left == Forever <==> key in permanentBans
      ensures left.Seconds? ==> left.seconds == if BannedAt(key, now) then BanEnd(Failures(key)) - now else 0.0
      ensures (left.Forever? || left.seconds > 0.0) <==> BannedAt(key, now)
    {
      if key in permanentBans {
        return Forever;
      }
      if key !in records {
        return Seconds(0.0);
      }
      var record := records[key];
      if record.isPermanent {
        return Forever;
      }
      var remaining := record.bannedUntil - now;
      return Seconds(if remaining > 0.0 then remaining else 0.0);
    }

    /** The listing contains exactly the banned keys. */
    method ListBans(now: real) returns (result: map<string, BanInfo>)
      requires Valid() && clock <= now
      ensures forall key :: key in result <==> BannedAt(key, now)
      ensures forall key :: key in permanentBans ==> key in result && result[key] == Permanent(permanentBans[key])
      ensures forall key :: key in result && key !in permanentBans ==>
                key in records && result[key] == Listed(records[key], now)
    {
      hide Faithful, StageOf, BanEnd, FullAt, Reached;
      result := map[];
      var todo := permanentBans.Keys;
      while todo != {}
        invariant todo <= permanentBans.Keys && result.Keys == permanentBans.Keys - todo
        invariant forall key :: key in result ==> result[key] == Permanent(permanentBans[key])
        decreases todo
      {
        var key :| key in todo;
        result := result[key := Permanent(permanentBans[key])];
        todo := todo - {key};
      }
      todo := records.Keys;
      while todo != {}
        invariant todo <= records.Keys && permanentBans.Keys <= result.Keys
        invariant forall key :: key in permanentBans ==> result[key] == Permanent(permanentBans[key])
        invariant forall key :: key in result && key !in permanentBans ==>
                    key in records && now < BanEnd(records[key].failures) && result[key] == Listed(records[key], now)
        invariant forall key :: key in records && key !in todo && now < BanEnd(records[key].failures) ==> key in result
        decreases todo
      {
        var key :| key in todo;
        todo := todo - {key};
        var record := records[key];
        FaithfulEnds(record, permanentStage3, clock);
        if key !in result {
          if record.isPermanent || (record.bannedUntil > 0.0 && now < record.bannedUntil) {
            var remaining := if record.isPermanent then Forever else Seconds(record.bannedUntil - now);
            result := result[key := Temporary(record.stage, remaining, |record.failures|)];
          }
        }
      }
      NothingEarnedByNothing();
    }

    /** The loop over the rules, run on a record that has just got its newest failure. */
    method EvaluateEscalation(key: string, record: Record, now: real) returns (updated: Record)
      requires record.stage <= HARD && (record.isPermanent ==> record.stage == HARD) && AllUpTo(record.failures, now)
      modifies this`permanentBans
      ensures Escalated(record, permanentStage3, now, updated)
      ensures permanentBans == if updated.isPermanent && !record.isPermanent
                               then old(permanentBans)[key := "Stage 3 auto-escalation"] else old(permanentBans)
    {
      hide CountIn, AllUpTo;
      updated := record;
      for k := 0 to |RULES|
        invariant record.stage <= updated.stage <= HARD
        invariant updated.stage == record.stage ==> updated == record
        invariant updated.stage > record.stage ==>
                    && updated.stage <= k
                    && FullAt(RULES[updated.stage - 1], record.failures, now)
                    && updated == if permanentStage3 && updated.stage == HARD
                                  then Record(record.failures, 0.0, HARD, true)
                                  else Record(record.failures, now + RULES[updated.stage - 1].duration,
                                              updated.stage, false)
        invariant permanentBans == if updated.isPermanent && !record.isPermanent
                                   then old(permanentBans)[key := "Stage 3 auto-escalation"] else old(permanentBans)
        invariant forall j :: updated.stage <= j < k ==> !FullAt(RULES[j], record.failures, now)
      {
        var stage := k + 1;
        if updated.stage >= stage {
          continue;
        }
        var recent := After(updated.failures, now - RULES[k].window);
        AfterCounts(record.failures, now - RULES[k].window, now);
        if |recent| >= RULES[k].threshold {
          updated := updated.(stage := stage);
          if stage == HARD && permanentStage3 {
            updated := updated.(isPermanent := true, bannedUntil := 0.0);
            permanentBans := permanentBans[key := "Stage 3 auto-escalation"];
          } else {
            updated := updated.(bannedUntil := now + RULES[k].duration);
          }
        }
      }
    }

    method RecordFailure(key: string, now: real)
      requires Valid() && clock <= now
      modifies this
      ensures Valid() && clock == now
      ensures Failures(key) == old(Failures(key)) + [now]
      ensures forall other :: other != key ==> Failures(other) == old(Failures(other))
      ensures permanentBans == if permanentStage3 && StageOf(old(Failures(key))) < HARD
                                  && StageOf(Failures(key)) == HARD
                               then old(permanentBans)[key := "Stage 3 auto-escalation"] else old(permanentBans)
    {
      hide Faithful, AllFaithful, Escalated, AllUpTo, StageOf;
      ghost var before := clock;
      clock := now;
      var record := if key in records then records[key] else NEW_RECORD;
      RecordOfIsFaithful(records, permanentStage3, before, key, now);
      FaithfulShape(record, permanentStage3, now);
      var updated := EvaluateEscalation(key, record.(failures := record.failures + [now]), now);
      FaithfulStep(record, permanentStage3, now, updated);
      FaithfulShape(updated, permanentStage3, now);
      AllFaithfulUpdated(records, permanentStage3, before, key, now, updated);
      records := records[key := updated];
    }

    /** A success clears the key's failures, unless they already earned a permanent ban. */
    method RecordSuccess(key: string)
      requires Valid()
      modifies this`records
      ensures Valid()
      ensures Failures(key) == if permanentStage3 && StageOf(old(Failures(key))) == HARD then old(Failures(key)) else []
      ensures forall other :: other != key ==> Failures(other) == old(Failures(other))
    {
      if key in records && !records[key].isPermanent {
        records := records - {key};
      }
    }

    method BanPermanent(key: string, reason: string)
      requires Valid()
      modifies this`permanentBans
      ensures Valid()
      ensures permanentBans == old(permanentBans)[key := if reason == "" then "Manual admin ban" else reason]
    {
      permanentBans := permanentBans[key := if reason == "" then "Manual admin ban" else reason];
    }

    /** The only operation that lifts a permanent ban; it reports whether there was anything to remove. */
    method Unban(key: string, now: real) returns (removed: bool)
      requires Valid() && clock <= now
      modifies this`records, this`permanentBans
      ensures Valid() && permanentBans == old(permanentBans) - {key} && !BannedAt(key, now)
      ensures Failures(key) == [] && forall other :: other != key ==> Failures(other) == old(Failures(other))
      ensures removed <==> key in old(permanentBans) || key in old(records)
    {
      removed := false;
      if key in permanentBans {
        permanentBans := permanentBans - {key};
        removed := true;
      }
      if key in records {
        records := records - {key};
        removed := true;
      }
    }
  }

  // ----- what escalation guarantees, and what it does not -----

  /** A ban never ends later than the latest failure plus the current stage's penalty. */
  lemma {:induction false} BanEndIsEarned(failures: seq<real>, bound: real)
    requires Ordered(failures) && AllUpTo(failures, bound)
    ensures StageOf(failures) == 0 ==> BanEnd(failures) == 0.0
    ensures StageOf(failures) > 0 ==> BanEnd(failures) <= bound + RULES[StageOf(failures) - 1].duration
  {
    if failures == [] {
      assert !Reached(RULES[0], []) && !Reached(RULES[1], []) && !Reached(RULES[2], []);
    } else {
      hide StageOf, FullStage;
      var init, last := failures[..|failures| - 1], failures[|failures| - 1];
      assert failures == init + [last];
      StageStep(init, last);
      BanEndIsEarned(init, last);
    }
  }

  /** Between clears the stage and the end of the ban never go down. */
  lemma EscalationIsMonotone(failures: seq<real>, now: real)
    requires Ordered(failures) && AllUpTo(failures, now) && 0.0 <= now
    ensures StageOf(failures) <= StageOf(failures + [now])
    ensures BanEnd(failures) <= BanEnd(failures + [now])
  {
    hide StageOf, FullStage;
    var longer := failures + [now];
    assert longer[..|failures|] == failures;
    StageStep(failures, now);
    BanEndIsEarned(failures, now);
  }

  /** A failure after the ban has run out bans again if and only if the window ending with it is full for a stage above
      the highest one reached, that is if it raises the stage. */
  lemma BannedAgainIffStageRises(failures: seq<real>, now: real)
    requires Ordered(failures + [now]) && BanEnd(failures) <= now
    ensures now < BanEnd(failures + [now]) <==> FullStage(failures + [now], now) > StageOf(failures)
    ensures now < BanEnd(failures + [now]) <==> StageOf(failures + [now]) > StageOf(failures)
  {
    assert (failures + [now])[..|failures|] == failures;
    StageStep(failures, now);
    hide StageOf, FullStage;
  }

  /** Hence, without the permanent mode, the ladder runs out: once a key has reached the last stage and served that
      ban, no number of further failures bans it again. */
  lemma {:induction false} LadderRunsOut(failures: seq<real>, more: seq<real>)
    requires Ordered(failures + more) && StageOf(failures) == HARD
    ensures StageOf(failures + more) == HARD && BanEnd(failures + more) == BanEnd(failures)
    decreases |more|
  {
    if more == [] {
      assert failures + more == failures;
    } else {
      var init, last := more[..|more| - 1], more[|more| - 1];
      assert (failures + more)[..|failures + more| - 1] == failures + init;
      assert failures + more == (failures + init) + [last];
      LadderRunsOut(failures, init);
      StageStep(failures + init, last);
    }
  }
}
