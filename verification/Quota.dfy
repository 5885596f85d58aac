/** Daily usage quotas of the queue worker, src/brain/queue/worker.py: counters in memory, reloaded from a snapshot
    on disk when a day or a process begins, and the demo cost cap on top of them.

    The ghost field `grants` lists every request ever granted by this process; the counters are shown to say exactly
    what it says. */
module UsageQuota {

  datatype UsageKind = PipelineRun | LlmCall

  datatype Usage = Usage(date: int, pipelineRuns: nat, llmCalls: nat) {
    function Of(kind: UsageKind): nat { if kind == PipelineRun then pipelineRuns else llmCalls }
    function Plus(kind: UsageKind): Usage {
      if kind == PipelineRun then this.(pipelineRuns := pipelineRuns + 1) else this.(llmCalls := llmCalls + 1)
    }
  }

  datatype Grant = Grant(tenant: string, kind: UsageKind, date: int)

  function Count(grants: seq<Grant>, g: Grant): nat {
    if grants == [] then 0 else Count(grants[..|grants| - 1], g) + (if grants[|grants| - 1] == g then 1 else 0)
  }

  lemma CountAppend(grants: seq<Grant>, g: Grant)
    ensures forall h :: Count(grants + [g], h) == Count(grants, h) + (if g == h then 1 else 0)
  {
    assert (grants + [g])[..|grants|] == grants;
  }

  type Table = map<string, Usage>

  /** What a snapshot says had been used of a day. */
  function UsedIn(t: Table, g: Grant): nat {
    if g.tenant in t && t[g.tenant].date == g.date then t[g.tenant].Of(g.kind) else 0
  }

  /** A counter is what the process started with plus what it has granted on the counter's day. */
  ghost predicate CountersAgree(usage: Usage, start: Table, grants: seq<Grant>, tid: string, kind: UsageKind) {
    var g := Grant(tid, kind, usage.date);
    usage.Of(kind) == UsedIn(start, g) + Count(grants, g)
  }

  /** Memory, disk and grants agree about one tenant, `start` being the disk when the process began. */
  ghost predicate Agrees(memory: Table, disk: Table, start: Table, grants: seq<Grant>, clock: int, tid: string) {
    && (tid in start ==> start[tid].date <= clock)
    && (tid !in memory ==>
          && (tid in disk <==> tid in start) && (tid in disk ==> disk[tid] == start[tid])
          && forall g: Grant :: g.tenant == tid ==> Count(grants, g) == 0)
    && (tid in memory ==>
          && memory[tid].date <= clock
          && (tid in start ==> start[tid].date <= memory[tid].date)
          && (tid in disk ==> disk[tid].date <= memory[tid].date)
          && (tid in disk && disk[tid].date == memory[tid].date ==>
                disk[tid].pipelineRuns <= memory[tid].pipelineRuns && disk[tid].llmCalls <= memory[tid].llmCalls)
          && (forall g: Grant :: g.tenant == tid && g.date > memory[tid].date ==> Count(grants, g) == 0)
          && CountersAgree(memory[tid], start, grants, tid, PipelineRun)
          && CountersAgree(memory[tid], start, grants, tid, LlmCall))
  }

  /** The counters in force for a tenant today: those in memory, else those on disk, else zero. */
  function Current(memory: Table, disk: Table, tid: string, today: int): Usage {
    if tid in memory && memory[tid].date == today then memory[tid]
    else if tid in disk && disk[tid].date == today then disk[tid]
    else Usage(today, 0, 0)
  }

  /** They are what the process started with plus what it has granted today. */
  lemma CurrentCounts(memory: Table, disk: Table, start: Table, grants: seq<Grant>, clock: int, tid: string, today: int,
                      kind: UsageKind)
    requires Agrees(memory, disk, start, grants, clock, tid) && clock <= today
    ensures Current(memory, disk, tid, today).Of(kind)
         == UsedIn(start, Grant(tid, kind, today)) + Count(grants, Grant(tid, kind, today))
    ensures Current(memory, disk, tid, today).date == today
  {}

  /** Bringing the counters into memory keeps the agreement. */
  lemma AgreesRefreshed(memory: Table, disk: Table, start: Table, grants: seq<Grant>, clock: int, tid: string,
                        today: int)
    requires Agrees(memory, disk, start, grants, clock, tid) && clock <= today
    ensures Agrees(memory[tid := Current(memory, disk, tid, today)], disk, start, grants, today, tid)
  {
    CurrentCounts(memory, disk, start, grants, clock, tid, today, PipelineRun);
    CurrentCounts(memory, disk, start, grants, clock, tid, today, LlmCall);
    hide Count, UsedIn;
  }

  /** Recording one more grant keeps it. */
  lemma AgreesGranted(memory: Table, disk: Table, start: Table, grants: seq<Grant>, today: int, tid: string,
                      kind: UsageKind)
    requires Agrees(memory, disk, start, grants, today, tid) && tid in memory && memory[tid].date == today
    ensures Agrees(memory[tid := memory[tid].Plus(kind)], disk, start, grants + [Grant(tid, kind, today)], today, tid)
  {
    CountAppend(grants, Grant(tid, kind, today));
    hide Count, UsedIn;
  }

  /** Recording today's counters, with one more if something was granted, keeps the agreement. */
  lemma AgreesAfterCheck(memory: Table, disk: Table, start: Table, grants: seq<Grant>, clock: int, tid: string,
                         today: int, kind: UsageKind, granted: bool)
    requires Agrees(memory, disk, start, grants, clock, tid) && clock <= today
    ensures var now := Current(memory, disk, tid, today);
            Agrees(memory[tid := if granted then now.Plus(kind) else now], disk, start,
                   if granted then grants + [Grant(tid, kind, today)] else grants, today, tid)
  {
    AgreesRefreshed(memory, disk, start, grants, clock, tid, today);
    hide Agrees;
    if granted {
      var now := Current(memory, disk, tid, today);
      AgreesGranted(memory[tid := now], disk, start, grants, today, tid, kind);
      assert memory[tid := now][tid := now.Plus(kind)] == memory[tid := now.Plus(kind)];
    }
  }

  lemma OthersAgree(memory: Table, disk: Table, start: Table, grants: seq<Grant>, clock: int, today: int,
                    other: string, tid: string, usage: Usage, kind: UsageKind)
    requires Agrees(memory, disk, start, grants, clock, other) && clock <= today && other != tid
    ensures Agrees(memory[tid := usage], disk, start, grants, today, other)
    ensures Agrees(memory[tid := usage], disk, start, grants + [Grant(tid, kind, today)], today, other)
  {
    CountAppend(grants, Grant(tid, kind, today));
    hide Count;
  }

  ghost predicate AllTenantsAgree(memory: Table, disk: Table, start: Table, grants: seq<Grant>, clock: int) {
    forall tid :: Agrees(memory, disk, start, grants, clock, tid)
  }

  /** Nothing was granted beyond the quota of its day. */
  ghost predicate Within(grants: seq<Grant>, start: Table, quotaOf: Grant -> int) {
    forall g :: Count(grants, g) > 0 ==> UsedIn(start, g) + Count(grants, g) <= quotaOf(g)
  }

  /** Of the granted runs of a demo tenant, only so many were executed as its cost cap allows. */
  ghost predicate Capped(executed: seq<Grant>, grants: seq<Grant>, start: Table, capOf: string -> int) {
    forall g :: Count(executed, g) <= Count(grants, g)
             && (Count(executed, g) > 0 ==> UsedIn(start, g) + Count(executed, g) <= capOf(g.tenant))
  }

  lemma AllTenantsAgreeAfterCheck(memory: Table, disk: Table, start: Table, grants: seq<Grant>, clock: int, tid: string,
                           today: int, kind: UsageKind, granted: bool)
    requires AllTenantsAgree(memory, disk, start, grants, clock) && clock <= today
    ensures var now := Current(memory, disk, tid, today);
            AllTenantsAgree(memory[tid := if granted then now.Plus(kind) else now], disk, start,
                     if granted then grants + [Grant(tid, kind, today)] else grants, today)
  {
    hide Agrees;
    var now := Current(memory, disk, tid, today);
    var usage := if granted then now.Plus(kind) else now;
    var memory', grants' := memory[tid := usage], if granted then grants + [Grant(tid, kind, today)] else grants;
    forall other ensures Agrees(memory', disk, start, grants', today, other) {
      if other == tid {
        AgreesAfterCheck(memory, disk, start, grants, clock, tid, today, kind, granted);
      } else {
        OthersAgree(memory, disk, start, grants, clock, today, other, tid, usage, kind);
      }
    }
  }

  lemma AllTenantsAgreePersisted(memory: Table, disk: Table, start: Table, grants: seq<Grant>, clock: int, tid: string)
    requires AllTenantsAgree(memory, disk, start, grants, clock) && tid in memory
    ensures AllTenantsAgree(memory, disk[tid := memory[tid]], start, grants, clock)
  {
    var disk' := disk[tid := memory[tid]];
    forall other ensures Agrees(memory, disk', start, grants, clock, other) {
      assert Agrees(memory, disk, start, grants, clock, other);
    }
  }

  lemma PlusCounts(usage: Usage, kind: UsageKind)
    ensures usage.Plus(kind).date == usage.date && usage.Plus(kind).Of(kind) == usage.Of(kind) + 1
  {}

  datatype TenantInfo = TenantInfo(id: string, isDemo: bool, demoExpired: bool)

  datatype Verdict = TenantNotFound | DemoExpired | QuotaExceeded | DemoCostCap | Executed | Raised {
    /** The quota was charged. */
    predicate Charged() { DemoCostCap? || Ran() }

    predicate Ran() { Executed? || Raised? }
  }

  lemma WithinStep(grants: seq<Grant>, start: Table, quotaOf: Grant -> int, g: Grant)
    requires Within(grants, start, quotaOf) && UsedIn(start, g) + Count(grants, g) < quotaOf(g)
    ensures Within(grants + [g], start, quotaOf)
  {
    CountAppend(grants, g);
    hide Count, UsedIn;
  }

  lemma CappedStep(executed: seq<Grant>, grants: seq<Grant>, start: Table, capOf: string -> int, g: Grant)
    requires Capped(executed, grants, start, capOf)
    ensures Capped(executed, grants + [g], start, capOf)
    ensures UsedIn(start, g) + Count(grants, g) + 1 <= capOf(g.tenant) ==>
              Capped(executed + [g], grants + [g], start, capOf)
  {
    CountAppend(grants, g);
    CountAppend(executed, g);
    hide Count, UsedIn;
  }

  class UsageTracker {
    var memory: Table                        // _daily_usage
    var disk: Table                          // the persisted snapshots

    ghost const start: Table                 // the disk when the process began
    ghost const quotaOf: Grant -> int        // the quota in force, fixed for a day
    const capOf: string -> int               // the cost cap of demo tenants
    ghost var grants: seq<Grant>
    ghost var executed: seq<Grant>           // demo pipeline runs that got past the cost cap
    ghost var clock: int

    ghost predicate Valid()
      reads this
    {
      && AllTenantsAgree(memory, disk, start, grants, clock)
      && Within(grants, start, quotaOf)
      && Capped(executed, grants, start, capOf)
    }

    constructor (disk: Table, ghost quotaOf: Grant -> int, capOf: string -> int, ghost today: int)
      requires forall tid :: tid in disk ==> disk[tid].date <= today
      ensures Valid() && grants == [] && clock == today
      ensures this.quotaOf == quotaOf && this.capOf == capOf && this.start == disk
    {
      this.memory, this.disk, this.start := map[], disk, disk;
      this.quotaOf, this.capOf := quotaOf, capOf;
      grants, executed, clock := [], [], today;
    }

    method LoadUsage(tid: string)
      modifies this`memory
      ensures memory == if tid in disk then old(memory)[tid := disk[tid]] else old(memory)
    {
      if tid in disk {
        memory := memory[tid := disk[tid]];
      }
    }

    /** The reset at the first use on a day: load the snapshot, and start from zero if it is not of today. */
    method RefreshUsage(tid: string, today: int)
      modifies this`memory
      ensures memory == old(memory)[tid := Current(old(memory), disk, tid, today)]
    {
      if tid !in memory || memory[tid].date != today {
        LoadUsage(tid);
        if tid !in memory || memory[tid].date != today {
          memory := memory[tid := Usage(today, 0, 0)];
        }
      }
    }

    /** Grants exactly while what has been granted today, together with what the process found on disk, is below the
        quota. */
    method CheckQuota(tid: string, kind: UsageKind, today: int, quota: int) returns (ok: bool)
      requires Valid() && clock <= today && quota == quotaOf(Grant(tid, kind, today))
      modifies this`memory, this`grants, this`clock
      ensures Valid() && clock == today
      ensures var g := Grant(tid, kind, today);
              && (ok <==> UsedIn(start, g) + Count(old(grants), g) < quota)
              && grants == (if ok then old(grants) + [g] else old(grants))
      ensures tid in memory && memory[tid].date == today
           && memory[tid].Of(kind) == UsedIn(start, Grant(tid, kind, today)) + Count(grants, Grant(tid, kind, today))
    {
      ghost var before, earlier := memory, clock;
      CountAppend(grants, Grant(tid, kind, today));
      CurrentCounts(memory, disk, start, grants, clock, tid, today, kind) by {
        assert Agrees(memory, disk, start, grants, clock, tid);
      }
      hide *;
      RefreshUsage(tid, today);
      var usage := memory[tid];
      PlusCounts(usage, kind);
      clock := today;
      ok := usage.Of(kind) < quota;
      AllTenantsAgreeAfterCheck(before, disk, start, grants, earlier, tid, today, kind, ok);
      if ok {
        WithinStep(grants, start, quotaOf, Grant(tid, kind, today));
        CappedStep(executed, grants, start, capOf, Grant(tid, kind, today));
        memory := memory[tid := usage.Plus(kind)];
        assert memory == before[tid := usage.Plus(kind)];
        grants := grants + [Grant(tid, kind, today)];
      }
    }

    method PersistUsage(tid: string)
      requires Valid()
      modifies this`disk
      ensures Valid() && disk == if tid in memory then old(disk)[tid := memory[tid]] else old(disk)
    {
      if tid in memory {
        AllTenantsAgreePersisted(memory, disk, start, grants, clock, tid);
        disk := disk[tid := memory[tid]];
      }
    }

    /** The gate in front of a pipeline run; a missing tenant is an empty sequence.  A run that raises has been granted
        and started like any other, but the counters are not saved. */
    method HandlePipelineRun(found: seq<TenantInfo>, today: int, quota: int, raises: bool) returns (verdict: Verdict)
      requires Valid() && clock <= today && |found| <= 1
      requires found != [] ==> quota == quotaOf(Grant(found[0].id, PipelineRun, today))
      modifies this
      ensures Valid() && clock <= today
      ensures verdict == TenantNotFound <==> found == []
      ensures found != [] ==>
                var g := Grant(found[0].id, PipelineRun, today);
                var used := UsedIn(start, g) + Count(old(grants), g);
                verdict == if found[0].isDemo && found[0].demoExpired then DemoExpired
                           else if used >= quota then QuotaExceeded
                           else if found[0].isDemo && used + 1 > capOf(g.tenant) then DemoCostCap
                           else if raises then Raised else Executed
      ensures grants == if verdict.Charged() then old(grants) + [Grant(found[0].id, PipelineRun, today)]
                        else old(grants)
      ensures executed == if verdict.Ran() && found[0].isDemo
                          then old(executed) + [Grant(found[0].id, PipelineRun, today)] else old(executed)
      ensures verdict.Charged() ==> found[0].id in memory && memory[found[0].id].date == today
      ensures disk == if verdict == Executed then old(disk)[found[0].id := memory[found[0].id]] else old(disk)
    {
      if found == [] {
        return TenantNotFound;
      }
      var tenant := found[0];
      if tenant.isDemo && tenant.demoExpired {
        return DemoExpired;
      }
      var allowed := CheckQuota(tenant.id, PipelineRun, today, quota);
      if !allowed {
        return QuotaExceeded;
      }
      ghost var g := Grant(tenant.id, PipelineRun, today);
      CountAppend(old(grants), g);
      CappedStep(executed, old(grants), start, capOf, g);
      if tenant.isDemo {
        var totalRuns := memory[tenant.id].pipelineRuns;
        if totalRuns > capOf(tenant.id) {
          return DemoCostCap;
        }
        executed := executed + [g];
      }
      if raises {
        return Raised;
      }
      PersistUsage(tenant.id);
      return Executed;
    }

    /** In every reachable state: never more grants than the quota, never more executed demo runs than quota and cap,
        and no snapshot of a day says more than memory does. */
    lemma NeverExceeded(g: Grant)
      requires Valid()
      ensures Count(grants, g) > 0 ==> UsedIn(start, g) + Count(grants, g) <= quotaOf(g)
      ensures Count(executed, g) > 0 ==> Count(executed, g) <= quotaOf(g) && Count(executed, g) <= capOf(g.tenant)
      ensures UsedIn(disk, g) <= UsedIn(start, g) + Count(grants, g)
           || (g.tenant in memory && memory[g.tenant].date > g.date)
    {
      assert Agrees(memory, disk, start, grants, clock, g.tenant);
    }
  }
}
