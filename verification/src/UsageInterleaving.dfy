/** Many decisions in flight over one usage store, advanced one grant at a time in any order. */
module UsageInterleaving {
  import opened Foundations
  import opened Contracts
  import opened Capabilities
  import opened Delegation
  import opened Attenuation
  import opened Authorization

  /** One call: an `authorize`, consuming or not, or a `canDiscover`, with the store faults it meets. */
  datatype Job = Job(ports: Ports, query: Query, consume: bool, answers: (Text, Text) -> bool)

  datatype Progress =
    | Walking(walked: seq<Verdict>)
    | Finished(decision: Decision, spent: Option<Text>)

  /** The shared counters, and how far each job has got. */
  datatype System = System(usage: Usage, progress: seq<Progress>)

  function Spend(usage: Usage, namespaceId: Text, grantId: Text): Usage {
    usage[namespaceId := (if namespaceId in usage then usage[namespaceId] else map[])
      [grantId := UsageOf(usage, namespaceId, grantId) + 1]]
  }

  function NamespaceOf(job: Job): Text { job.query.authority.context.namespaceId }

  predicate IsWellPosed(job: Job) { InstantsOf(job.query).Some? && IsWellFormed(job.query) }

  /** Before its first grant a job is already decided if its context or request is broken. */
  function Begin(job: Job): Progress {
    if InstantsOf(job.query).None? then Finished(Deny(InvalidContext), None)
    else if !IsWellFormed(job.query) then Finished(Deny(InvalidRequest), None)
    else Walking([])
  }

  ghost predicate IsUnderway(job: Job, p: Progress) {
    p.Walking? ==> IsWellPosed(job) && |p.walked| <= |job.query.authority.grants| && NeverSettles(p.walked)
  }

  /** One atomic step of one job: its next grant judged against the counters as they stand. */
  function Advance(job: Job, usage: Usage, p: Progress): (next: (Usage, Progress))
    requires IsUnderway(job, p)
    ensures IsUnderway(job, next.1)
  {
    if p.Finished? then (usage, p)
    else
      var grants := job.query.authority.grants;
      var k := |p.walked|;
      if k == |grants| then (usage, Finished(Deny(Remaining(grants, p.walked)), None))
      else
        var verdict := Judge(job.ports, Some(StoreView(usage, job.answers)), job.query, InstantsOf(job.query).value, grants[k]);
        if !verdict.Settled? then (usage, Walking(p.walked + [verdict]))
        else if job.consume && verdict.decision.Allow? && grants[k].constraints.maxUses.Some?
          then (Spend(usage, NamespaceOf(job), grants[k].id), Finished(verdict.decision, Some(grants[k].id)))
        else (usage, Finished(verdict.decision, None))
  }

  ghost predicate AllUnderway(jobs: seq<Job>, system: System) {
    |system.progress| == |jobs| && forall i :: 0 <= i < |jobs| ==> IsUnderway(jobs[i], system.progress[i])
  }

  function Start(jobs: seq<Job>, usage: Usage): (system: System)
    ensures AllUnderway(jobs, system)
  {
    System(usage, seq(|jobs|, i requires 0 <= i < |jobs| => Begin(jobs[i])))
  }

  function StepJob(jobs: seq<Job>, system: System, i: nat): (next: System)
    requires AllUnderway(jobs, system)
    ensures AllUnderway(jobs, next)
  {
    if i >= |jobs| then system
    else
      var (usage, p) := Advance(jobs[i], system.usage, system.progress[i]);
      System(usage, system.progress[i := p])
  }

  /** Everything a schedule leads to: any jobs, any number of times each, in any order. */
  function Run(jobs: seq<Job>, usage: Usage, schedule: seq<nat>): (system: System)
    ensures AllUnderway(jobs, system)
  {
    if schedule == [] then Start(jobs, usage)
    else StepJob(jobs, Run(jobs, usage, schedule[..|schedule| - 1]), schedule[|schedule| - 1])
  }

  // ----- What is counted

  /** The job presents a bounded grant under this id. */
  predicate PresentsBounded(job: Job, grantId: Text) {
    exists grant :: grant in job.query.authority.grants && grant.id == grantId && grant.constraints.maxUses.Some?
  }

  /** The grants a job presents under this id are all bounded or all unbounded: the id says which it is. */
  ghost predicate IsUnambiguous(job: Job, grantId: Text) {
    forall a, b :: a in job.query.authority.grants && b in job.query.authority.grants && a.id == b.id == grantId ==>
      (a.constraints.maxUses.Some? <==> b.constraints.maxUses.Some?)
  }

  /** A consuming `authorize` decided: allowed, naming a bounded grant. */
  predicate IsConsumingAllow(job: Job, p: Progress, namespaceId: Text, grantId: Text) {
    && job.consume && p.Finished? && p.decision == Allow(grantId)
    && NamespaceOf(job) == namespaceId && PresentsBounded(job, grantId)
  }

  function ConsumingAllows(jobs: seq<Job>, progress: seq<Progress>, namespaceId: Text, grantId: Text): nat
    requires |jobs| == |progress|
  {
    if jobs == [] then 0
    else (if IsConsumingAllow(jobs[0], progress[0], namespaceId, grantId) then 1 else 0)
         + ConsumingAllows(jobs[1..], progress[1..], namespaceId, grantId)
  }

  // ----- Conservation, by the use each job remembers spending

  predicate SpentOn(job: Job, p: Progress, namespaceId: Text, grantId: Text) {
    p.Finished? && p.spent == Some(grantId) && NamespaceOf(job) == namespaceId
  }

  function Spenders(jobs: seq<Job>, progress: seq<Progress>, namespaceId: Text, grantId: Text): nat
    requires |jobs| == |progress|
  {
    if jobs == [] then 0
    else (if SpentOn(jobs[0], progress[0], namespaceId, grantId) then 1 else 0)
         + Spenders(jobs[1..], progress[1..], namespaceId, grantId)
  }

  lemma {:induction false} SpendersAfterUpdate(jobs: seq<Job>, progress: seq<Progress>, i: nat, p: Progress, n: Text, g: Text)
    requires |jobs| == |progress| && i < |jobs|
    ensures Spenders(jobs, progress[i := p], n, g) == Spenders(jobs, progress, n, g)
      - (if SpentOn(jobs[i], progress[i], n, g) then 1 else 0) + (if SpentOn(jobs[i], p, n, g) then 1 else 0)
  {
    if i == 0 {
      assert progress[0 := p][1..] == progress[1..];
    } else {
      SpendersAfterUpdate(jobs[1..], progress[1..], i - 1, p, n, g);
      assert progress[i := p][1..] == progress[1..][i - 1 := p];
    }
  }

  lemma {:induction false} NothingSpentAtStart(jobs: seq<Job>, n: Text, g: Text)
    ensures Spenders(jobs, Start(jobs, map[]).progress, n, g) == 0
  {
    if jobs != [] {
      NothingSpentAtStart(jobs[1..], n, g);
      assert Start(jobs, map[]).progress[1..] == Start(jobs[1..], map[]).progress;
    }
  }

  /** One step moves a counter exactly when its job finishes by spending on it. */
  lemma AdvanceConserves(job: Job, usage: Usage, p: Progress, n: Text, g: Text)
    requires IsUnderway(job, p)
    ensures
      var (after, q) := Advance(job, usage, p);
      && UsageOf(after, n, g) == UsageOf(usage, n, g)
           + (if SpentOn(job, q, n, g) && !SpentOn(job, p, n, g) then 1 else 0)
      && (SpentOn(job, p, n, g) ==> q == p)
  {
    hide Judge, Remaining;
  }

  lemma {:induction false} CountersCountSpenders(jobs: seq<Job>, usage: Usage, schedule: seq<nat>, n: Text, g: Text)
    ensures
      var system := Run(jobs, usage, schedule);
      UsageOf(system.usage, n, g) == UsageOf(usage, n, g) + Spenders(jobs, system.progress, n, g)
  {
    hide Advance;
    if schedule == [] {
      NothingSpentAtStart(jobs, n, g);
      assert Start(jobs, usage).progress == Start(jobs, map[]).progress;
    } else {
      var before := Run(jobs, usage, schedule[..|schedule| - 1]);
      var i := schedule[|schedule| - 1];
      CountersCountSpenders(jobs, usage, schedule[..|schedule| - 1], n, g);
      if i < |jobs| {
        AdvanceConserves(jobs[i], before.usage, before.progress[i], n, g);
        SpendersAfterUpdate(jobs, before.progress, i, Advance(jobs[i], before.usage, before.progress[i]).1, n, g);
      }
    }
  }

  // ----- What is remembered as spent is what was decided

  /** Only a consuming allow of a bounded grant is remembered, and one that names such a grant always is. */
  ghost predicate RemembersRightly(job: Job, p: Progress) {
    p.Finished? ==>
      && (p.spent.Some? ==> IsConsumingAllow(job, p, NamespaceOf(job), p.spent.value))
      && (p.decision.Allow? && IsUnambiguous(job, p.decision.grantId) ==>
            IsConsumingAllow(job, p, NamespaceOf(job), p.decision.grantId) ==> p.spent.Some?)
  }

  lemma AdvanceRemembers(job: Job, usage: Usage, p: Progress)
    requires IsUnderway(job, p) && RemembersRightly(job, p)
    ensures RemembersRightly(job, Advance(job, usage, p).1)
  {
    hide Judge, Remaining;
    if p.Walking? && |p.walked| < |job.query.authority.grants| {
      var k := |p.walked|;
      var grant := job.query.authority.grants[k];
      JudgeMeans(job.ports, Some(StoreView(usage, job.answers)), job.query, InstantsOf(job.query).value, grant);
      assert grant in job.query.authority.grants;
    }
  }

  lemma {:induction false} RunRemembers(jobs: seq<Job>, usage: Usage, schedule: seq<nat>, i: nat)
    requires i < |jobs|
    ensures RemembersRightly(jobs[i], Run(jobs, usage, schedule).progress[i])
  {
    hide Advance, RemembersRightly;
    if schedule == [] {
      BeginRemembers(jobs[i]);
    } else {
      var shorter := schedule[..|schedule| - 1];
      RunRemembers(jobs, usage, shorter, i);
      AdvanceRemembers(jobs[i], Run(jobs, usage, shorter).usage, Run(jobs, usage, shorter).progress[i]);
    }
  }

  lemma BeginRemembers(job: Job)
    ensures RemembersRightly(job, Begin(job))
  {
  }

  ghost predicate AllRemember(jobs: seq<Job>, progress: seq<Progress>)
    requires |jobs| == |progress|
  {
    forall i :: 0 <= i < |jobs| ==> RemembersRightly(jobs[i], progress[i])
  }

  ghost predicate AllUnambiguous(jobs: seq<Job>, namespaceId: Text, grantId: Text) {
    forall i :: 0 <= i < |jobs| && NamespaceOf(jobs[i]) == namespaceId ==> IsUnambiguous(jobs[i], grantId)
  }

  lemma {:induction false} SpendersAreConsumingAllows(jobs: seq<Job>, progress: seq<Progress>, n: Text, g: Text)
    requires |jobs| == |progress| && AllRemember(jobs, progress)
    ensures Spenders(jobs, progress, n, g) <= ConsumingAllows(jobs, progress, n, g)
    ensures AllUnambiguous(jobs, n, g) ==> Spenders(jobs, progress, n, g) == ConsumingAllows(jobs, progress, n, g)
  {
    hide IsUnambiguous, PresentsBounded;
    if jobs != [] {
      assert RemembersRightly(jobs[0], progress[0]);
      assert forall i :: 0 <= i < |jobs[1..]| ==> jobs[1..][i] == jobs[i + 1] && progress[1..][i] == progress[i + 1];
      assert AllRemember(jobs[1..], progress[1..]);
      SpendersAreConsumingAllows(jobs[1..], progress[1..], n, g);
    }
  }

  /**
   * Under every schedule a counter has grown by exactly the consuming allows that name its grant --
   * and by no more than those, should one id name a bounded and an unbounded grant at once.
   */
  lemma CountersCountConsumingAllows(jobs: seq<Job>, usage: Usage, schedule: seq<nat>, n: Text, g: Text)
    ensures
      var system := Run(jobs, usage, schedule);
      var allowed := ConsumingAllows(jobs, system.progress, n, g);
      && UsageOf(usage, n, g) <= UsageOf(system.usage, n, g) <= UsageOf(usage, n, g) + allowed
      && (AllUnambiguous(jobs, n, g) ==> UsageOf(system.usage, n, g) == UsageOf(usage, n, g) + allowed)
  {
    hide Advance, RemembersRightly, Run, AllUnambiguous;
    CountersCountSpenders(jobs, usage, schedule, n, g);
    forall i | 0 <= i < |jobs| ensures RemembersRightly(jobs[i], Run(jobs, usage, schedule).progress[i]) {
      RunRemembers(jobs, usage, schedule, i);
    }
    SpendersAreConsumingAllows(jobs, Run(jobs, usage, schedule).progress, n, g);
  }

  /** Under an ambiguous id the count can be the larger: the unbounded twin allows, and spends nothing. */
  lemma ATwinCanAllowForFree() returns (jobs: seq<Job>, schedule: seq<nat>)
    ensures
      var system := Run(jobs, map[], schedule);
      ConsumingAllows(jobs, system.progress, [9], [7]) == 1 && UsageOf(system.usage, [9], [7]) == 0
  {
    var me := Human([1]);
    var all := [Capability(Resource([1], [], None), [WILDCARD], Descendants)];
    var free := Constraints(None, None, None, None, None);
    var unbounded := Grant([7], [9], me, me, all, free, Readable([], 0), None, None);
    var bounded := unbounded.(constraints := free.(maxUses := Some(1)));
    var authority := ResolvedAuthority(
      Context([9], None, me, me, me, [1], [1], [], Readable([], 0)), [unbounded, bounded], None);
    var query := Query(authority, Requirement(Resource([1], [], None), [1]), Invoke, None);
    var job := Job(Ports(None, None, None, None), query, true, (namespaceId, grantId) => true);
    jobs, schedule := [job], [0];
    assert all[0] in all && CapabilityMatches(all[0], query.request, me);
    assert Judge(job.ports, Some(StoreView(map[], job.answers)), query, Instants(0, 0), unbounded) == Settled(Allow([7]));
    assert schedule[..0] == [] && Run(jobs, map[], []) == Start(jobs, map[]);
    assert Run(jobs, map[], schedule).progress == [Finished(Allow([7]), None)];
    assert bounded in authority.grants && PresentsBounded(job, [7]);
  }

  /**
   * One step spends at most one use, and only by finishing with a consuming allow that names the
   * grant: denials, discoveries and non-consuming checks leave every counter as it was.
   */
  lemma OnlyConsumingAllowsSpend(jobs: seq<Job>, usage: Usage, schedule: seq<nat>, i: nat, n: Text, g: Text)
    requires i < |jobs|
    ensures
      var (before, after) := (Run(jobs, usage, schedule), Run(jobs, usage, schedule + [i]));
      UsageOf(after.usage, n, g) == UsageOf(before.usage, n, g)
      || (&& UsageOf(after.usage, n, g) == UsageOf(before.usage, n, g) + 1
          && before.progress[i].Walking? && IsConsumingAllow(jobs[i], after.progress[i], n, g))
  {
    hide Advance, PresentsBounded;
    assert (schedule + [i])[..|schedule|] == schedule;
    var before := Run(jobs, usage, schedule);
    AdvanceConserves(jobs[i], before.usage, before.progress[i], n, g);
    RunRemembers(jobs, usage, schedule, i);
    AdvanceRemembers(jobs[i], before.usage, before.progress[i]);
    if before.progress[i].Finished? { FinishedStands(jobs[i], before.usage, before.progress[i]); }
  }

  lemma FinishedStands(job: Job, usage: Usage, p: Progress)
    requires IsUnderway(job, p) && p.Finished?
    ensures Advance(job, usage, p) == (usage, p)
  {
  }

  /** Whoever presents a bounded grant under this id presents the same bound. */
  ghost predicate BoundIs(jobs: seq<Job>, n: Text, g: Text, bound: int) {
    forall i, grant :: 0 <= i < |jobs| && grant in jobs[i].query.authority.grants ==>
      NamespaceOf(jobs[i]) == n && grant.id == g && grant.constraints.maxUses.Some? ==>
        grant.constraints.maxUses.value == bound
  }

  lemma AdvanceStaysInBound(job: Job, usage: Usage, p: Progress, n: Text, g: Text, bound: int)
    requires IsUnderway(job, p) && BoundIs([job], n, g, bound)
    requires UsageOf(usage, n, g) <= bound
    ensures UsageOf(Advance(job, usage, p).0, n, g) <= bound
  {
    hide Judge, Remaining;
    if p.Walking? && |p.walked| < |job.query.authority.grants| {
      var k := |p.walked|;
      var grant := job.query.authority.grants[k];
      JudgeMeans(job.ports, Some(StoreView(usage, job.answers)), job.query, InstantsOf(job.query).value, grant);
      assert [job][0] == job && grant in job.query.authority.grants;
    }
  }

  /** Under every interleaving at most `maxUses` consuming allows name a bounded grant, uses before included. */
  lemma {:induction false} NoInterleavingOverspends(jobs: seq<Job>, usage: Usage, schedule: seq<nat>, n: Text, g: Text, bound: int)
    requires BoundIs(jobs, n, g, bound) && UsageOf(usage, n, g) <= bound
    ensures UsageOf(Run(jobs, usage, schedule).usage, n, g) <= bound
    ensures AllUnambiguous(jobs, n, g) ==>
      UsageOf(usage, n, g) + ConsumingAllows(jobs, Run(jobs, usage, schedule).progress, n, g) <= bound
  {
    hide Advance;
    if schedule != [] {
      var shorter := schedule[..|schedule| - 1];
      var i := schedule[|schedule| - 1];
      NoInterleavingOverspends(jobs, usage, shorter, n, g, bound);
      if i < |jobs| {
        assert BoundIs([jobs[i]], n, g, bound);
        AdvanceStaysInBound(jobs[i], Run(jobs, usage, shorter).usage, Run(jobs, usage, shorter).progress[i], n, g, bound);
      }
    }
    CountersCountConsumingAllows(jobs, usage, schedule, n, g);
  }

  /** No use is ever drawn from an ancestor: what allows has no bounded grant above it. */
  lemma DescendantsDrawOnNoAncestor(job: Job, usage: Usage) returns (i: nat)
    requires Decide(job.ports, Some(StoreView(usage, job.answers)), job.query).Allow?
    ensures IsWellPosed(job) && i < |job.query.authority.grants|
    ensures Decide(job.ports, Some(StoreView(usage, job.answers)), job.query) == Allow(job.query.authority.grants[i].id)
    ensures
      var grant := job.query.authority.grants[i];
      var setting := SettingOf(job.ports, job.query.authority.context, InstantsOf(job.query).value);
      && Validate(grant, setting).Valid?
      && forall k :: 0 < k < |Ancestry(grant, setting)| ==> Ancestry(grant, setting)[k].constraints.maxUses.None?
  {
    hide Judge, Decide, Ancestry, Validate;
    i := AllowNamesACandidate(job.ports, Some(StoreView(usage, job.answers)), job.query);
    var grant := job.query.authority.grants[i];
    var setting := SettingOf(job.ports, job.query.authority.context, InstantsOf(job.query).value);
    forall k | 0 < k < |Ancestry(grant, setting)| ensures Ancestry(grant, setting)[k].constraints.maxUses.None? {
      NoBoundedAncestor(grant, setting, k);
    }
  }

  // ----- Alone, a job is the decision

  /** The first `n` steps of a job nobody else interleaves with. */
  function Alone(job: Job, usage: Usage, n: nat): (next: (Usage, Progress))
    ensures IsUnderway(job, next.1)
  {
    if n == 0 then (usage, Begin(job))
    else var (u, p) := Alone(job, usage, n - 1); Advance(job, u, p)
  }

  /** Walked up to grant `n`, or already done and done as decided. */
  ghost predicate IsOnCourse(job: Job, usage: Usage, n: nat, state: (Usage, Progress))
    requires IsWellPosed(job)
  {
    var store := Some(StoreView(usage, job.answers));
    var vs := Verdicts(job.ports, store, job.query, InstantsOf(job.query).value);
    if state.1.Walking? then
      state.0 == usage && n <= |vs| && state.1.walked == vs[..n]
    else
      && state.1 == Finished(Decide(job.ports, store, job.query), SpendOf(job.ports, store, job.query, job.consume))
      && state.0 == match SpendOf(job.ports, store, job.query, job.consume)
                    case None => usage
                    case Some(id) => Spend(usage, NamespaceOf(job), id)
  }

  lemma {:induction false} AloneStaysOnCourse(job: Job, usage: Usage, n: nat)
    requires IsWellPosed(job)
    ensures IsOnCourse(job, usage, n, Alone(job, usage, n))
    ensures n > |job.query.authority.grants| ==> Alone(job, usage, n).1.Finished?
  {
    hide Advance, IsOnCourse, Verdicts;
    if n == 0 {
      BeginIsOnCourse(job, usage);
    } else {
      AloneStaysOnCourse(job, usage, n - 1);
      AdvanceStaysOnCourse(job, usage, n - 1, Alone(job, usage, n - 1));
    }
  }

  lemma BeginIsOnCourse(job: Job, usage: Usage)
    requires IsWellPosed(job)
    ensures IsOnCourse(job, usage, 0, (usage, Begin(job)))
  {
    hide Judge, Remaining;
  }

  lemma AdvanceStaysOnCourse(job: Job, usage: Usage, n: nat, state: (Usage, Progress))
    requires IsWellPosed(job) && IsUnderway(job, state.1) && IsOnCourse(job, usage, n, state)
    ensures IsOnCourse(job, usage, n + 1, Advance(job, state.0, state.1))
    ensures n >= |job.query.authority.grants| ==> Advance(job, state.0, state.1).1.Finished?
  {
    hide Judge, Remaining;
    var grants := job.query.authority.grants;
    var vs := Verdicts(job.ports, Some(StoreView(usage, job.answers)), job.query, InstantsOf(job.query).value);
    if state.1.Walking? {
      assert forall j :: 0 <= j < n ==> vs[..n][j] == vs[j];
      if n < |grants| {
        assert vs[..n + 1] == vs[..n] + [vs[n]];
        assert vs[n].Settled? ==> Settler(vs) == n;
      } else {
        assert vs[..n] == vs && Settler(vs) == |vs|;
      }
    }
  }

  /** Run without interference, a job ends with the decision as a function gives it, and its spend. */
  lemma AloneIsTheDecision(job: Job, usage: Usage)
    ensures
      var store := Some(StoreView(usage, job.answers));
      Alone(job, usage, |job.query.authority.grants| + 1).1
        == Finished(Decide(job.ports, store, job.query), SpendOf(job.ports, store, job.query, job.consume))
  {
    hide Judge, Remaining;
    if IsWellPosed(job) {
      AloneStaysOnCourse(job, usage, |job.query.authority.grants| + 1);
    } else {
      FinishedStays(job, usage, |job.query.authority.grants| + 1);
    }
  }

  lemma {:induction false} FinishedStays(job: Job, usage: Usage, n: nat)
    requires !IsWellPosed(job)
    ensures Alone(job, usage, n) == (usage, Begin(job))
  {
    if n > 0 { FinishedStays(job, usage, n - 1); }
  }
}
