/** The authorizer itself: loops and counters, against the decision as a function. */
module Authorizer {
  import opened Foundations
  import opened Contracts
  import opened Delegation
  import opened Authorization
  import CanonicalJson
  import opened Reach

  /** A process-local use counter. A store that is down answers some reads with a throw (`None`). */
  class GrantUsageStore {
    var usageByNamespace: Usage
    const answers: (Text, Text) -> bool

    constructor (answers: (Text, Text) -> bool)
      ensures usageByNamespace == map[] && this.answers == answers
    {
      usageByNamespace := map[];
      this.answers := answers;
    }

    ghost function View(): StoreView
      reads this
    {
      StoreView(usageByNamespace, answers)
    }

    method GetUsage(namespaceId: Text, grantId: Text) returns (used: Option<int>)
      ensures used == if answers(namespaceId, grantId) then Some(UsageOf(usageByNamespace, namespaceId, grantId)) else None
    {
      if !answers(namespaceId, grantId) { return None; }
      used := Some(if namespaceId in usageByNamespace && grantId in usageByNamespace[namespaceId]
                   then usageByNamespace[namespaceId][grantId] else 0);
    }

    method TryConsume(namespaceId: Text, grantId: Text, maximumUses: int) returns (consumed: Option<bool>)
      modifies this
      ensures consumed.Some? <==> answers(namespaceId, grantId)
      ensures consumed.Some? ==> (consumed.value <==> old(UsageOf(usageByNamespace, namespaceId, grantId)) < maximumUses)
      ensures forall n, g ::
        UsageOf(usageByNamespace, n, g) == old(UsageOf(usageByNamespace, n, g))
          + (if consumed == Some(true) && n == namespaceId && g == grantId then 1 else 0)
    {
      if !answers(namespaceId, grantId) { return None; }
      if namespaceId !in usageByNamespace {
        usageByNamespace := usageByNamespace[namespaceId := map[]];
      }
      var namespaceUsage := usageByNamespace[namespaceId];
      var current := if grantId in namespaceUsage then namespaceUsage[grantId] else 0;
      if current >= maximumUses { return Some(false); }
      usageByNamespace := usageByNamespace[namespaceId := namespaceUsage[grantId := current + 1]];
      return Some(true);
    }
  }

  /** The host's ceiling, and a record of which grants it has been asked about. */
  class HostCeiling {
    const verdict: Ceiling
    ghost var consulted: seq<Text>

    constructor (verdict: Ceiling)
      ensures this.verdict == verdict && consulted == []
    {
      this.verdict := verdict;
      consulted := [];
    }

    method Narrow(grantId: Text, request: Requirement, context: Context, policy: Option<Text>) returns (answer: CeilingAnswer)
      modifies this
      ensures answer == verdict(grantId, request, context, policy)
      ensures consulted == old(consulted) + [grantId]
    {
      answer := verdict(grantId, request, context, policy);
      consulted := consulted + [grantId];
    }
  }

  function WorstDelegationFailure(current: Option<DelegationFailure>, candidate: DelegationFailure): DelegationFailure {
    if current.None? || (current.value.InvalidChain? && candidate.UnverifiedChain?) then candidate else current.value
  }

  class CapabilityAuthorizer {
    const usageStore: GrantUsageStore?
    const grantVerifier: Option<Verifier>
    const delegationResolver: Option<Resolver>
    const maxDelegationChainLength: Option<int>
    const hostCeiling: HostCeiling?

    constructor (usageStore: GrantUsageStore?, grantVerifier: Option<Verifier>, delegationResolver: Option<Resolver>,
                 maxDelegationChainLength: Option<int>, hostCeiling: HostCeiling?)
      ensures this.usageStore == usageStore && this.hostCeiling == hostCeiling
      ensures this.grantVerifier == grantVerifier && this.delegationResolver == delegationResolver
      ensures this.maxDelegationChainLength == maxDelegationChainLength
    {
      this.usageStore := usageStore;
      this.grantVerifier := grantVerifier;
      this.delegationResolver := delegationResolver;
      this.maxDelegationChainLength := maxDelegationChainLength;
      this.hostCeiling := hostCeiling;
    }

    function PortsHere(): Ports {
      Ports(grantVerifier, delegationResolver, maxDelegationChainLength,
            if hostCeiling == null then None else Some(hostCeiling.verdict))
    }

    ghost function StoreHere(): Option<StoreView>
      reads usageStore
    {
      if usageStore == null then None else Some(usageStore.View())
    }

    method NarrowByCeiling(grantId: Text, query: Query) returns (decision: Decision)
      modifies hostCeiling
      ensures decision == ApplyCeiling(PortsHere(), query.authority, query.request, grantId)
      ensures hostCeiling != null ==>
        hostCeiling.consulted == old(hostCeiling.consulted)
          + (if query.authority.hostPolicy == Some(PolicyUnavailable) then [] else [grantId])
    {
      if hostCeiling == null { return Allow(grantId); }
      if query.authority.hostPolicy == Some(PolicyUnavailable) { return Deny(HostPolicyUnavailable); }
      var policy := if query.authority.hostPolicy.Some? then Some(query.authority.hostPolicy.value.policy) else None;
      var narrowed := hostCeiling.Narrow(grantId, query.request, query.authority.context, policy);
      if narrowed.CeilingThrew? || narrowed.NotAVerdict? { return Deny(HostPolicyUnavailable); }
      if narrowed.SaysAllowed? {
        return if narrowed.matchedGrantId == Some(grantId) then Allow(grantId) else Deny(HostPolicyUnavailable);
      }
      return Deny(HostPolicyDenied(grantId, narrowed.metadata));
    }

    /** The use of a bounded grant a decision asks the store for: spent if consuming, read if not. */
    method TakeUse(context: Context, grant: Grant, consume: bool) returns (available: Option<bool>)
      requires usageStore != null && grant.constraints.maxUses.Some?
      modifies usageStore
      ensures available == match BudgetLeft(old(StoreHere()), context, grant)
                           case Available => Some(true)
                           case BudgetSpent => Some(false)
                           case BudgetUnavailable => None
      ensures forall n, g ::
        UsageOf(usageStore.usageByNamespace, n, g) == old(UsageOf(usageStore.usageByNamespace, n, g))
          + (if consume && available == Some(true) && n == context.namespaceId && g == grant.id then 1 else 0)
    {
      if consume {
        available := usageStore.TryConsume(context.namespaceId, grant.id, grant.constraints.maxUses.value);
      } else {
        var used := usageStore.GetUsage(context.namespaceId, grant.id);
        available := if used.None? then None else Some(used.value < grant.constraints.maxUses.value);
      }
    }

    /** One turn of the loop: the first gate this grant fails, or the decision it settles. */
    method Consider(query: Query, at: Instants, grant: Grant, consume: bool) returns (verdict: Verdict)
      modifies usageStore, hostCeiling
      ensures verdict == Judge(PortsHere(), old(StoreHere()), query, at, grant)
      ensures usageStore != null ==> forall n, g ::
        UsageOf(usageStore.usageByNamespace, n, g) == old(UsageOf(usageStore.usageByNamespace, n, g))
          + (if consume && verdict == Settled(Allow(grant.id)) && grant.constraints.maxUses.Some?
                && n == query.authority.context.namespaceId && g == grant.id then 1 else 0)
      ensures hostCeiling != null ==>
        hostCeiling.consulted == old(hostCeiling.consulted) + Heard(query, [grant], [verdict])
    {
      hide Validate, GrantRejection, Matches, ApplyCeiling, Heard;
      var context := query.authority.context;
      forall v { HeardOfOne(query, grant, v); }
      assert hostCeiling != null ==> hostCeiling.consulted + [] == hostCeiling.consulted;
      var ineligible := GrantRejection(PortsHere(), context, grant, at);
      if ineligible.Some? { return TurnedAway(ineligible.value); }
      if !exists c :: c in grant.capabilities && Matches(query.mode, c, query.request, context.owner) {
        return TurnedAway(NoCapability);
      }
      var delegation := ValidateDelegationChain(grant, SettingOf(PortsHere(), context, at));
      if !delegation.Valid? { return Broken(FailureOf(delegation)); }

      // The ceiling is asked before the store, so that its refusals cost no use.
      var narrowed := NarrowByCeiling(grant.id, query);
      if narrowed == Deny(HostPolicyUnavailable) { return Settled(narrowed); }
      if narrowed.Deny? { return Overruled(narrowed.denial.metadata); }

      if grant.constraints.maxUses.None? { return Settled(Allow(grant.id)); }
      if usageStore == null { return Settled(Deny(UsageStoreUnavailable)); }
      var available := TakeUse(context, grant, consume);
      if available.None? { return Settled(Deny(UsageStoreUnavailable)); }
      if available.value { return Settled(Allow(grant.id)); }
      return SpentOut;
    }

    method Decide(query: Query, consume: bool) returns (decision: Decision, explanation: Option<Explanation>)
      modifies usageStore, hostCeiling
      ensures decision == Authorization.Decide(PortsHere(), old(StoreHere()), query)
      ensures explanation == Explain(PortsHere(), old(StoreHere()), query)
      // Exactly the use a consuming allow spends, and no other counter.
      ensures usageStore != null ==> forall n, g ::
        UsageOf(usageStore.usageByNamespace, n, g) == old(UsageOf(usageStore.usageByNamespace, n, g))
          + (if n == query.authority.context.namespaceId
                && SpendOf(PortsHere(), old(StoreHere()), query, consume) == Some(g) then 1 else 0)
      ensures hostCeiling != null ==>
        hostCeiling.consulted == old(hostCeiling.consulted) + ConsultedBy(PortsHere(), old(StoreHere()), query)
    {
      hide Judge, Settler, WorstFailure, FirstPolicyDenial, Rejections, Consulted, Heard, Walked, ConsultedBy,
           MissingDependency, Explain, SpendOf, UsageOf, IsWellFormed;
      var grants := query.authority.grants;
      var instants := InstantsOf(query);
      if instants.None? || !IsWellFormed(query) {
        BrokenQuery(PortsHere(), StoreHere(), query, consume);
        if instants.None? { return Deny(InvalidContext), Some(Explanation(InvalidContextCode, |grants|, [], None)); }
        return Deny(InvalidRequest), Some(Explanation(InvalidRequestCode, |grants|, [], None));
      }
      ghost var ports, store := PortsHere(), StoreHere();
      ghost var vs := Verdicts(ports, store, query, instants.value);

      var rejections: seq<Rejected> := [];
      var foundExhaustedGrant := false;
      var policyDenial: Option<Denial> := None;
      var delegationFailure: Option<DelegationFailure> := None;
      EmptyWalk(query);

      for k := 0 to |grants|
        invariant WalkedTo(grants[..k], vs[..k], rejections, foundExhaustedGrant, policyDenial, delegationFailure)
        invariant usageStore != null ==> forall n, g ::
          UsageOf(usageStore.usageByNamespace, n, g) == old(UsageOf(usageStore.usageByNamespace, n, g))
        invariant hostCeiling != null ==>
          hostCeiling.consulted == old(hostCeiling.consulted) + Heard(query, grants[..k], vs[..k])
      {
        var grant := grants[k];
        JudgeReadsCounters(ports, store, StoreHere(), query, instants.value, grant);
        var verdict := Consider(query, instants.value, grant, consume);
        WalkOnward(query, vs, k, rejections, foundExhaustedGrant, policyDenial, delegationFailure);
        SettleAt(ports, store, query, k, consume);
        match verdict {
          case TurnedAway(reason) =>
            rejections := rejections + [Rejected(grant.id, reason)];
          case Broken(failure) =>
            rejections := rejections + [Rejected(grant.id, ChainNotValid)];
            delegationFailure := Some(WorstDelegationFailure(delegationFailure, failure));
          case Overruled(metadata) =>
            if policyDenial.None? { policyDenial := Some(HostPolicyDenied(grant.id, metadata)); }
          case SpentOut =>
            rejections := rejections + [Rejected(grant.id, Exhausted)];
            foundExhaustedGrant := true;
          case Settled(reached) =>
            JudgeMeans(ports, store, query, instants.value, grant);
            if reached.Allow? { return reached, None; }
            var missing := if reached == Deny(UsageStoreUnavailable) && usageStore == null
                           then Some(UsageStoreDependency) else None;
            return reached, Some(Explanation(ReasonOf(reached), |grants|, rejections, missing));
        }
      }

      assert grants[..|grants|] == grants && vs[..|grants|] == vs;
      WalkEnds(ports, store, query, consume);
      var denial :=
        if delegationFailure.Some? then BrokenChainDenied(delegationFailure.value)
        else if policyDenial.Some? then policyDenial.value
        else if foundExhaustedGrant then GrantExhausted
        else NoMatchingGrant;
      var missing := if delegationFailure.Some? && delegationFailure.value.UnverifiedChain? && delegationResolver.None?
                     then Some(ResolverDependency) else None;
      return Deny(denial), Some(Explanation(ReasonOf(Deny(denial)), |grants|, rejections, missing));
    }

    method Authorize(authority: ResolvedAuthority, request: Requirement, consume: bool, now: Option<Timestamp>)
      returns (decision: Decision, explanation: Option<Explanation>)
      modifies usageStore, hostCeiling
      ensures decision == Authorization.Decide(PortsHere(), old(StoreHere()), Query(authority, request, Invoke, now))
      ensures usageStore != null ==> forall n, g ::
        UsageOf(usageStore.usageByNamespace, n, g) == old(UsageOf(usageStore.usageByNamespace, n, g))
          + (if n == authority.context.namespaceId
                && SpendOf(PortsHere(), old(StoreHere()), Query(authority, request, Invoke, now), consume) == Some(g)
             then 1 else 0)
    {
      decision, explanation := Decide(Query(authority, request, Invoke, now), consume);
    }

    /** The catalog check never spends: every counter is as it was. */
    method CanDiscover(authority: ResolvedAuthority, ceiling: Requirement, now: Option<Timestamp>)
      returns (decision: Decision, explanation: Option<Explanation>)
      modifies usageStore, hostCeiling
      ensures decision == Authorization.Decide(PortsHere(), old(StoreHere()), Query(authority, ceiling, Discover, now))
      ensures usageStore != null ==> forall n, g ::
        UsageOf(usageStore.usageByNamespace, n, g) == old(UsageOf(usageStore.usageByNamespace, n, g))
    {
      decision, explanation := Decide(Query(authority, ceiling, Discover, now), false);
    }

    method ReadBudget(context: Context, grant: Grant) returns (budget: Budget)
      ensures budget == BudgetLeft(StoreHere(), context, grant)
    {
      if grant.constraints.maxUses.None? { return Available; }
      if usageStore == null { return BudgetUnavailable; }
      var used := usageStore.GetUsage(context.namespaceId, grant.id);
      if used.None? { return BudgetUnavailable; }
      return if used.value < grant.constraints.maxUses.value then Available else BudgetSpent;
    }

    static method FileCapabilities(files: seq<Filed>, capabilities: seq<Capability>, context: Context,
                                   collation: CanonicalJson.Collation) returns (more: seq<Filed>)
      requires AreFiled(collation, files)
      ensures AreFiled(collation, more)
      ensures forall e :: File(collation, e) in more <==> File(collation, e) in files || OfferedBy(capabilities, context, e)
    {
      hide EntryOf, KeyOf, OrderOf, Put;
      more := files;
      for j := 0 to |capabilities|
        invariant AreFiled(collation, more)
        invariant forall e :: File(collation, e) in more <==>
          File(collation, e) in files || OfferedBy(capabilities[..j], context, e)
      {
        var capability := capabilities[j];
        assert capabilities[..j + 1] == capabilities[..j] + [capability];
        OfferedByMore(capabilities[..j], capability, context);
        if !IsOfThisWorld(capability, context) { continue; }
        var entry := EntryOf(capability);
        PutAdds(collation, more, entry);
        more := Put(more, File(collation, entry));
      }
      assert capabilities[..|capabilities|] == capabilities;
    }

    /** Asking is not opening: nothing is modified, so no use is spent and no ceiling is asked. */
    method ComputeReach(authority: ResolvedAuthority, now: Option<Timestamp>, collation: CanonicalJson.Collation)
      returns (result: ReachResult)
      ensures IsReach(PortsHere(), StoreHere(), authority, now, collation, result)
    {
      hide Validate, GrantRejection, BudgetLeft, EntryOf, KeyOf, OrderOf, IsOrdered, OfferedBy, Offers, AreFiled;
      var context := authority.context;
      var instants := ReachInstants(authority, now);
      if instants.None? { return Computed([]); }
      var at := instants.value;
      ghost var ports, store := PortsHere(), StoreHere();

      var files: seq<Filed> := [];
      NothingYet(ports, store, context, at, collation);
      for k := 0 to |authority.grants|
        invariant AreFiled(collation, files)
        invariant forall g :: g in authority.grants[..k] ==> !IsUnreadable(ports, store, context, at, g)
        invariant forall e :: File(collation, e) in files <==> Offers(ports, store, context, at, authority.grants[..k], e)
      {
        var grant := authority.grants[k];
        assert authority.grants[..k + 1] == authority.grants[..k] + [grant];
        OffersMore(ports, store, context, at, authority.grants[..k], grant);
        if GrantRejection(PortsHere(), context, grant, at).Some? { continue; }
        var delegation := ValidateDelegationChain(grant, SettingOf(PortsHere(), context, at));
        if !delegation.Valid? { continue; }
        var budget := ReadBudget(context, grant);
        if budget == BudgetUnavailable {
          assert grant in authority.grants && IsUnreadable(ports, store, context, at, grant);
          return ReachUnavailable;
        }
        if budget == BudgetSpent { continue; }

        files := FileCapabilities(files, grant.capabilities, context, collation);
      }
      assert authority.grants[..|authority.grants|] == authority.grants;
      FilesSortIntoReach(collation, files);
      return Computed(EntriesOf(Sort(FiledBefore, files)));
    }
  }

  predicate OfferedBy(capabilities: seq<Capability>, context: Context, e: ResourceReach) {
    exists c :: c in capabilities && IsOfThisWorld(c, context) && e == EntryOf(c)
  }

  lemma OfferedByMore(capabilities: seq<Capability>, c: Capability, context: Context)
    ensures forall e :: OfferedBy(capabilities + [c], context, e) <==>
      OfferedBy(capabilities, context, e) || (IsOfThisWorld(c, context) && e == EntryOf(c))
  {
    hide EntryOf;
    assert forall d :: d in capabilities + [c] <==> d in capabilities || d == c;
  }

  lemma NothingYet(ports: Ports, store: Option<StoreView>, context: Context, at: Instants, collation: CanonicalJson.Collation)
    ensures AreFiled(collation, [])
    ensures forall e :: !Offers(ports, store, context, at, [], e)
  {
  }

  lemma OffersMore(ports: Ports, store: Option<StoreView>, context: Context, at: Instants, grants: seq<Grant>, grant: Grant)
    ensures forall e :: Offers(ports, store, context, at, grants + [grant], e) <==>
      || Offers(ports, store, context, at, grants, e)
      || (Contributes(ports, store, context, at, grant) && OfferedBy(grant.capabilities, context, e))
  {
    hide EntryOf, Contributes;
    assert forall g :: g in grants + [grant] <==> g in grants || g == grant;
  }

  // ----- The loop's state against the verdicts it has walked

  ghost predicate WalkedTo(grants: seq<Grant>, vs: seq<Verdict>, rejections: seq<Rejected>, exhausted: bool,
                           policyDenial: Option<Denial>, failure: Option<DelegationFailure>)
  {
    && |grants| == |vs|
    && NeverSettles(vs)
    && rejections == Rejections(grants, vs)
    && (exhausted <==> SpentOut in vs)
    && policyDenial == FirstPolicyDenial(grants, vs)
    && failure == WorstFailure(vs)
  }

  lemma EmptyWalk(query: Query)
    ensures WalkedTo([], [], [], false, None, None)
    ensures Heard(query, [], []) == []
  {
  }

  /** What one more verdict does to each part of the state. */
  lemma WalkOnward(query: Query, vs: seq<Verdict>, k: nat, rejections: seq<Rejected>, exhausted: bool,
                   policyDenial: Option<Denial>, failure: Option<DelegationFailure>)
    requires |query.authority.grants| == |vs| && k < |vs|
    requires WalkedTo(query.authority.grants[..k], vs[..k], rejections, exhausted, policyDenial, failure)
    ensures
      var grants := query.authority.grants;
      var v := vs[k];
      var reason := RejectionOf(v);
      var more := if reason.Some? then rejections + [Rejected(grants[k].id, reason.value)] else rejections;
      && Rejections(grants[..k + 1], vs[..k + 1]) == more
      && Heard(query, grants[..k + 1], vs[..k + 1]) == Heard(query, grants[..k], vs[..k]) + Heard(query, [grants[k]], [v])
      && (!v.Settled? ==> WalkedTo(grants[..k + 1], vs[..k + 1], more, exhausted || v == SpentOut,
            if policyDenial.None? && v.Overruled? then Some(HostPolicyDenied(grants[k].id, v.metadata)) else policyDenial,
            if v.Broken? then Some(WorstDelegationFailure(failure, v.failure)) else failure))
  {
    hide Rejections, Consulted, Heard, FirstPolicyDenial, WorstFailure, RejectionOf;
    var grants := query.authority.grants;
    var before := vs[..k];
    assert vs[..k + 1] == before + [vs[k]] && grants[..k + 1] == grants[..k] + [grants[k]];
    RejectionsAfter(grants[..k], before, grants[k], vs[k]);
    HeardAfter(query, grants[..k], before, grants[k], vs[k]);
    FailureAfter(before, vs[k]);
    PolicyDenialAfter(grants[..k], before, grants[k], vs[k]);
  }

  lemma RejectionsAfter(grants: seq<Grant>, vs: seq<Verdict>, grant: Grant, v: Verdict)
    requires |grants| == |vs|
    ensures
      var reason := RejectionOf(v);
      Rejections(grants + [grant], vs + [v])
        == if reason.Some? then Rejections(grants, vs) + [Rejected(grant.id, reason.value)] else Rejections(grants, vs)
  {
    assert (vs + [v])[..|vs|] == vs && (grants + [grant])[..|vs|] == grants;
    assert Rejections(grants, vs) + [] == Rejections(grants, vs);
  }

  lemma HeardAfter(query: Query, grants: seq<Grant>, vs: seq<Verdict>, grant: Grant, v: Verdict)
    requires |grants| == |vs|
    ensures Heard(query, grants + [grant], vs + [v]) == Heard(query, grants, vs) + Heard(query, [grant], [v])
  {
    assert (vs + [v])[..|vs|] == vs && (grants + [grant])[..|vs|] == grants;
    HeardOfOne(query, grant, v);
  }

  lemma HeardOfOne(query: Query, grant: Grant, v: Verdict)
    ensures Heard(query, [grant], [v])
      == if query.authority.hostPolicy != Some(PolicyUnavailable) && (v.Overruled? || v.Settled? || v.SpentOut?)
         then [grant.id] else []
  {
    var none: seq<Text> := [];
    assert Consulted([grant][..0], [v][..0]) == none;
    assert none + [grant.id] == [grant.id] && none + none == none;
  }

  lemma PolicyDenialAfter(grants: seq<Grant>, vs: seq<Verdict>, grant: Grant, v: Verdict)
    requires |grants| == |vs|
    ensures FirstPolicyDenial(grants + [grant], vs + [v]) ==
      if FirstPolicyDenial(grants, vs).None? && v.Overruled? then Some(HostPolicyDenied(grant.id, v.metadata))
      else FirstPolicyDenial(grants, vs)
  {
    var now := vs + [v];
    assert now[|vs|] == v && forall i :: 0 <= i < |vs| ==> now[i] == vs[i];
    var u, w := FirstOverruled(vs), FirstOverruled(now);
    assert u < |vs| ==> now[u] == vs[u];
    assert w < |vs| ==> vs[w] == now[w];
  }

  lemma FailureAfter(vs: seq<Verdict>, v: Verdict)
    ensures WorstFailure(vs + [v]) == if v.Broken? then Some(WorstDelegationFailure(WorstFailure(vs), v.failure)) else WorstFailure(vs)
  {
    var now := vs + [v];
    assert now[|vs|] == v && forall i :: 0 <= i < |vs| ==> now[i] == vs[i];
    var u, w := FirstUnverified(vs), FirstUnverified(now);
    assert u < |vs| ==> now[u] == vs[u];
    assert w < |vs| ==> vs[w] == now[w];
    var b, c := FirstBroken(vs), FirstBroken(now);
    assert b < |vs| ==> now[b] == vs[b];
    assert c < |vs| ==> vs[c] == now[c];
  }

  lemma SettleAt(ports: Ports, store: Option<StoreView>, query: Query, k: nat, consume: bool)
    requires InstantsOf(query).Some? && IsWellFormed(query) && k < |query.authority.grants|
    ensures
      var grants := query.authority.grants;
      var vs := Verdicts(ports, store, query, InstantsOf(query).value);
      NeverSettles(vs[..k]) && vs[k].Settled? ==>
        && Authorization.Decide(ports, store, query) == vs[k].decision
        && Settler(vs) == k && Walked(vs) == k + 1
        && Explain(ports, store, query)
           == (if vs[k].decision.Allow? then None
               else Some(Explanation(
                 ReasonOf(vs[k].decision), |grants|, Rejections(grants[..k + 1], vs[..k + 1]),
                 if vs[k].decision == Deny(UsageStoreUnavailable) && store.None? then Some(UsageStoreDependency) else None)))
        && ConsultedBy(ports, store, query) == Heard(query, grants[..k + 1], vs[..k + 1])
        && SpendOf(ports, store, query, consume)
           == (if consume && vs[k].decision.Allow? && grants[k].constraints.maxUses.Some? then Some(grants[k].id) else None)
  {
    hide Judge;
    var vs := Verdicts(ports, store, query, InstantsOf(query).value);
    if NeverSettles(vs[..k]) && vs[k].Settled? {
      assert forall j :: 0 <= j < k ==> vs[..k][j] == vs[j];
      assert Settler(vs) == k;
    }
  }

  lemma BrokenQuery(ports: Ports, store: Option<StoreView>, query: Query, consume: bool)
    requires InstantsOf(query).None? || !IsWellFormed(query)
    ensures Explain(ports, store, query) == Some(Explanation(
      if InstantsOf(query).None? then InvalidContextCode else InvalidRequestCode, |query.authority.grants|, [], None))
    ensures SpendOf(ports, store, query, consume) == None && ConsultedBy(ports, store, query) == []
  {
  }

  lemma WalkEnds(ports: Ports, store: Option<StoreView>, query: Query, consume: bool)
    requires InstantsOf(query).Some? && IsWellFormed(query)
    ensures
      var vs := Verdicts(ports, store, query, InstantsOf(query).value);
      NeverSettles(vs) ==>
        && Authorization.Decide(ports, store, query) == Deny(Remaining(query.authority.grants, vs))
        && Settler(vs) == Walked(vs) == |vs|
        && Explain(ports, store, query)
           == Some(Explanation(
                ReasonOf(Deny(Remaining(query.authority.grants, vs))), |vs|, Rejections(query.authority.grants, vs),
                if WorstFailure(vs).Some? && WorstFailure(vs).value.UnverifiedChain? && ports.resolver.None?
                then Some(ResolverDependency) else None))
        && ConsultedBy(ports, store, query) == Heard(query, query.authority.grants, vs)
        && SpendOf(ports, store, query, consume) == None
  {
    hide Judge;
    var grants := query.authority.grants;
    var vs := Verdicts(ports, store, query, InstantsOf(query).value);
    assert grants[..|vs|] == grants && vs[..|vs|] == vs;
  }
}
