/** When a decision allows, and what a grant presented alone comes to, in the fields a reader can see. */
module AllowTerms {
  import opened Foundations
  import opened Contracts
  import opened Delegation
  import opened Authorization
  import opened DecisionTerms
  import DecisionLaws

  /** An allow is within the grant's own terms, let through by the ceiling, and within the grant's budget. */
  lemma AllowIsOnTheGrantsTerms(ports: Ports, store: Option<StoreView>, query: Query) returns (grant: Grant)
    requires Decide(ports, store, query).Allow?
    ensures grant in query.authority.grants && Decide(ports, store, query) == Allow(grant.id)
    ensures IsWhole(query.authority.context, query.now) && IsProper(query.request, query.authority.context)
    ensures IsOnItsTerms(ports, grant, query)
    ensures IsLetThrough(ports, query, grant.id)
    ensures HasUseLeft(store, grant, query.authority.context.namespaceId)
  {
    hide Decide, IsCandidate, ApplyCeiling, BudgetLeft, InstantsOf, IsWellFormed, IsOnItsTerms, IsLetThrough, HasUseLeft;
    var i := AllowNamesACandidate(ports, store, query);
    grant := query.authority.grants[i];
    InstantsMean(query);
    CandidateMeansOnItsTerms(ports, query, grant);
    CeilingMeans(ports, query, grant.id);
    BudgetMeans(store, query.authority.context, grant);
  }

  /** A broken or absent answer never lets anything through: with a ceiling, only its word for that grant does. */
  lemma CeilingAllowsOnlyOnItsWord(ports: Ports, store: Option<StoreView>, query: Query)
    requires ports.ceiling.Some? && Decide(ports, store, query).Allow?
    ensures query.authority.hostPolicy != Some(PolicyUnavailable)
    ensures
      var id := Decide(ports, store, query).grantId;
      ports.ceiling.value(id, query.request, query.authority.context, PolicyHanded(query.authority)) == SaysAllowed(Some(id))
  {
    hide Decide, IsOnItsTerms, HasUseLeft;
    var grant := AllowIsOnTheGrantsTerms(ports, store, query);
  }

  /** A chain that is not valid is denied under its own code, naming the grant it broke at. */
  ghost predicate IsDeniedFor(validation: Validation, decision: Decision) {
    match validation
    case Valid(_) => false
    case Invalid(_, violation, id) => decision == Deny(BrokenChainDenied(InvalidChain(violation, id)))
    case Unverified(_, cause, id) => decision == Deny(BrokenChainDenied(UnverifiedChain(cause, id)))
  }

  /** What a grant presented alone comes to: the first thing that stands in its way, or an allow. */
  ghost predicate ComesTo(ports: Ports, store: Option<StoreView>, query: Query, grant: Grant, decision: Decision)
    requires IsWhole(query.authority.context, query.now)
  {
    var context := query.authority.context;
    if !HasTheTerms(ports, grant, query) then decision == Deny(NoMatchingGrant)
    else if !HasValidChain(ports, grant, query) then
      IsDeniedFor(Validate(grant, ChainSetting(ports, context, query.now)), decision)
    else if ports.ceiling.Some? && query.authority.hostPolicy == Some(PolicyUnavailable) then
      decision == Deny(HostPolicyUnavailable)
    else if !IsLetThrough(ports, query, grant.id) then
      decision == Heeded(CeilingSays(ports, query, grant.id), grant.id)
    else if HasUseLeft(store, grant, context.namespaceId) then decision == Allow(grant.id)
    else if CanBeCounted(store, context.namespaceId, grant.id) then decision == Deny(GrantExhausted)
    else decision == Deny(UsageStoreUnavailable)
  }

  /** Presented alone: every decision, by what the grant, the ceiling and the store say. */
  lemma LoneGrantDecision(ports: Ports, store: Option<StoreView>, query: Query)
    requires |query.authority.grants| == 1
    requires IsWhole(query.authority.context, query.now) && IsProper(query.request, query.authority.context)
    ensures ComesTo(ports, store, query, query.authority.grants[0], Decide(ports, store, query))
  {
    hide IsCandidate, ApplyCeiling, BudgetLeft, InstantsOf, IsWellFormed, HasTheTerms, Judge, CanBeCounted, Validate, Conclude;
    var grant := query.authority.grants[0];
    InstantsMean(query);
    CandidateMeansOnItsTerms(ports, query, grant);
    CeilingMeans(ports, query, grant.id);
    BudgetMeans(store, query.authority.context, grant);
    var at := InstantsOf(query).value;
    assert SettingOf(ports, query.authority.context, at) == ChainSetting(ports, query.authority.context, query.now);
    JudgeMeans(ports, store, query, at, grant);
    OneVerdictConcludes(query.authority.grants, Verdicts(ports, store, query, at));
  }

  /** A walk of one verdict ends as that verdict says. */
  lemma OneVerdictConcludes(grants: seq<Grant>, vs: seq<Verdict>)
    requires |grants| == |vs| == 1
    ensures vs[0].Settled? ==> Conclude(grants, vs) == vs[0].decision
    ensures vs[0].Broken? ==> Conclude(grants, vs) == Deny(BrokenChainDenied(vs[0].failure))
    ensures vs[0].Overruled? ==> Conclude(grants, vs) == Deny(HostPolicyDenied(grants[0].id, vs[0].metadata))
    ensures vs[0].SpentOut? ==> Conclude(grants, vs) == Deny(GrantExhausted)
    ensures vs[0].TurnedAway? ==> Conclude(grants, vs) == Deny(NoMatchingGrant)
  {
  }

  ghost predicate AllCanBeCounted(store: Option<StoreView>, query: Query) {
    forall g :: g in query.authority.grants && g.constraints.maxUses.Some? ==>
      CanBeCounted(store, query.authority.context.namespaceId, g.id)
  }

  /**
   * Without a ceiling and with a store that answers, a decision allows exactly when some presented
   * grant is on its own terms and has a use left.
   */
  lemma AllowsIffSomeGrantIsOnItsTerms(ports: Ports, store: Option<StoreView>, query: Query)
    requires ports.ceiling.None?
    requires AllCanBeCounted(store, query)
    ensures Decide(ports, store, query).Allow? <==>
      && IsWhole(query.authority.context, query.now) && IsProper(query.request, query.authority.context)
      && exists g :: g in query.authority.grants && IsOnItsTerms(ports, g, query)
                     && HasUseLeft(store, g, query.authority.context.namespaceId)
  {
    hide Decide, IsOnItsTerms, HasUseLeft, InstantsOf, IsWellFormed, IsCandidate, BudgetLeft, IsWhole, IsProper;
    if Decide(ports, store, query).Allow? {
      var grant := AllowIsOnTheGrantsTerms(ports, store, query);
    }
    if IsWhole(query.authority.context, query.now) && IsProper(query.request, query.authority.context) {
      InstantsMean(query);
      forall g | g in query.authority.grants && IsOnItsTerms(ports, g, query)
        && HasUseLeft(store, g, query.authority.context.namespaceId)
        ensures Decide(ports, store, query).Allow?
      {
        CandidateMeansOnItsTerms(ports, query, g);
        BudgetMeans(store, query.authority.context, g);
        DecisionLaws.CandidateIsAllowed(ports, store, query, g);
      }
    }
  }
}
