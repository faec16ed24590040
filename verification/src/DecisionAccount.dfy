/** What goes with a decision: the account of a denial, the use an allow spends, the grants a ceiling hears of. */
module DecisionAccount {
  import opened Foundations
  import opened Contracts
  import opened Authorization
  import opened DecisionTerms

  /** A denial is explained by its own code, a dependency being named exactly when its absence is the reason. */
  lemma ExplanationMeans(ports: Ports, store: Option<StoreView>, query: Query)
    ensures
      var decision := Decide(ports, store, query);
      var explanation := Explain(ports, store, query);
      && (explanation.None? <==> decision.Allow?)
      && (explanation.Some? ==>
        && explanation.value.reason == ReasonOf(decision)
        && explanation.value.grantsResolved == |query.authority.grants|
        && (explanation.value.missing == Some(UsageStoreDependency) <==> decision == Deny(UsageStoreUnavailable) && store.None?)
        && (explanation.value.missing == Some(ResolverDependency)
            <==> ReasonOf(decision) == DelegationChainUnverifiedCode && ports.resolver.None?)
        && (decision in {Deny(InvalidContext), Deny(InvalidRequest)} ==> explanation.value.rejections == []))
  {
    hide Judge, Settler, FirstUnverified, FirstBroken, FirstOverruled, Rejections;
    if InstantsOf(query).Some? && IsWellFormed(query) {
      var vs := Verdicts(ports, store, query, InstantsOf(query).value);
      if Settler(vs) < |vs| {
        JudgeMeans(ports, store, query, InstantsOf(query).value, query.authority.grants[Settler(vs)]);
      }
    }
  }

  /** The first verdict to settle the walk is an allow, through a bounded grant of this id. */
  ghost predicate AllowsBounded(grants: seq<Grant>, vs: seq<Verdict>, i: int, id: Text)
    requires |grants| == |vs|
  {
    && 0 <= i < |vs| && vs[i] == Settled(Allow(id)) && grants[i].constraints.maxUses.Some?
    && forall j :: 0 <= j < i ==> !vs[j].Settled?
  }

  /** What a consuming decision spends: a use of the grant it allows through, when that one is bounded. */
  lemma SpendMeans(ports: Ports, store: Option<StoreView>, query: Query, consume: bool, id: Text)
    ensures SpendOf(ports, store, query, consume) == Some(id) <==>
      && consume && InstantsOf(query).Some? && IsWellFormed(query)
      && exists i :: AllowsBounded(query.authority.grants, Verdicts(ports, store, query, InstantsOf(query).value), i, id)
  {
    hide Judge, Settler;
    if InstantsOf(query).Some? && IsWellFormed(query) {
      var vs := Verdicts(ports, store, query, InstantsOf(query).value);
      var i := Settler(vs);
      if i < |vs| {
        JudgeMeans(ports, store, query, InstantsOf(query).value, query.authority.grants[i]);
        assert forall j :: AllowsBounded(query.authority.grants, vs, j, id) ==> j == i;
        assert vs[i] == Settled(Allow(id)) && query.authority.grants[i].constraints.maxUses.Some? ==>
          AllowsBounded(query.authority.grants, vs, i, id);
      }
    }
  }

  /** The ids of the grants on their own terms, in order. */
  ghost function CandidateIds(ports: Ports, query: Query, grants: seq<Grant>): seq<Text>
    requires IsWhole(query.authority.context, query.now)
  {
    if grants == [] then []
    else
      var n := |grants| - 1;
      CandidateIds(ports, query, grants[..n]) + if IsOnItsTerms(ports, grants[n], query) then [grants[n].id] else []
  }

  /** A ceiling hears of exactly the grants on their own terms, in order, through the one that settles the walk. */
  lemma ConsultedAreOnTheirTerms(ports: Ports, store: Option<StoreView>, query: Query)
    requires IsWhole(query.authority.context, query.now) && IsProper(query.request, query.authority.context)
    ensures InstantsOf(query).Some?
    ensures
      var n := Walked(Verdicts(ports, store, query, InstantsOf(query).value));
      ConsultedBy(ports, store, query)
      == if query.authority.hostPolicy == Some(PolicyUnavailable) then []
         else CandidateIds(ports, query, query.authority.grants[..n])
  {
    hide Judge, Walked, InstantsOf, IsWellFormed, IsWhole, IsProper;
    InstantsMean(query);
    var vs := Verdicts(ports, store, query, InstantsOf(query).value);
    ConsultedOf(ports, store, query, Walked(vs));
  }

  lemma {:induction false} ConsultedOf(ports: Ports, store: Option<StoreView>, query: Query, n: nat)
    requires IsWhole(query.authority.context, query.now) && IsProper(query.request, query.authority.context)
    requires n <= |query.authority.grants|
    ensures InstantsOf(query).Some?
    ensures
      var vs := Verdicts(ports, store, query, InstantsOf(query).value);
      Consulted(query.authority.grants[..n], vs[..n]) == CandidateIds(ports, query, query.authority.grants[..n])
  {
    hide Judge, InstantsOf, IsWellFormed, IsWhole, IsProper, IsOnItsTerms, IsCandidate;
    InstantsMean(query);
    if n > 0 {
      var grants, at := query.authority.grants, InstantsOf(query).value;
      var vs := Verdicts(ports, store, query, at);
      ConsultedOf(ports, store, query, n - 1);
      CandidateMeansOnItsTerms(ports, query, grants[n - 1]);
      JudgeMeans(ports, store, query, at, grants[n - 1]);
      assert grants[..n][..n - 1] == grants[..n - 1] && vs[..n][..n - 1] == vs[..n - 1];
    }
  }
}
