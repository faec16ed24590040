/** What the walk asks of a grant, a ceiling and a budget, in the fields a reader can see. */
module DecisionTerms {
  import opened Foundations
  import opened Contracts
  import opened Activity
  import opened Delegation
  import opened Authorization

  // ----- The terms, field by field

  /** Both clocks can be read, and the turn says what it is for and how it is traced. */
  ghost predicate IsWhole(context: Context, now: Option<Timestamp>) {
    && context.now.Readable? && (now.Some? ==> now.value.Readable?)
    && context.purpose != [] && context.traceId != []
  }

  ghost predicate IsProper(request: Requirement, context: Context) {
    && request.action != [] && request.resource.namespace != []
    && (request.resource.owner.Some? ==> request.resource.owner.value == context.owner)
  }

  ghost predicate IsGivenTo(grant: Grant, context: Context) {
    grant.issuer == context.authority && grant.subject == context.actor && grant.namespaceId == context.namespaceId
  }

  /** Issued and started by admission, not revoked by then, and not ended by admission or by the operation. */
  ghost predicate IsOpen(grant: Grant, context: Context, now: Option<Timestamp>)
    requires IsWhole(context, now)
  {
    var admission := context.now.at;
    && grant.issuedAt.Readable? && grant.issuedAt.at <= admission
    && (grant.constraints.notBefore.Some? ==>
          grant.constraints.notBefore.value.Readable? && grant.constraints.notBefore.value.at <= admission)
    && (grant.constraints.expiresAt.Some? ==>
          && grant.constraints.expiresAt.value.Readable? && admission < grant.constraints.expiresAt.value.at
          && (now.Some? ==> now.value.at < grant.constraints.expiresAt.value.at))
    && (grant.revokedAt.Some? ==> grant.revokedAt.value.Readable? && admission < grant.revokedAt.value.at)
  }

  ghost predicate IsFor(grant: Grant, purpose: Text) {
    grant.constraints.purposes.Some? ==> purpose in grant.constraints.purposes.value
  }

  ghost predicate IsVerified(ports: Ports, grant: Grant, context: Context) {
    ports.verifier.Some? ==> ports.verifier.value(grant, context) == Some(true)
  }

  ghost predicate CoversAction(c: Capability, action: Text) { action in c.actions || Ascii("*") in c.actions }

  ghost predicate IsOfWorld(c: Capability, owner: Address) { c.resource.owner.Some? ==> c.resource.owner.value == owner }

  /** An exact capability is for its path; any other is for its path and every path that continues it. */
  ghost predicate CoversPath(c: Capability, path: seq<Text>) {
    if c.scope == Exact then path == c.resource.path else c.resource.path <= path
  }

  /** For a request, its path is covered; for a ceiling, some path that continues the ceiling's is. */
  ghost predicate Serves(c: Capability, request: Requirement, mode: Mode, owner: Address) {
    && c.resource.namespace == request.resource.namespace && CoversAction(c, request.action) && IsOfWorld(c, owner)
    && (if mode == Invoke then CoversPath(c, request.resource.path)
        else exists path :: request.resource.path <= path && CoversPath(c, path))
  }

  ghost predicate HasServingCapability(grant: Grant, query: Query) {
    exists c :: c in grant.capabilities && Serves(c, query.request, query.mode, query.authority.context.owner)
  }

  /** What the chain is validated under: sixteen links unless the host says otherwise. */
  ghost function ChainSetting(ports: Ports, context: Context, now: Option<Timestamp>): Setting
    requires IsWhole(context, now)
  {
    Setting(ports.resolver, if ports.maxChainLength.Some? then ports.maxChainLength.value else 16, context,
            Instants(context.now.at, if now.Some? then now.value.at else context.now.at))
  }

  ghost predicate HasValidChain(ports: Ports, grant: Grant, query: Query)
    requires IsWhole(query.authority.context, query.now)
  {
    Validate(grant, ChainSetting(ports, query.authority.context, query.now)).Valid?
  }

  /** Everything a grant has to be for its chain to be looked into. */
  ghost predicate HasTheTerms(ports: Ports, grant: Grant, query: Query)
    requires IsWhole(query.authority.context, query.now)
  {
    var context := query.authority.context;
    && IsGivenTo(grant, context) && IsOpen(grant, context, query.now) && IsFor(grant, context.purpose)
    && IsVerified(ports, grant, context) && HasServingCapability(grant, query)
  }

  /** ... and for a ceiling or a budget to be asked about it. */
  ghost predicate IsOnItsTerms(ports: Ports, grant: Grant, query: Query)
    requires IsWhole(query.authority.context, query.now)
  {
    HasTheTerms(ports, grant, query) && HasValidChain(ports, grant, query)
  }

  // ----- The ceiling and the budget

  /** The policy a ceiling is handed: the loaded one, or none where none was asked for. */
  ghost function PolicyHanded(authority: ResolvedAuthority): Option<Text> {
    match authority.hostPolicy
    case Some(PolicyLoaded(policy)) => Some(policy)
    case _ => None
  }

  ghost function CeilingSays(ports: Ports, query: Query, grantId: Text): CeilingAnswer
    requires ports.ceiling.Some?
  {
    ports.ceiling.value(grantId, query.request, query.authority.context, PolicyHanded(query.authority))
  }

  /** What an answer comes to: that very grant let through, a refusal, or for anything else a malfunction. */
  ghost function Heeded(answer: CeilingAnswer, grantId: Text): Decision {
    if answer == SaysAllowed(Some(grantId)) then Allow(grantId)
    else if answer.SaysDenied? then Deny(HostPolicyDenied(grantId, answer.metadata))
    else Deny(HostPolicyUnavailable)
  }

  /** Let through: no ceiling, or one that has its policy and answers with this very grant. */
  ghost predicate IsLetThrough(ports: Ports, query: Query, grantId: Text) {
    ports.ceiling.Some? ==>
      query.authority.hostPolicy != Some(PolicyUnavailable) && CeilingSays(ports, query, grantId) == SaysAllowed(Some(grantId))
  }

  ghost function TimesUsed(store: StoreView, namespaceId: Text, grantId: Text): int {
    if namespaceId in store.usage && grantId in store.usage[namespaceId] then store.usage[namespaceId][grantId] else 0
  }

  ghost predicate CanBeCounted(store: Option<StoreView>, namespaceId: Text, grantId: Text) {
    store.Some? && store.value.answers(namespaceId, grantId)
  }

  ghost predicate HasUseLeft(store: Option<StoreView>, grant: Grant, namespaceId: Text) {
    grant.constraints.maxUses.Some? ==>
      CanBeCounted(store, namespaceId, grant.id) && TimesUsed(store.value, namespaceId, grant.id) < grant.constraints.maxUses.value
  }

  // ----- What the walk's own notions come to

  lemma InstantsMean(query: Query)
    ensures InstantsOf(query).Some? <==> IsWhole(query.authority.context, query.now)
    ensures IsWhole(query.authority.context, query.now) ==>
      InstantsOf(query).value == ChainSetting(Ports(None, None, None, None), query.authority.context, query.now).at
    ensures IsWellFormed(query) <==> IsProper(query.request, query.authority.context)
  {
  }

  /** A context is refused for what it lacks, a request for what it lacks in a context that is whole. */
  lemma BrokenMeans(ports: Ports, store: Option<StoreView>, query: Query)
    ensures Decide(ports, store, query) == Deny(InvalidContext) <==> !IsWhole(query.authority.context, query.now)
    ensures Decide(ports, store, query) == Deny(InvalidRequest)
      <==> IsWhole(query.authority.context, query.now) && !IsProper(query.request, query.authority.context)
  {
    hide Judge, Decide;
    InstantsMean(query);
    EachReasonHasItsCause(ports, store, query);
    ReasonIsOfOne(Decide(ports, store, query));
  }

  lemma ReasonIsOfOne(decision: Decision)
    ensures ReasonOf(decision) == InvalidContextCode <==> decision == Deny(InvalidContext)
    ensures ReasonOf(decision) == InvalidRequestCode <==> decision == Deny(InvalidRequest)
    ensures ReasonOf(decision) == AllowedCode <==> decision.Allow?
  {
  }

  /** A capability answers a request of its world exactly when it serves it. */
  lemma MatchingMeansServing(mode: Mode, c: Capability, request: Requirement, context: Context)
    requires IsProper(request, context)
    ensures Matches(mode, c, request, context.owner) <==> Serves(c, request, mode, context.owner)
  {
    var p, q := c.resource.path, request.resource.path;
    assert WILDCARD == Ascii("*");
    WithinMeansPrefix(p, q);
    WithinMeansPrefix(q, p);
    if mode == Discover && q <= p { assert CoversPath(c, p); }
    if mode == Discover && p <= q { assert c.scope == Descendants ==> CoversPath(c, q); }
  }

  /** Everything the walk asks of a grant before the ceiling is what its fields say, and nothing more. */
  lemma CandidateMeansOnItsTerms(ports: Ports, query: Query, grant: Grant)
    requires IsWhole(query.authority.context, query.now) && IsProper(query.request, query.authority.context)
    ensures InstantsOf(query).Some?
    ensures Reaches(ports, query, InstantsOf(query).value, grant) <==> HasTheTerms(ports, grant, query)
    ensures IsCandidate(ports, query, InstantsOf(query).value, grant) <==> IsOnItsTerms(ports, grant, query)
  {
    hide Validate, Matches, Serves, GrantInactiveReason, Admits;
    InstantsMean(query);
    EligibleMeans(ports, query, grant);
    forall c ensures Matches(query.mode, c, query.request, query.authority.context.owner)
      <==> Serves(c, query.request, query.mode, query.authority.context.owner)
    { MatchingMeansServing(query.mode, c, query.request, query.authority.context); }
  }

  lemma EligibleMeans(ports: Ports, query: Query, grant: Grant)
    requires IsWhole(query.authority.context, query.now)
    ensures InstantsOf(query).Some?
    ensures
      var context := query.authority.context;
      GrantRejection(ports, context, grant, InstantsOf(query).value).None?
      <==> IsGivenTo(grant, context) && IsOpen(grant, context, query.now) && IsFor(grant, context.purpose)
           && IsVerified(ports, grant, context)
  {
  }

  /** Why a grant is turned away: the first term it breaks, in this order. */
  lemma RejectionNamesTheFirstBrokenTerm(ports: Ports, query: Query, grant: Grant)
    requires IsWhole(query.authority.context, query.now)
    ensures InstantsOf(query).Some?
    ensures
      var context := query.authority.context;
      var reason := GrantRejection(ports, context, grant, InstantsOf(query).value);
      && (reason == Some(IssuerMismatch) <==> grant.issuer != context.authority)
      && (reason == Some(SubjectMismatch) <==> grant.issuer == context.authority && grant.subject != context.actor)
      && (reason == Some(NamespaceMismatched) <==>
            grant.issuer == context.authority && grant.subject == context.actor && grant.namespaceId != context.namespaceId)
      && (reason == Some(OutsideWindow) <==> IsGivenTo(grant, context) && !IsOpen(grant, context, query.now))
      && (reason == Some(OutsidePurpose) <==>
            IsGivenTo(grant, context) && IsOpen(grant, context, query.now) && !IsFor(grant, context.purpose))
      && (reason == Some(NotVerified) <==>
            && IsGivenTo(grant, context) && IsOpen(grant, context, query.now) && IsFor(grant, context.purpose)
            && !IsVerified(ports, grant, context))
  {
  }

  lemma CeilingMeans(ports: Ports, query: Query, grantId: Text)
    ensures
      var d := ApplyCeiling(ports, query.authority, query.request, grantId);
      && (d == Allow(grantId) <==> IsLetThrough(ports, query, grantId))
      && (ports.ceiling.Some? && query.authority.hostPolicy == Some(PolicyUnavailable) ==> d == Deny(HostPolicyUnavailable))
      && (ports.ceiling.Some? && query.authority.hostPolicy != Some(PolicyUnavailable) ==>
            d == Heeded(CeilingSays(ports, query, grantId), grantId))
  {
  }

  lemma BudgetMeans(store: Option<StoreView>, context: Context, grant: Grant)
    ensures
      var budget := BudgetLeft(store, context, grant);
      && (budget.Available? <==> HasUseLeft(store, grant, context.namespaceId))
      && (budget.BudgetUnavailable? <==>
            grant.constraints.maxUses.Some? && !CanBeCounted(store, context.namespaceId, grant.id))
  {
  }
}
