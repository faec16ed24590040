/** What one decision is: each grant judged alone, and the judgements put in order. */
module Authorization {
  import opened Foundations
  import opened Contracts
  import opened Activity
  import opened Capabilities
  import opened Delegation

  // ----- Decisions

  datatype DelegationFailure =
    | InvalidChain(violation: Violation, grantId: Text)
    | UnverifiedChain(cause: Unverifiable, grantId: Text)

  datatype Denial =
    | InvalidContext
    | InvalidRequest
    | NoMatchingGrant
    | GrantExhausted
    | BrokenChainDenied(failure: DelegationFailure)
    | UsageStoreUnavailable
    | HostPolicyDenied(matchedGrantId: Text, metadata: Option<Text>)
    | HostPolicyUnavailable

  datatype Decision = Allow(grantId: Text) | Deny(denial: Denial)

  datatype ReasonCode =
    | AllowedCode | InvalidContextCode | InvalidRequestCode | NoMatchingGrantCode | GrantExhaustedCode
    | DelegationChainInvalidCode | DelegationChainUnverifiedCode
    | UsageStoreUnavailableCode | HostPolicyDeniedCode | HostPolicyUnavailableCode

  function ReasonOf(decision: Decision): ReasonCode {
    match decision
    case Allow(_) => AllowedCode
    case Deny(InvalidContext) => InvalidContextCode
    case Deny(InvalidRequest) => InvalidRequestCode
    case Deny(NoMatchingGrant) => NoMatchingGrantCode
    case Deny(GrantExhausted) => GrantExhaustedCode
    case Deny(BrokenChainDenied(InvalidChain(_, _))) => DelegationChainInvalidCode
    case Deny(BrokenChainDenied(UnverifiedChain(_, _))) => DelegationChainUnverifiedCode
    case Deny(UsageStoreUnavailable) => UsageStoreUnavailableCode
    case Deny(HostPolicyDenied(_, _)) => HostPolicyDeniedCode
    case Deny(HostPolicyUnavailable) => HostPolicyUnavailableCode
  }

  // ----- Ports: functions a host supplies, any of which may throw

  /** `None` when the verifier threw. */
  type Verifier = (Grant, Context) -> Option<bool>

  /** What a ceiling returned, as far as it is read. */
  datatype CeilingAnswer =
    | CeilingThrew
    | NotAVerdict
    | SaysAllowed(matchedGrantId: Option<Text>)
    | SaysDenied(metadata: Option<Text>)

  /** Arguments: the grant it would allow, the request, the context, the loaded policy. */
  type Ceiling = (Text, Requirement, Context, Option<Text>) -> CeilingAnswer

  /** The policy itself is handed back unread, so opaque text stands for it. */
  datatype PolicyResolution = PolicyLoaded(policy: Text) | PolicyUnavailable

  datatype Ports = Ports(
    verifier: Option<Verifier>,
    resolver: Option<Resolver>,
    maxChainLength: Option<int>,
    ceiling: Option<Ceiling>)

  type Usage = map<Text, map<Text, int>>

  function UsageOf(usage: Usage, namespaceId: Text, grantId: Text): int {
    if namespaceId in usage && grantId in usage[namespaceId] then usage[namespaceId][grantId] else 0
  }

  /** A usage store as one decision finds it: its counters, and which reads it answers. */
  datatype StoreView = StoreView(usage: Usage, answers: (Text, Text) -> bool)

  datatype ResolvedAuthority = ResolvedAuthority(
    context: Context, grants: seq<Grant>, hostPolicy: Option<PolicyResolution>)

  /** An invocation asks for one request; discovery asks whether anything under a ceiling would match. */
  datatype Mode = Invoke | Discover

  predicate Matches(mode: Mode, capability: Capability, request: Requirement, owner: Address) {
    if mode == Invoke then CapabilityMatches(capability, request, owner)
    else CapabilityIntersectsCeiling(capability, request, owner)
  }

  // ----- One grant

  datatype RejectionReason =
    | IssuerMismatch | SubjectMismatch | NamespaceMismatched
    | OutsideWindow | OutsidePurpose | NotVerified
    | NoCapability | ChainNotValid | Exhausted

  function GrantRejection(ports: Ports, context: Context, grant: Grant, at: Instants): Option<RejectionReason> {
    if grant.issuer != context.authority then Some(IssuerMismatch)
    else if grant.subject != context.actor then Some(SubjectMismatch)
    else if grant.namespaceId != context.namespaceId then Some(NamespaceMismatched)
    else
      match GrantInactiveReason(grant, context.purpose, at)
      case Some(Window) => Some(OutsideWindow)
      case Some(Purpose) => Some(OutsidePurpose)
      case None =>
        if ports.verifier.Some? && ports.verifier.value(grant, context) != Some(true) then Some(NotVerified)
        else None
  }

  function SettingOf(ports: Ports, context: Context, at: Instants): Setting {
    Setting(ports.resolver,
            if ports.maxChainLength.Some? then ports.maxChainLength.value else DEFAULT_MAX_CHAIN_LENGTH,
            context, at)
  }

  /** Eligible and chain-valid: authority at this instant, whatever is asked of it. */
  predicate IsLive(ports: Ports, context: Context, grant: Grant, at: Instants) {
    && GrantRejection(ports, context, grant, at).None?
    && Validate(grant, SettingOf(ports, context, at)).Valid?
  }

  /** A ceiling may say the allow it was handed, or no; anything else is a malfunction. */
  function ApplyCeiling(ports: Ports, authority: ResolvedAuthority, request: Requirement, grantId: Text): (d: Decision)
    ensures d in {Allow(grantId), Deny(HostPolicyUnavailable)}
      || (d.Deny? && d.denial.HostPolicyDenied? && d.denial.matchedGrantId == grantId)
  {
    if ports.ceiling.None? then Allow(grantId)
    else if authority.hostPolicy == Some(PolicyUnavailable) then Deny(HostPolicyUnavailable)
    else
      var policy := if authority.hostPolicy.Some? then Some(authority.hostPolicy.value.policy) else None;
      match ports.ceiling.value(grantId, request, authority.context, policy)
      case CeilingThrew => Deny(HostPolicyUnavailable)
      case NotAVerdict => Deny(HostPolicyUnavailable)
      case SaysAllowed(named) => if named == Some(grantId) then Allow(grantId) else Deny(HostPolicyUnavailable)
      case SaysDenied(metadata) => Deny(HostPolicyDenied(grantId, metadata))
  }

  datatype Budget = Available | BudgetSpent | BudgetUnavailable

  function BudgetLeft(store: Option<StoreView>, context: Context, grant: Grant): Budget {
    if grant.constraints.maxUses.None? then Available
    else if store.None? || !store.value.answers(context.namespaceId, grant.id) then BudgetUnavailable
    else if UsageOf(store.value.usage, context.namespaceId, grant.id) < grant.constraints.maxUses.value then Available
    else BudgetSpent
  }

  /** What a decision learns from one grant: move on, and why, or settle. */
  datatype Verdict =
    | TurnedAway(reason: RejectionReason)
    | Broken(failure: DelegationFailure)
    | Overruled(metadata: Option<Text>)
    | SpentOut
    | Settled(decision: Decision)

  function FailureOf(validation: Validation): DelegationFailure
    requires !validation.Valid?
  {
    match validation
    case Invalid(_, violation, grantId) => InvalidChain(violation, grantId)
    case Unverified(_, cause, grantId) => UnverifiedChain(cause, grantId)
  }

  datatype Query = Query(authority: ResolvedAuthority, request: Requirement, mode: Mode, now: Option<Timestamp>)

  /** Does the grant reach the ceiling: eligible, matching, on a valid chain? */
  predicate IsCandidate(ports: Ports, query: Query, at: Instants, grant: Grant) {
    && IsLive(ports, query.authority.context, grant, at)
    && exists c :: c in grant.capabilities && Matches(query.mode, c, query.request, query.authority.context.owner)
  }

  /** Does it get as far as its chain: eligible, and matching? */
  predicate Reaches(ports: Ports, query: Query, at: Instants, grant: Grant) {
    && GrantRejection(ports, query.authority.context, grant, at).None?
    && exists c :: c in grant.capabilities && Matches(query.mode, c, query.request, query.authority.context.owner)
  }

  function Judge(ports: Ports, store: Option<StoreView>, query: Query, at: Instants, grant: Grant): Verdict {
    var context := query.authority.context;
    var ineligible := GrantRejection(ports, context, grant, at);
    if ineligible.Some? then TurnedAway(ineligible.value)
    else if !exists c :: c in grant.capabilities && Matches(query.mode, c, query.request, context.owner)
      then TurnedAway(NoCapability)
    else
      var delegation := Validate(grant, SettingOf(ports, context, at));
      if !delegation.Valid? then Broken(FailureOf(delegation))
      else
        match ApplyCeiling(ports, query.authority, query.request, grant.id)
        case Deny(HostPolicyDenied(_, metadata)) => Overruled(metadata)
        case Deny(denial) => Settled(Deny(denial))
        case Allow(_) =>
          match BudgetLeft(store, context, grant)
          case Available => Settled(Allow(grant.id))
          case BudgetUnavailable => Settled(Deny(UsageStoreUnavailable))
          case BudgetSpent => SpentOut
  }

  // ----- The whole decision

  /** The instants decided at, unless the context or a named operation instant is broken. */
  function InstantsOf(query: Query): Option<Instants> {
    var context := query.authority.context;
    var admittedAt := ParseTimestamp(Some(context.now));
    var now := if query.now.None? then admittedAt else ParseTimestamp(query.now);
    if admittedAt.None? || now.None? || context.purpose == [] || context.traceId == [] then None
    else Some(Instants(admittedAt.value, now.value))
  }

  predicate ResourceBelongsToContext(resource: Resource, context: Context) {
    resource.owner.None? || resource.owner.value == context.owner
  }

  predicate IsWellFormed(query: Query) {
    && query.request.action != [] && query.request.resource.namespace != []
    && ResourceBelongsToContext(query.request.resource, query.authority.context)
  }

  function Verdicts(ports: Ports, store: Option<StoreView>, query: Query, at: Instants): (vs: seq<Verdict>)
    ensures |vs| == |query.authority.grants|
    ensures forall i :: 0 <= i < |vs| ==> vs[i] == Judge(ports, store, query, at, query.authority.grants[i])
  {
    seq(|query.authority.grants|, i requires 0 <= i < |query.authority.grants| =>
      Judge(ports, store, query, at, query.authority.grants[i]))
  }

  function Settler(vs: seq<Verdict>): (i: nat)
    ensures i <= |vs|
    ensures i < |vs| ==> vs[i].Settled?
    ensures forall j :: 0 <= j < i ==> !vs[j].Settled?
  {
    FirstIndex((v: Verdict) => v.Settled?, vs)
  }

  function FirstUnverified(vs: seq<Verdict>): (i: nat)
    ensures i <= |vs|
    ensures i < |vs| ==> vs[i].Broken? && vs[i].failure.UnverifiedChain?
    ensures forall j :: 0 <= j < i ==> !(vs[j].Broken? && vs[j].failure.UnverifiedChain?)
  {
    FirstIndex((v: Verdict) => v.Broken? && v.failure.UnverifiedChain?, vs)
  }

  function FirstBroken(vs: seq<Verdict>): (i: nat)
    ensures i <= |vs|
    ensures i < |vs| ==> vs[i].Broken?
    ensures forall j :: 0 <= j < i ==> !vs[j].Broken?
  {
    FirstIndex((v: Verdict) => v.Broken?, vs)
  }

  function FirstOverruled(vs: seq<Verdict>): (i: nat)
    ensures i <= |vs|
    ensures i < |vs| ==> vs[i].Overruled?
    ensures forall j :: 0 <= j < i ==> !vs[j].Overruled?
  {
    FirstIndex((v: Verdict) => v.Overruled?, vs)
  }

  /** The failure that stands for the rest: the first unverified chain, or failing one the first invalid. */
  function WorstFailure(vs: seq<Verdict>): Option<DelegationFailure> {
    if FirstUnverified(vs) < |vs| then Some(vs[FirstUnverified(vs)].failure)
    else if FirstBroken(vs) < |vs| then Some(vs[FirstBroken(vs)].failure)
    else None
  }

  function FirstPolicyDenial(grants: seq<Grant>, vs: seq<Verdict>): Option<Denial>
    requires |grants| == |vs|
  {
    var i := FirstOverruled(vs);
    if i < |vs| then Some(HostPolicyDenied(grants[i].id, vs[i].metadata)) else None
  }

  /** The denial once every grant has been walked: unverified, invalid, policy, exhausted, nothing. */
  function Remaining(grants: seq<Grant>, vs: seq<Verdict>): Denial
    requires |grants| == |vs|
  {
    if WorstFailure(vs).Some? then BrokenChainDenied(WorstFailure(vs).value)
    else if FirstPolicyDenial(grants, vs).Some? then FirstPolicyDenial(grants, vs).value
    else if SpentOut in vs then GrantExhausted
    else NoMatchingGrant
  }

  function Conclude(grants: seq<Grant>, vs: seq<Verdict>): Decision
    requires |grants| == |vs|
  {
    if Settler(vs) < |vs| then vs[Settler(vs)].decision else Deny(Remaining(grants, vs))
  }

  /** The decision, as a function of what the ports and the store answer. */
  function Decide(ports: Ports, store: Option<StoreView>, query: Query): Decision {
    var at := InstantsOf(query);
    if at.None? then Deny(InvalidContext)
    else if !IsWellFormed(query) then Deny(InvalidRequest)
    else Conclude(query.authority.grants, Verdicts(ports, store, query, at.value))
  }

  // ----- The account a host is given of a denial

  datatype Rejected = Rejected(grantId: Text, reason: RejectionReason)
  datatype Dependency = UsageStoreDependency | ResolverDependency
  datatype Explanation = Explanation(
    reason: ReasonCode, grantsResolved: nat, rejections: seq<Rejected>, missing: Option<Dependency>)

  function RejectionOf(verdict: Verdict): Option<RejectionReason> {
    match verdict
    case TurnedAway(reason) => Some(reason)
    case Broken(_) => Some(ChainNotValid)
    case SpentOut => Some(Exhausted)
    case _ => None
  }

  function Rejections(grants: seq<Grant>, vs: seq<Verdict>): seq<Rejected>
    requires |grants| == |vs|
  {
    if vs == [] then []
    else
      var n := |vs| - 1;
      var reason := RejectionOf(vs[n]);
      Rejections(grants[..n], vs[..n]) + if reason.Some? then [Rejected(grants[n].id, reason.value)] else []
  }

  /** The grants a ceiling is asked about, in order: the candidates. */
  function Consulted(grants: seq<Grant>, vs: seq<Verdict>): seq<Text>
    requires |grants| == |vs|
  {
    if vs == [] then []
    else
      var n := |vs| - 1;
      Consulted(grants[..n], vs[..n])
      + if vs[n].Overruled? || vs[n].Settled? || vs[n].SpentOut? then [grants[n].id] else []
  }

  /** What a ceiling hears of over a walk: nothing while the policy of its turn is unavailable. */
  function Heard(query: Query, grants: seq<Grant>, vs: seq<Verdict>): seq<Text>
    requires |grants| == |vs|
  {
    if query.authority.hostPolicy == Some(PolicyUnavailable) then [] else Consulted(grants, vs)
  }

  /** How far a walk gets: through its settling grant, or through them all. */
  function Walked(vs: seq<Verdict>): (n: nat)
    ensures n <= |vs|
  {
    if Settler(vs) < |vs| then Settler(vs) + 1 else |vs|
  }

  function MissingDependency(ports: Ports, store: Option<StoreView>, vs: seq<Verdict>): Option<Dependency> {
    if Settler(vs) < |vs|
    then if vs[Settler(vs)].decision == Deny(UsageStoreUnavailable) && store.None? then Some(UsageStoreDependency) else None
    else if WorstFailure(vs).Some? && WorstFailure(vs).value.UnverifiedChain? && ports.resolver.None?
    then Some(ResolverDependency)
    else None
  }

  /** Nothing for an allow; for a denial, the grants turned away on the way to it. */
  function Explain(ports: Ports, store: Option<StoreView>, query: Query): Option<Explanation> {
    var decision := Decide(ports, store, query);
    var grants := query.authority.grants;
    if decision.Allow? then None
    else if InstantsOf(query).None? || !IsWellFormed(query) then Some(Explanation(ReasonOf(decision), |grants|, [], None))
    else
      var vs := Verdicts(ports, store, query, InstantsOf(query).value);
      var n := Walked(vs);
      Some(Explanation(ReasonOf(decision), |grants|, Rejections(grants[..n], vs[..n]), MissingDependency(ports, store, vs)))
  }

  /** The grants a decision asks the ceiling about: its candidates, in order, through the settling one. */
  function ConsultedBy(ports: Ports, store: Option<StoreView>, query: Query): seq<Text> {
    if InstantsOf(query).None? || !IsWellFormed(query) then []
    else
      var vs := Verdicts(ports, store, query, InstantsOf(query).value);
      Heard(query, query.authority.grants[..Walked(vs)], vs[..Walked(vs)])
  }

  /** The use a consuming decision spends: one, of the bounded grant it allowed through. */
  function SpendOf(ports: Ports, store: Option<StoreView>, query: Query, consume: bool): Option<Text> {
    if !consume || Decide(ports, store, query).Deny? then None
    else
      var i := Settler(Verdicts(ports, store, query, InstantsOf(query).value));
      var grant := query.authority.grants[i];
      if grant.constraints.maxUses.Some? then Some(grant.id) else None
  }

  // ----- What a decision depends on, and what it does not

  lemma JudgeMeans(ports: Ports, store: Option<StoreView>, query: Query, at: Instants, grant: Grant)
    ensures
      var v := Judge(ports, store, query, at, grant);
      var ceiling := ApplyCeiling(ports, query.authority, query.request, grant.id);
      var budget := BudgetLeft(store, query.authority.context, grant);
      && (v.Overruled? || v.Settled? || v.SpentOut? <==> IsCandidate(ports, query, at, grant))
      && (v == Settled(Allow(grant.id)) <==> IsCandidate(ports, query, at, grant) && ceiling.Allow? && budget.Available?)
      && (v.Settled? && v.decision.Allow? ==> v.decision.grantId == grant.id)
      && (v.Settled? && v.decision.Deny? ==> v.decision.denial in {UsageStoreUnavailable, HostPolicyUnavailable})
      && (v == Settled(Deny(UsageStoreUnavailable)) <==>
            IsCandidate(ports, query, at, grant) && ceiling.Allow? && budget.BudgetUnavailable?)
      && (v == Settled(Deny(HostPolicyUnavailable)) <==>
            IsCandidate(ports, query, at, grant) && ceiling == Deny(HostPolicyUnavailable))
      && (v.Overruled? <==> IsCandidate(ports, query, at, grant) && ceiling.Deny? && ceiling.denial.HostPolicyDenied?)
      && (v.Overruled? ==> ceiling == Deny(HostPolicyDenied(grant.id, v.metadata)))
      && (v.SpentOut? <==> IsCandidate(ports, query, at, grant) && ceiling.Allow? && budget.BudgetSpent?)
      && (v.Broken? <==>
            Reaches(ports, query, at, grant) && !Validate(grant, SettingOf(ports, query.authority.context, at)).Valid?)
      && (v.Broken? ==>
            match Validate(grant, SettingOf(ports, query.authority.context, at))
            case Invalid(_, violation, id) => v.failure == InvalidChain(violation, id)
            case Unverified(_, cause, id) => v.failure == UnverifiedChain(cause, id)
            case Valid(_) => false)
      && (v.TurnedAway? <==> !Reaches(ports, query, at, grant))
      && (v.TurnedAway? ==>
            var ineligible := GrantRejection(ports, query.authority.context, grant, at);
            v.reason == if ineligible.Some? then ineligible.value else NoCapability)
  {
    hide Validate, GrantRejection, Matches;
  }

  /** A judgement reads the store only through the counters it holds. */
  lemma JudgeReadsCounters(ports: Ports, store: Option<StoreView>, other: Option<StoreView>, query: Query, at: Instants, grant: Grant)
    requires store.Some? <==> other.Some?
    requires store.Some? ==> store.value.answers == other.value.answers
    requires store.Some? ==> forall n, g :: UsageOf(store.value.usage, n, g) == UsageOf(other.value.usage, n, g)
    ensures Judge(ports, store, query, at, grant) == Judge(ports, other, query, at, grant)
  {
    hide Validate, GrantRejection, Matches, ApplyCeiling;
  }

  /** An allow names a grant that was presented, live, matching, let through and within budget. */
  lemma AllowNamesACandidate(ports: Ports, store: Option<StoreView>, query: Query) returns (i: nat)
    requires Decide(ports, store, query).Allow?
    ensures InstantsOf(query).Some? && IsWellFormed(query)
    ensures i < |query.authority.grants|
    ensures
      var grant := query.authority.grants[i];
      && Decide(ports, store, query) == Allow(grant.id)
      && IsCandidate(ports, query, InstantsOf(query).value, grant)
      && ApplyCeiling(ports, query.authority, query.request, grant.id) == Allow(grant.id)
      && BudgetLeft(store, query.authority.context, grant) == Available
  {
    hide Judge;
    var vs := Verdicts(ports, store, query, InstantsOf(query).value);
    i := Settler(vs);
    JudgeMeans(ports, store, query, InstantsOf(query).value, query.authority.grants[i]);
  }

  predicate NeverSettles(vs: seq<Verdict>) { forall i :: 0 <= i < |vs| ==> !vs[i].Settled? }

  /** No fail-closed stop: a grant that settles the walk settles it by allowing. */
  predicate NeverStops(vs: seq<Verdict>) {
    forall i :: 0 <= i < |vs| && vs[i].Settled? ==> vs[i].decision.Allow?
  }

  predicate SomeAllows(vs: seq<Verdict>) { exists i :: 0 <= i < |vs| && vs[i].Settled? && vs[i].decision.Allow? }

  ghost predicate SomeUnverified(vs: seq<Verdict>) { exists v :: v in vs && v.Broken? && v.failure.UnverifiedChain? }
  ghost predicate SomeBroken(vs: seq<Verdict>) { exists v :: v in vs && v.Broken? }
  ghost predicate SomeOverruled(vs: seq<Verdict>) { exists v :: v in vs && v.Overruled? }

  /** The first verdict to settle the walk settles it so. */
  ghost predicate SettlesFirst(vs: seq<Verdict>, reason: ReasonCode) {
    exists i :: 0 <= i < |vs| && vs[i].Settled? && ReasonOf(vs[i].decision) == reason && NeverSettles(vs[..i])
  }

  /** Every reason code, exactly: what the grants, each judged alone, must come to for a decision to carry it. */
  lemma EachReasonHasItsCause(ports: Ports, store: Option<StoreView>, query: Query)
    ensures
      var reason := ReasonOf(Decide(ports, store, query));
      && (reason == InvalidContextCode <==> InstantsOf(query).None?)
      && (reason == InvalidRequestCode <==> InstantsOf(query).Some? && !IsWellFormed(query))
    ensures InstantsOf(query).Some? && IsWellFormed(query) ==>
      var reason := ReasonOf(Decide(ports, store, query));
      var vs := Verdicts(ports, store, query, InstantsOf(query).value);
      && (reason == AllowedCode <==> SettlesFirst(vs, AllowedCode))
      && (reason == UsageStoreUnavailableCode <==> SettlesFirst(vs, UsageStoreUnavailableCode))
      && (reason == HostPolicyUnavailableCode <==> SettlesFirst(vs, HostPolicyUnavailableCode))
      && (reason == DelegationChainUnverifiedCode <==> NeverSettles(vs) && SomeUnverified(vs))
      && (reason == DelegationChainInvalidCode <==> NeverSettles(vs) && SomeBroken(vs) && !SomeUnverified(vs))
      && (reason == HostPolicyDeniedCode <==> NeverSettles(vs) && !SomeBroken(vs) && SomeOverruled(vs))
      && (reason == GrantExhaustedCode <==>
            NeverSettles(vs) && !SomeBroken(vs) && !SomeOverruled(vs) && SpentOut in vs)
      && (reason == NoMatchingGrantCode <==> forall v :: v in vs ==> v.TurnedAway?)
  {
    hide Judge, IsWellFormed, InstantsOf;
    if InstantsOf(query).Some? && IsWellFormed(query) {
      var vs := Verdicts(ports, store, query, InstantsOf(query).value);
      forall i | 0 <= i < |vs| && vs[i].Settled? ensures vs[i].decision.Allow? || vs[i].decision.denial in {UsageStoreUnavailable, HostPolicyUnavailable} {
        JudgeMeans(ports, store, query, InstantsOf(query).value, query.authority.grants[i]);
      }
      ConclusionHasItsCause(query.authority.grants, vs);
    }
  }

  lemma ConclusionHasItsCause(grants: seq<Grant>, vs: seq<Verdict>)
    requires |grants| == |vs|
    requires forall i :: 0 <= i < |vs| && vs[i].Settled? ==>
      vs[i].decision.Allow? || vs[i].decision.denial in {UsageStoreUnavailable, HostPolicyUnavailable}
    ensures
      var reason := ReasonOf(Conclude(grants, vs));
      && (reason in {AllowedCode, UsageStoreUnavailableCode, HostPolicyUnavailableCode} <==> !NeverSettles(vs))
      && reason !in {InvalidContextCode, InvalidRequestCode}
      && (forall code :: SettlesFirst(vs, code) <==> !NeverSettles(vs) && reason == code)
      && (reason == DelegationChainUnverifiedCode <==> NeverSettles(vs) && SomeUnverified(vs))
      && (reason == DelegationChainInvalidCode <==> NeverSettles(vs) && SomeBroken(vs) && !SomeUnverified(vs))
      && (reason == HostPolicyDeniedCode <==> NeverSettles(vs) && !SomeBroken(vs) && SomeOverruled(vs))
      && (reason == GrantExhaustedCode <==>
            NeverSettles(vs) && !SomeBroken(vs) && !SomeOverruled(vs) && SpentOut in vs)
      && (reason == NoMatchingGrantCode <==> forall v :: v in vs ==> v.TurnedAway?)
  {
    hide Settler, FirstUnverified, FirstBroken, FirstOverruled;
    FirstsExist(vs);
    if Settler(vs) < |vs| {
      assert forall j :: 0 <= j < Settler(vs) ==> vs[..Settler(vs)][j] == vs[j];
      assert vs[Settler(vs)] in vs;
      forall code | SettlesFirst(vs, code) ensures ReasonOf(vs[Settler(vs)].decision) == code {
        var i :| 0 <= i < |vs| && vs[i].Settled? && ReasonOf(vs[i].decision) == code && NeverSettles(vs[..i]);
        assert forall j :: 0 <= j < i ==> vs[..i][j] == vs[j];
        assert i <= Settler(vs);
      }
    }
  }

  /** The verdict at `i` is the first of those like it. */
  ghost predicate IsFirst(vs: seq<Verdict>, i: int, like: Verdict -> bool) {
    0 <= i < |vs| && like(vs[i]) && forall j :: 0 <= j < i ==> !like(vs[j])
  }

  /** A denial for a chain or by policy carries the account of the first grant that calls for it. */
  lemma DenialNamesTheFirst(ports: Ports, store: Option<StoreView>, query: Query)
    requires InstantsOf(query).Some? && IsWellFormed(query)
    ensures
      var grants := query.authority.grants;
      var vs := Verdicts(ports, store, query, InstantsOf(query).value);
      match Decide(ports, store, query)
      case Deny(BrokenChainDenied(UnverifiedChain(cause, id))) =>
        exists i :: IsFirst(vs, i, (v: Verdict) => v.Broken? && v.failure.UnverifiedChain?)
                    && vs[i].failure == UnverifiedChain(cause, id)
      case Deny(BrokenChainDenied(InvalidChain(violation, id))) =>
        exists i :: IsFirst(vs, i, (v: Verdict) => v.Broken?) && vs[i].failure == InvalidChain(violation, id)
      case Deny(HostPolicyDenied(id, metadata)) =>
        exists i :: IsFirst(vs, i, (v: Verdict) => v.Overruled?) && grants[i].id == id && vs[i].metadata == metadata
      case _ => true
  {
    hide Judge, IsWellFormed, InstantsOf, Settler, FirstUnverified, FirstBroken, FirstOverruled;
    var vs := Verdicts(ports, store, query, InstantsOf(query).value);
    if Settler(vs) < |vs| {
      JudgeMeans(ports, store, query, InstantsOf(query).value, query.authority.grants[Settler(vs)]);
    } else {
      if FirstUnverified(vs) < |vs| {
        assert IsFirst(vs, FirstUnverified(vs), (v: Verdict) => v.Broken? && v.failure.UnverifiedChain?);
      } else if FirstBroken(vs) < |vs| {
        assert IsFirst(vs, FirstBroken(vs), (v: Verdict) => v.Broken?);
      } else if FirstOverruled(vs) < |vs| {
        assert IsFirst(vs, FirstOverruled(vs), (v: Verdict) => v.Overruled?);
      }
    }
  }

  lemma FirstsExist(vs: seq<Verdict>)
    ensures NeverSettles(vs) <==> Settler(vs) == |vs|
    ensures SomeUnverified(vs) <==> FirstUnverified(vs) < |vs|
    ensures SomeBroken(vs) <==> FirstBroken(vs) < |vs|
    ensures SomeOverruled(vs) <==> FirstOverruled(vs) < |vs|
  {
    hide Settler, FirstUnverified, FirstBroken, FirstOverruled;
    assert FirstUnverified(vs) < |vs| ==> vs[FirstUnverified(vs)] in vs;
    assert FirstBroken(vs) < |vs| ==> vs[FirstBroken(vs)] in vs;
    assert FirstOverruled(vs) < |vs| ==> vs[FirstOverruled(vs)] in vs;
  }

  /** With no fail-closed stop the decision allows exactly when some grant, judged alone, allows. */
  lemma AllowsIffSomeGrantAllows(grants: seq<Grant>, vs: seq<Verdict>)
    requires |grants| == |vs| && NeverStops(vs)
    ensures Conclude(grants, vs).Allow? <==> SomeAllows(vs)
  {
  }

  /** Without a ceiling only an unreadable budget stops a walk. */
  lemma OnlyBudgetsStop(ports: Ports, store: Option<StoreView>, query: Query, at: Instants)
    requires ports.ceiling.None?
    requires forall g :: g in query.authority.grants && IsCandidate(ports, query, at, g) ==>
      BudgetLeft(store, query.authority.context, g) != BudgetUnavailable
    ensures NeverStops(Verdicts(ports, store, query, at))
    ensures SomeAllows(Verdicts(ports, store, query, at)) <==>
      exists g :: g in query.authority.grants && IsCandidate(ports, query, at, g)
                  && BudgetLeft(store, query.authority.context, g) == Available
  {
    hide Judge, IsCandidate, BudgetLeft;
    var vs := Verdicts(ports, store, query, at);
    forall i | 0 <= i < |vs|
      ensures vs[i].Settled? ==> vs[i].decision.Allow?
      ensures vs[i].Settled? <==>
        && IsCandidate(ports, query, at, query.authority.grants[i])
        && BudgetLeft(store, query.authority.context, query.authority.grants[i]) == Available
    {
      JudgeMeans(ports, store, query, at, query.authority.grants[i]);
      assert query.authority.grants[i] in query.authority.grants;
    }
    if exists g :: g in query.authority.grants && IsCandidate(ports, query, at, g)
                   && BudgetLeft(store, query.authority.context, g) == Available
    {
      var g :| g in query.authority.grants && IsCandidate(ports, query, at, g)
               && BudgetLeft(store, query.authority.context, g) == Available;
      var i :| 0 <= i < |vs| && query.authority.grants[i] == g;
      assert vs[i].Settled?;
    }
  }

  /** ... so neither the outcome nor its reason code depends on the order grants arrive in. */
  lemma OrderDoesNotDecide(ports: Ports, store: Option<StoreView>, query: Query, shuffled: Query)
    requires multiset(query.authority.grants) == multiset(shuffled.authority.grants)
    requires shuffled == query.(authority := query.authority.(grants := shuffled.authority.grants))
    requires InstantsOf(query).Some? ==> NeverStops(Verdicts(ports, store, query, InstantsOf(query).value))
    ensures Decide(ports, store, query).Allow? <==> Decide(ports, store, shuffled).Allow?
    ensures ReasonOf(Decide(ports, store, query)) == ReasonOf(Decide(ports, store, shuffled))
  {
    hide Judge, Matches;
    if InstantsOf(query).Some? && IsWellFormed(query) {
      var at := InstantsOf(query).value;
      var vs, ws := Verdicts(ports, store, query, at), Verdicts(ports, store, shuffled, at);
      forall v ensures v in vs <==> v in ws {
        if v in vs { Transport(ports, store, query, shuffled, at, v); }
        if v in ws { Transport(ports, store, shuffled, query, at, v); }
      }
      SameVerdictsSameReason(query.authority.grants, vs, shuffled.authority.grants, ws);
    }
  }

  lemma JudgedAlone(ports: Ports, store: Option<StoreView>, query: Query, other: Query, at: Instants, grant: Grant)
    requires other == query.(authority := query.authority.(grants := other.authority.grants))
    ensures Judge(ports, store, query, at, grant) == Judge(ports, store, other, at, grant)
  {
  }

  lemma Transport(ports: Ports, store: Option<StoreView>, query: Query, shuffled: Query, at: Instants, v: Verdict)
    requires multiset(query.authority.grants) == multiset(shuffled.authority.grants)
    requires shuffled == query.(authority := query.authority.(grants := shuffled.authority.grants))
    requires v in Verdicts(ports, store, query, at)
    ensures v in Verdicts(ports, store, shuffled, at)
  {
    hide Judge;
    var vs, ws := Verdicts(ports, store, query, at), Verdicts(ports, store, shuffled, at);
    var i :| 0 <= i < |vs| && vs[i] == v;
    var grant := query.authority.grants[i];
    SameMembers(query.authority.grants, shuffled.authority.grants, grant);
    var j :| 0 <= j < |ws| && shuffled.authority.grants[j] == grant;
    JudgedAlone(ports, store, query, shuffled, at, grant);
    assert ws[j] == v;
  }

  lemma SameVerdictsSameReason(grants: seq<Grant>, vs: seq<Verdict>, shuffled: seq<Grant>, ws: seq<Verdict>)
    requires |grants| == |vs| && |shuffled| == |ws|
    requires forall v :: v in vs <==> v in ws
    requires NeverStops(vs)
    ensures ReasonOf(Conclude(grants, vs)) == ReasonOf(Conclude(shuffled, ws))
  {
    hide Settler, FirstUnverified, FirstBroken, FirstOverruled;
    SameKinds(vs, ws);
    SameKinds(ws, vs);
    assert Settler(ws) < |ws| ==> ws[Settler(ws)] in vs;
  }

  lemma SameKinds(vs: seq<Verdict>, ws: seq<Verdict>)
    requires forall v :: v in vs ==> v in ws
    ensures Settler(vs) < |vs| ==> Settler(ws) < |ws|
    ensures FirstUnverified(vs) < |vs| ==> FirstUnverified(ws) < |ws|
    ensures FirstBroken(vs) < |vs| ==> FirstBroken(ws) < |ws|
    ensures FirstOverruled(vs) < |vs| ==> FirstOverruled(ws) < |ws|
    ensures SpentOut in vs ==> SpentOut in ws
  {
    hide Settler, FirstUnverified, FirstBroken, FirstOverruled;
    assert Settler(vs) < |vs| ==> vs[Settler(vs)] in ws;
    assert FirstUnverified(vs) < |vs| ==> vs[FirstUnverified(vs)] in ws;
    assert FirstBroken(vs) < |vs| ==> vs[FirstBroken(vs)] in ws;
    assert FirstOverruled(vs) < |vs| ==> vs[FirstOverruled(vs)] in ws;
  }

  // ----- Accounting

  /** How many of the first `n` verdicts are rejections. */
  function RejectedBefore(vs: seq<Verdict>, n: nat): (count: nat)
    requires n <= |vs|
    ensures count <= n
  {
    if n == 0 then 0 else RejectedBefore(vs, n - 1) + if RejectionOf(vs[n - 1]).Some? then 1 else 0
  }

  /** Each grant of a walk that ran to its end is either the one next rejection or a policy refusal. */
  lemma {:induction false} EveryGrantIsAccountedForOnce(grants: seq<Grant>, vs: seq<Verdict>, i: nat)
    requires |grants| == |vs| && NeverSettles(vs) && i < |vs|
    ensures |Rejections(grants, vs)| == RejectedBefore(vs, |vs|)
    ensures RejectionOf(vs[i]).Some? <==> !vs[i].Overruled?
    ensures match vs[i]
            case TurnedAway(reason) => RejectionOf(vs[i]) == Some(reason)
            case Broken(_) => RejectionOf(vs[i]) == Some(ChainNotValid)
            case SpentOut => RejectionOf(vs[i]) == Some(Exhausted)
            case _ => RejectionOf(vs[i]).None?
    ensures RejectionOf(vs[i]).Some? ==>
      && RejectedBefore(vs, i) < |Rejections(grants, vs)|
      && Rejections(grants, vs)[RejectedBefore(vs, i)] == Rejected(grants[i].id, RejectionOf(vs[i]).value)
  {
    var n := |vs| - 1;
    RejectedBeforeOfPrefix(vs, n, n);
    if i < n {
      EveryGrantIsAccountedForOnce(grants[..n], vs[..n], i);
      RejectedBeforeOfPrefix(vs, n, i);
    } else if n > 0 {
      EveryGrantIsAccountedForOnce(grants[..n], vs[..n], n - 1);
    }
  }

  lemma {:induction false} RejectedBeforeOfPrefix(vs: seq<Verdict>, n: nat, i: nat)
    requires i <= n <= |vs|
    ensures RejectedBefore(vs[..n], i) == RejectedBefore(vs, i)
  {
    if i > 0 { RejectedBeforeOfPrefix(vs, n, i - 1); }
  }
}
