/** Issuing a narrower grant (`deriveGrant`), and its agreement with the chain check. */
module Derivation {
  import opened Foundations
  import opened Contracts
  import opened Activity
  import opened ConstraintOrder
  import opened Capabilities
  import opened Delegation
  import opened Attenuation

  datatype Refusal =
    | EmptyCapabilities | IdCollidesWithParent | BoundedParent | ParentNotDelegable | DepthExhausted
    | CapabilityNotWithinParent | PurposeNotWithinParent | WindowNotWithinParent | IssuedBeforeParent

  datatype Derived = Issued(grant: Grant) | Refused(reason: Refusal)

  /** A request that states no constraints states none of the five. */
  datatype DeriveRequest = DeriveRequest(
    id: Text,
    subject: Address,
    capabilities: seq<Capability>,
    constraints: Constraints,
    issuedAt: Timestamp)

  function OrElse<T>(stated: Option<T>, inherited: Option<T>): Option<T> {
    if stated.Some? then stated else inherited
  }

  function InheritedEnvelope(parent: Constraints, request: Constraints): Constraints {
    Constraints(
      OrElse(request.purposes, parent.purposes),
      OrElse(request.notBefore, parent.notBefore),
      OrElse(request.expiresAt, parent.expiresAt),
      None, None)
  }

  function DeriveGrant(parent: Grant, request: DeriveRequest): Derived {
    var parentDepth := parent.constraints.delegationDepth;
    var requestedDepth := request.constraints.delegationDepth;
    if request.capabilities == [] then Refused(EmptyCapabilities)
    else if request.id == parent.id then Refused(IdCollidesWithParent)
    else if parent.constraints.maxUses.Some? then Refused(BoundedParent)
    else if parentDepth.None? || parentDepth.value <= 0 then Refused(ParentNotDelegable)
    else if requestedDepth.Some? && requestedDepth.value > parentDepth.value - 1 then Refused(DepthExhausted)
    else if exists c :: c in request.capabilities && !IsCoveredInAnyContext(c, parent.capabilities)
      then Refused(CapabilityNotWithinParent)
    else
      var envelope := InheritedEnvelope(parent.constraints, request.constraints);
      var violation := ConstraintEnvelopeViolation(envelope, parent.constraints);
      if violation == Some(Purposes) then Refused(PurposeNotWithinParent)
      else if violation.Some? then Refused(WindowNotWithinParent)
      else if || request.issuedAt.Unreadable? || parent.issuedAt.Unreadable?
              || request.issuedAt.at < parent.issuedAt.at
        then Refused(IssuedBeforeParent)
      else
        var constraints := envelope.(
          maxUses := request.constraints.maxUses,
          delegationDepth := OrElse(requestedDepth, Some(parentDepth.value - 1)));
        Issued(Grant(request.id, parent.namespaceId, request.subject, parent.subject,
                     request.capabilities, constraints, request.issuedAt, None, Some(parent.id)))
  }

  /** The grant a request describes, whether or not it may be issued. */
  function Proposed(parent: Grant, request: DeriveRequest): Grant {
    var constraints := InheritedEnvelope(parent.constraints, request.constraints).(
      maxUses := request.constraints.maxUses,
      delegationDepth := OrElse(request.constraints.delegationDepth, Some(DepthOf(parent) - 1)));
    Grant(request.id, parent.namespaceId, request.subject, parent.subject,
          request.capabilities, constraints, request.issuedAt, None, Some(parent.id))
  }

  /** What is issued is a link in every context, at every instant the parent itself is active. */
  lemma IssuedIsALinkEverywhere(parent: Grant, request: DeriveRequest, context: Context, at: Instants)
    requires DeriveGrant(parent, request).Issued?
    ensures DeriveGrant(parent, request).grant == Proposed(parent, request)
    ensures IsNarrowing(DeriveGrant(parent, request).grant, parent, context.owner)
    ensures LinkViolation(DeriveGrant(parent, request).grant, parent, context, at)
      == (if GrantIsActive(parent, context.purpose, at) then None else Some(ParentInactive))
  {
    var child := DeriveGrant(parent, request).grant;
    forall c | c in child.capabilities ensures IsCovered(c, parent.capabilities, context.owner) {
      CoveredEverywhereMeansByOne(c, parent.capabilities);
    }
    assert ConstraintsAreAttenuated(child, parent);
    LinkMeansNarrowing(child, parent, context, at);
  }

  /**
   * The two definitions of "narrower" agree. A grant is issued exactly when the chain check
   * would accept it in every world, apart from the two refusals that are about the request
   * itself: nothing asked for, and an id that is the parent's own.
   */
  lemma IssuingAgreesWithTheChainCheck(parent: Grant, request: DeriveRequest, context: Context, at: Instants)
    requires GrantIsActive(parent, context.purpose, at)
    ensures DeriveGrant(parent, request).Issued?
      <==> && request.capabilities != [] && request.id != parent.id
           && forall owner :: LinkViolation(Proposed(parent, request), parent, context.(owner := owner), at).None?
  {
    var child := Proposed(parent, request);
    if DeriveGrant(parent, request).Issued? {
      forall owner ensures LinkViolation(child, parent, context.(owner := owner), at).None? {
        IssuedIsALinkEverywhere(parent, request, context.(owner := owner), at);
      }
    }
    if forall owner :: LinkViolation(child, parent, context.(owner := owner), at).None? {
      forall owner ensures IsNarrowing(child, parent, owner) {
        LinkMeansNarrowing(child, parent, context.(owner := owner), at);
      }
      forall c | c in request.capabilities ensures IsCoveredInAnyContext(c, parent.capabilities) {
        forall owner ensures IsCovered(c, parent.capabilities, owner) {
          assert IsNarrowing(child, parent, owner);
        }
        CoveredEverywhereMeansByOne(c, parent.capabilities);
      }
      assert IsNarrowing(child, parent, context.owner);
    }
  }

  /** What is issued says what was asked for, and where nothing was asked what the parent says. */
  lemma IssuedCarriesWhatWasAsked(parent: Grant, request: DeriveRequest)
    requires DeriveGrant(parent, request).Issued?
    ensures
      var (grant, asked, held) := (DeriveGrant(parent, request).grant, request.constraints, parent.constraints);
      && grant.id == request.id && grant.subject == request.subject && grant.capabilities == request.capabilities
      && grant.issuedAt == request.issuedAt && grant.revokedAt.None?
      && grant.namespaceId == parent.namespaceId && grant.issuer == parent.subject && grant.parentGrantId == Some(parent.id)
      && grant.constraints.maxUses == asked.maxUses
      && held.delegationDepth.Some?
      && (asked.delegationDepth.Some? ==> grant.constraints.delegationDepth == asked.delegationDepth)
      && (asked.delegationDepth.None? ==> grant.constraints.delegationDepth == Some(held.delegationDepth.value - 1))
      && (asked.purposes.Some? ==> grant.constraints.purposes == asked.purposes)
      && (asked.purposes.None? ==> grant.constraints.purposes == held.purposes)
      && (asked.notBefore.Some? ==> grant.constraints.notBefore == asked.notBefore)
      && (asked.notBefore.None? ==> grant.constraints.notBefore == held.notBefore)
      && (asked.expiresAt.Some? ==> grant.constraints.expiresAt == asked.expiresAt)
      && (asked.expiresAt.None? ==> grant.constraints.expiresAt == held.expiresAt)
  {
  }

  /** ... so it admits exactly the uses that both the request and the parent admit. */
  lemma IssuedAdmitsWhatBothAdmit(parent: Grant, request: DeriveRequest, purpose: Text, at: Instants)
    requires DeriveGrant(parent, request).Issued?
    ensures Admits(DeriveGrant(parent, request).grant.constraints, purpose, at)
      <==> Admits(request.constraints, purpose, at) && Admits(parent.constraints, purpose, at)
  {
    hide DeriveGrant;
    IssuedCarriesWhatWasAsked(parent, request);
    IssuedFits(parent, request);
  }

  lemma IssuedFits(parent: Grant, request: DeriveRequest)
    requires DeriveGrant(parent, request).Issued?
    ensures
      var constraints := DeriveGrant(parent, request).grant.constraints;
      && PurposesFit(constraints, parent.constraints) && StartFits(constraints, parent.constraints)
      && EndFits(constraints, parent.constraints)
  {
  }

  /** The bounds a request comes to: its own where it states them, the parent's where it does not. */
  ghost function Stated(asked: Constraints, held: Constraints): Constraints {
    Constraints(
      if asked.purposes.Some? then asked.purposes else held.purposes,
      if asked.notBefore.Some? then asked.notBefore else held.notBefore,
      if asked.expiresAt.Some? then asked.expiresAt else held.expiresAt, None, None)
  }

  ghost predicate MayDelegate(held: Constraints) { held.delegationDepth.Some? && held.delegationDepth.value >= 1 }

  ghost predicate DepthFits(asked: Constraints, held: Constraints) {
    asked.delegationDepth.Some? && held.delegationDepth.Some? ==> asked.delegationDepth.value < held.delegationDepth.value
  }

  ghost predicate IssueFits(request: DeriveRequest, parent: Grant) {
    request.issuedAt.Readable? && parent.issuedAt.Readable? && parent.issuedAt.at <= request.issuedAt.at
  }

  ghost predicate AllFit(request: DeriveRequest, parent: Grant) {
    forall c :: c in request.capabilities ==>
      exists a :: a in parent.capabilities && CapabilityIsWithinInAnyContext(a, c)
  }

  /** Why a request is refused: the first of nine terms it breaks, in this order. */
  lemma RefusalNamesTheFirstBrokenTerm(parent: Grant, request: DeriveRequest)
    ensures
      var (derived, asked, held) := (DeriveGrant(parent, request), request.constraints, parent.constraints);
      var child := Stated(asked, held);
      var asks := request.capabilities != [];
      var named := asks && request.id != parent.id;
      var unbounded := named && held.maxUses.None?;
      var delegable := unbounded && MayDelegate(held);
      var deep := delegable && DepthFits(asked, held);
      var covered := deep && AllFit(request, parent);
      var purposed := covered && PurposesFit(child, held);
      var windowed := purposed && StartFits(child, held) && EndFits(child, held);
      && (derived == Refused(EmptyCapabilities) <==> !asks)
      && (derived == Refused(IdCollidesWithParent) <==> asks && !named)
      && (derived == Refused(BoundedParent) <==> named && !unbounded)
      && (derived == Refused(ParentNotDelegable) <==> unbounded && !delegable)
      && (derived == Refused(DepthExhausted) <==> delegable && !deep)
      && (derived == Refused(CapabilityNotWithinParent) <==> deep && !covered)
      && (derived == Refused(PurposeNotWithinParent) <==> covered && !purposed)
      && (derived == Refused(WindowNotWithinParent) <==> purposed && !windowed)
      && (derived == Refused(IssuedBeforeParent) <==> windowed && !IssueFits(request, parent))
      && (derived.Issued? <==> windowed && IssueFits(request, parent))
  {
    hide CapabilityIsWithinInAnyContext, ConstraintEnvelopeViolation, PurposesFit, StartFits, EndFits;
    ViolationNamesTheFirstField(InheritedEnvelope(parent.constraints, request.constraints), parent.constraints);
    assert AllFit(request, parent) <==> forall c :: c in request.capabilities ==> IsCoveredInAnyContext(c, parent.capabilities);
  }
}
