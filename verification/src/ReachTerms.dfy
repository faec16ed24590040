/** What a reach lists, in the fields of the grants it is computed from. */
module ReachTerms {
  import opened Foundations
  import opened Contracts
  import opened Delegation
  import opened Authorization
  import opened DecisionTerms
  import CanonicalJson
  import opened Reach

  /** An entry lists a capability as it is, its actions put in code-unit order. */
  ghost predicate Lists(e: ResourceReach, c: Capability) {
    && e.namespace == c.resource.namespace && e.path == c.resource.path && e.scope == c.scope
    && multiset(e.actions) == multiset(c.actions) && Sorted(TextBefore, e.actions)
  }

  lemma EntryListsItsCapability(e: ResourceReach, c: Capability)
    ensures Lists(e, c) <==> e == EntryOf(c)
  {
    hide Sort;
    TextBeforeIsTotalOrder();
    SortSorts(TextBefore, c.actions);
    if Lists(e, c) {
      SortedArrangementsAgree(TextBefore, e.actions, Sort(TextBefore, c.actions));
    }
  }

  /** In force for whoever the context names, whatever is asked of it. */
  ghost predicate IsHeld(ports: Ports, grant: Grant, authority: ResolvedAuthority, now: Option<Timestamp>)
    requires IsWhole(authority.context, now)
  {
    var context := authority.context;
    && IsGivenTo(grant, context) && IsOpen(grant, context, now) && IsFor(grant, context.purpose)
    && IsVerified(ports, grant, context) && Validate(grant, ChainSetting(ports, context, now)).Valid?
  }

  /** A reach lists exactly the capabilities, of this owner's world, of the grants held with a use left. */
  lemma ReachListsWhatIsHeld(ports: Ports, store: Option<StoreView>, authority: ResolvedAuthority, now: Option<Timestamp>,
                             before: CanonicalJson.Collation, result: ReachResult)
    requires IsReach(ports, store, authority, now, before, result)
    ensures !IsWhole(authority.context, now) ==> result == Computed([])
    ensures IsWhole(authority.context, now) ==>
      (result == ReachUnavailable <==> exists g ::
        && g in authority.grants && IsHeld(ports, g, authority, now)
        && g.constraints.maxUses.Some? && !CanBeCounted(store, authority.context.namespaceId, g.id))
    ensures IsWhole(authority.context, now) && result.Computed? ==>
      forall e :: e in result.reach <==> IsListed(ports, store, authority, now, e)
  {
    hide IsOrdered, EntryOf, Lists, IsLive, IsListed, Offers, BudgetLeft, IsHeld, HasUseLeft, CanBeCounted, InstantsOf, IsWhole;
    InstantsMean(Query(authority, Requirement(Resource([], [], None), []), Invoke, now));
    if IsWhole(authority.context, now) {
      forall g
        ensures Contributes(ports, store, authority.context, ReachInstants(authority, now).value, g)
          <==> IsHeld(ports, g, authority, now) && HasUseLeft(store, g, authority.context.namespaceId)
        ensures IsUnreadable(ports, store, authority.context, ReachInstants(authority, now).value, g)
          <==> IsHeld(ports, g, authority, now)
               && g.constraints.maxUses.Some? && !CanBeCounted(store, authority.context.namespaceId, g.id)
      {
        BudgetMeans(store, authority.context, g);
        LiveMeansHeld(ports, authority, now, g);
      }
      forall e, c ensures Lists(e, c) <==> e == EntryOf(c) { EntryListsItsCapability(e, c); }
      forall e
        ensures Offers(ports, store, authority.context, ReachInstants(authority, now).value, authority.grants, e)
          <==> IsListed(ports, store, authority, now, e)
      {
        OfferedMeansListed(ports, store, authority, now, e);
      }
    }
  }

  ghost predicate IsListed(ports: Ports, store: Option<StoreView>, authority: ResolvedAuthority, now: Option<Timestamp>, e: ResourceReach)
    requires IsWhole(authority.context, now)
  {
    exists g, c ::
      && g in authority.grants && IsHeld(ports, g, authority, now) && HasUseLeft(store, g, authority.context.namespaceId)
      && c in g.capabilities && IsOfWorld(c, authority.context.owner) && Lists(e, c)
  }

  lemma OfferedMeansListed(
    ports: Ports, store: Option<StoreView>, authority: ResolvedAuthority, now: Option<Timestamp>, e: ResourceReach)
    requires IsWhole(authority.context, now) && ReachInstants(authority, now).Some?
    requires forall g :: (
      Contributes(ports, store, authority.context, ReachInstants(authority, now).value, g)
      <==> IsHeld(ports, g, authority, now) && HasUseLeft(store, g, authority.context.namespaceId))
    requires forall c :: Lists(e, c) <==> e == EntryOf(c)
    ensures Offers(ports, store, authority.context, ReachInstants(authority, now).value, authority.grants, e)
      <==> IsListed(ports, store, authority, now, e)
  {
    hide EntryOf, Lists, Contributes, IsHeld, HasUseLeft, InstantsOf, IsWhole;
    assert forall c: Capability :: IsOfThisWorld(c, authority.context) <==> IsOfWorld(c, authority.context.owner);
  }

  lemma LiveMeansHeld(ports: Ports, authority: ResolvedAuthority, now: Option<Timestamp>, grant: Grant)
    requires IsWhole(authority.context, now)
    ensures ReachInstants(authority, now).Some?
    ensures IsLive(ports, authority.context, grant, ReachInstants(authority, now).value) <==> IsHeld(ports, grant, authority, now)
  {
    hide Validate, GrantRejection, IsOpen, IsFor, IsGivenTo, IsVerified;
    EligibleMeans(ports, Query(authority, Requirement(Resource([], [], None), []), Invoke, now), grant);
  }
}
