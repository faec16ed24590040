/** Capabilities as sets of requests, and the three syntactic checks on them. */
module Capabilities {
  import opened Foundations
  import opened Contracts
  import opened Activity
  import opened ConstraintOrder

  /**
   * An owner named, or the one the context implies. Addresses are compared as values:
   * `CanonicalJson.AddressesEqualIsStructural` is why that is what the code's comparison does.
   */
  function OwnerIn(resource: Resource, owner: Address): Address {
    match resource.owner
    case Some(named) => named
    case None => owner
  }

  predicate GrantsAction(actions: seq<Text>, action: Text) {
    action in actions || WILDCARD in actions
  }

  /** Does this capability answer this request, read in a world owned by `owner`? */
  predicate CapabilityMatches(capability: Capability, request: Requirement, owner: Address) {
    && capability.resource.namespace == request.resource.namespace
    && GrantsAction(capability.actions, request.action)
    && OwnerIn(capability.resource, owner) == OwnerIn(request.resource, owner)
    && (if capability.scope == Exact then PathsEqual(capability.resource.path, request.resource.path)
        else PathIsWithin(capability.resource.path, request.resource.path))
  }

  /** Could this capability answer some request under this ceiling? */
  predicate CapabilityIntersectsCeiling(capability: Capability, ceiling: Requirement, owner: Address) {
    && capability.resource.namespace == ceiling.resource.namespace
    && GrantsAction(capability.actions, ceiling.action)
    && OwnerIn(capability.resource, owner) == OwnerIn(ceiling.resource, owner)
    && (if capability.scope == Exact then PathIsWithin(ceiling.resource.path, capability.resource.path)
        else PathIsWithin(capability.resource.path, ceiling.resource.path)
             || PathIsWithin(ceiling.resource.path, capability.resource.path))
  }

  predicate ActionsAreWithin(actions: seq<Text>, ancestor: seq<Text>) {
    WILDCARD in ancestor || forall action :: action in actions ==> action in ancestor
  }

  predicate PlaceIsWithin(capability: Capability, ancestor: Capability) {
    if ancestor.scope == Exact
    then capability.scope == Exact && PathsEqual(ancestor.resource.path, capability.resource.path)
    else PathIsWithin(ancestor.resource.path, capability.resource.path)
  }

  /** The deciding side: containment in one context. */
  predicate CapabilityIsWithin(capability: Capability, ancestor: Capability, owner: Address) {
    && capability.resource.namespace == ancestor.resource.namespace
    && OwnerIn(capability.resource, owner) == OwnerIn(ancestor.resource, owner)
    && ActionsAreWithin(capability.actions, ancestor.actions)
    && PlaceIsWithin(capability, ancestor)
  }

  /** The issuing side: no context in hand, so containment has to hold in all of them. */
  predicate CapabilityIsWithinInAnyContext(parent: Capability, child: Capability) {
    && parent.resource.namespace == child.resource.namespace
    && (match (parent.resource.owner, child.resource.owner)
        case (None, None) => true
        case (Some(p), Some(c)) => p == c
        case _ => false)
    && ActionsAreWithin(child.actions, parent.actions)
    && (WILDCARD in child.actions ==> WILDCARD in parent.actions)
    && PlaceIsWithin(child, parent)
  }

  predicate IsCovered(capability: Capability, ancestors: seq<Capability>, owner: Address) {
    exists ancestor :: ancestor in ancestors && CapabilityIsWithin(capability, ancestor, owner)
  }

  predicate IsCoveredInAnyContext(capability: Capability, ancestors: seq<Capability>) {
    exists ancestor :: ancestor in ancestors && CapabilityIsWithinInAnyContext(ancestor, capability)
  }

  // ----- What the checks mean, on the paths themselves

  /** An exact capability is for its own path, any other for exactly the paths that continue its own. */
  lemma CapabilityAnswersItsPaths(c: Capability, request: Requirement, owner: Address)
    ensures CapabilityMatches(c, request, owner) <==>
      && c.resource.namespace == request.resource.namespace
      && (request.action in c.actions || Ascii("*") in c.actions)
      && (match (c.resource.owner, request.resource.owner)
          case (Some(a), Some(b)) => a == b
          case (Some(a), None) => a == owner
          case (None, Some(b)) => b == owner
          case (None, None) => true)
      && exists rest :: request.resource.path == c.resource.path + rest && (c.scope == Exact ==> rest == [])
  {
    var p, q := c.resource.path, request.resource.path;
    assert WILDCARD == Ascii("*");
    WithinMeansPrefix(p, q);
    if p <= q { assert q == p + q[|p|..]; }
    assert p + [] == p;
  }

  // ----- The checks against the requests capabilities answer

  ghost predicate AnswersOnlyWhat(capability: Capability, ancestor: Capability, owner: Address) {
    forall request :: CapabilityMatches(capability, request, owner) ==> CapabilityMatches(ancestor, request, owner)
  }

  /** Containment is decided exactly, for any capability that names an action. */
  lemma WithinDecidesContainment(capability: Capability, ancestor: Capability, owner: Address)
    requires capability.actions != []
    ensures CapabilityIsWithin(capability, ancestor, owner) <==> AnswersOnlyWhat(capability, ancestor, owner)
  {
    if AnswersOnlyWhat(capability, ancestor, owner) {
      var place := Resource(capability.resource.namespace, capability.resource.path,
                            Some(OwnerIn(capability.resource, owner)));
      forall action | action in capability.actions
        ensures CapabilityMatches(ancestor, Requirement(place, action), owner)
      {
        assert CapabilityMatches(capability, Requirement(place, action), owner);
      }
      assert capability.actions[0] in capability.actions;
      // A descendants capability also answers one segment further down; an exact ancestor does not.
      var below := place.(path := capability.resource.path + [[]]);
      var deeper := Requirement(below, capability.actions[0]);
      assert CapabilityMatches(capability, deeper, owner) ==> CapabilityMatches(ancestor, deeper, owner);
    }
  }

  lemma WithinIsTransitive(a: Capability, b: Capability, c: Capability, owner: Address)
    requires CapabilityIsWithin(a, b, owner) && CapabilityIsWithin(b, c, owner)
    ensures CapabilityIsWithin(a, c, owner)
  {
  }

  /** An owner none of the listed capabilities names. */
  function Stranger(capabilities: seq<Capability>): (stranger: Address)
    ensures forall c :: c in capabilities ==> c.resource.owner != Some(stranger)
  {
    var ids := seq(|capabilities|, i requires 0 <= i < |capabilities| =>
      match capabilities[i].resource.owner case Some(Human(id)) => id case _ => []);
    var id := AbsentText(ids);
    assert forall i :: 0 <= i < |capabilities| ==> ids[i] in ids && capabilities[i].resource.owner != Some(Human(id));
    Human(id)
  }

  /** The issuing check is the deciding check quantified over every context. */
  lemma AnyContextMeansEveryOwner(parent: Capability, child: Capability)
    ensures CapabilityIsWithinInAnyContext(parent, child)
      <==> forall owner :: CapabilityIsWithin(child, parent, owner)
  {
    var stranger := Stranger([parent, child]);
    assert parent in [parent, child] && child in [parent, child];
    if forall owner :: CapabilityIsWithin(child, parent, owner) {
      assert CapabilityIsWithin(child, parent, stranger);
    }
  }

  /** Coverage by a list cannot be split across contexts: one member covers in all of them. */
  lemma CoveredEverywhereMeansByOne(child: Capability, parents: seq<Capability>)
    ensures IsCoveredInAnyContext(child, parents) <==> forall owner :: IsCovered(child, parents, owner)
  {
    if IsCoveredInAnyContext(child, parents) {
      var p :| p in parents && CapabilityIsWithinInAnyContext(p, child);
      AnyContextMeansEveryOwner(p, child);
      forall owner ensures IsCovered(child, parents, owner) {
        assert CapabilityIsWithin(child, p, owner);
      }
    }
    if forall owner :: IsCovered(child, parents, owner) {
      var everyone := parents + [child];
      var stranger := Stranger(everyone);
      assert IsCovered(child, parents, stranger);
      var p :| p in parents && CapabilityIsWithin(child, p, stranger);
      assert p in everyone && child in everyone;
      assert CapabilityIsWithinInAnyContext(p, child);
    }
  }

  ghost predicate SomeRequestBelow(capability: Capability, ceiling: Requirement, owner: Address) {
    exists path :: PathIsWithin(ceiling.resource.path, path)
      && CapabilityMatches(capability, ceiling.(resource := ceiling.resource.(path := path)), owner)
  }

  /** Discovery is the existential of matching: it holds just if a call at or below the ceiling would match. */
  lemma IntersectionIsSomeRequestBelow(capability: Capability, ceiling: Requirement, owner: Address)
    ensures CapabilityIntersectsCeiling(capability, ceiling, owner) <==> SomeRequestBelow(capability, ceiling, owner)
  {
    if CapabilityIntersectsCeiling(capability, ceiling, owner) {
      var path := if |ceiling.resource.path| <= |capability.resource.path| then capability.resource.path
                  else ceiling.resource.path;
      assert CapabilityMatches(capability, ceiling.(resource := ceiling.resource.(path := path)), owner);
    }
  }
}
