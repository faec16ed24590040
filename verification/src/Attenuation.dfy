/** What a valid chain guarantees about every grant on it. */
module Attenuation {
  import opened Foundations
  import opened Contracts
  import opened Activity
  import opened Capabilities
  import opened Delegation

  /** In force, revocation aside: issued, inside its window, for one of its purposes. */
  predicate InForce(grant: Grant, purpose: Text, at: Instants) {
    && grant.issuedAt.Readable? && grant.issuedAt.at <= at.admittedAt
    && Admits(grant.constraints, purpose, at)
  }

  predicate Answers(grant: Grant, request: Requirement, owner: Address) {
    exists c :: c in grant.capabilities && CapabilityMatches(c, request, owner)
  }

  /** Everything a link promises except that the parent is active at one particular instant. */
  predicate IsNarrowing(child: Grant, parent: Grant, owner: Address) {
    && parent.namespaceId == child.namespaceId
    && parent.subject == child.issuer
    && parent.constraints.delegationDepth.Some?
    && 1 <= DepthOf(parent) && DepthOf(child) < DepthOf(parent)
    && parent.constraints.maxUses.None?
    && (forall c :: c in child.capabilities ==> IsCovered(c, parent.capabilities, owner))
    && ConstraintsAreAttenuated(child, parent)
  }

  lemma LinkMeansNarrowing(child: Grant, parent: Grant, context: Context, at: Instants)
    ensures LinkViolation(child, parent, context, at).None?
      <==> IsNarrowing(child, parent, context.owner) && GrantIsActive(parent, context.purpose, at)
  {
  }

  /** The code a broken link is refused under: the first of eight terms it breaks, in this order. */
  lemma LinkViolationNamesTheFirstBrokenTerm(child: Grant, parent: Grant, context: Context, at: Instants)
    ensures
      var (v, depth) := (LinkViolation(child, parent, context, at), parent.constraints.delegationDepth);
      var wanted := if child.constraints.delegationDepth.Some? then child.constraints.delegationDepth.value else 0;
      var named := parent.namespaceId == child.namespaceId;
      var issued := named && parent.subject == child.issuer;
      var active := issued && GrantIsActive(parent, context.purpose, at);
      var delegable := active && depth.Some? && depth.value >= 1;
      var deep := delegable && wanted < depth.value;
      var unbounded := deep && parent.constraints.maxUses.None?;
      var covered := unbounded && forall c :: c in child.capabilities ==>
        exists a :: a in parent.capabilities && CapabilityIsWithin(c, a, context.owner);
      && (v == Some(NamespaceMismatch) <==> !named)
      && (v == Some(IssuerNotParentSubject) <==> named && !issued)
      && (v == Some(ParentInactive) <==> issued && !active)
      && (v == Some(DelegationNotPermitted) <==> active && !delegable)
      && (v == Some(DelegationDepthExceeded) <==> delegable && !deep)
      && (v == Some(BoundedParentNotDelegable) <==> deep && !unbounded)
      && (v == Some(CapabilityWidened) <==> unbounded && !covered)
      && (v == Some(ConstraintsWidened) <==> covered && !ConstraintsAreAttenuated(child, parent))
  {
  }

  /** The window and the purposes of a link, field by field; a child without a start of its own starts at its issue. */
  lemma AttenuatedMeansEachFieldFits(child: Grant, parent: Grant)
    ensures ConstraintsAreAttenuated(child, parent) <==>
      && child.issuedAt.Readable? && parent.issuedAt.Readable? && parent.issuedAt.at <= child.issuedAt.at
      && ConstraintOrder.PurposesFit(child.constraints, parent.constraints)
      && ConstraintOrder.EndFits(child.constraints, parent.constraints)
      && !IsBroken(child.constraints.notBefore) && !IsBroken(parent.constraints.notBefore)
      && (parent.constraints.notBefore.Some? ==>
            parent.constraints.notBefore.value.at
            <= if child.constraints.notBefore.Some? then child.constraints.notBefore.value.at else child.issuedAt.at)
  {
  }

  /** Across a link, a child in force at any instants means a parent in force at them. */
  lemma NarrowingKeepsInForce(child: Grant, parent: Grant, owner: Address, purpose: Text, at: Instants)
    requires IsNarrowing(child, parent, owner)
    ensures InForce(child, purpose, at) ==> InForce(parent, purpose, at)
    ensures GrantIsActive(child, purpose, at) ==>
      (GrantIsActive(parent, purpose, at) <==> !RevokedBy(parent, at.admittedAt))
  {
    ActiveMeansAdmittedAndUnrevoked(child, purpose, at);
    ActiveMeansAdmittedAndUnrevoked(parent, purpose, at);
    var bounded := if child.constraints.notBefore.None? then child.constraints.(notBefore := Some(child.issuedAt))
                   else child.constraints;
    ConstraintOrder.WithinIsSound(bounded, parent.constraints);
    if InForce(child, purpose, at) {
      assert Admits(bounded, purpose, at);
      assert Admits(parent.constraints, purpose, at);
    }
  }

  // ----- Along a line

  lemma LineIsNarrowing(line: seq<Grant>, setting: Setting, i: nat)
    requires IsLine(line, setting) && i + 1 < |line|
    ensures IsNarrowing(line[i], line[i + 1], setting.context.owner)
    ensures GrantIsActive(line[i + 1], setting.context.purpose, setting.at)
  {
    assert IsLink(line[i], line[i + 1], setting);
    LinkMeansNarrowing(line[i], line[i + 1], setting.context, setting.at);
  }

  lemma {:induction false} InForceUpward(line: seq<Grant>, setting: Setting, k: nat, purpose: Text, at: Instants)
    requires IsLine(line, setting) && k < |line|
    requires InForce(line[0], purpose, at)
    ensures InForce(line[k], purpose, at)
  {
    if k > 0 {
      InForceUpward(line, setting, k - 1, purpose, at);
      LineIsNarrowing(line, setting, k - 1);
      NarrowingKeepsInForce(line[k - 1], line[k], setting.context.owner, purpose, at);
    }
  }

  predicate LiesWithin(c: Capability, ancestor: Capability, owner: Address) {
    c == ancestor || CapabilityIsWithin(c, ancestor, owner)
  }

  predicate LiesWithinOne(c: Capability, ancestors: seq<Capability>, owner: Address) {
    exists a :: a in ancestors && LiesWithin(c, a, owner)
  }

  /** Every leaf capability sits inside one capability of every ancestor, the root's included. */
  lemma {:induction false} CoveredUpward(line: seq<Grant>, setting: Setting, k: nat, c: Capability)
    requires IsLine(line, setting) && k < |line|
    requires c in line[0].capabilities
    ensures LiesWithinOne(c, line[k].capabilities, setting.context.owner)
  {
    hide LinkViolation;
    var owner := setting.context.owner;
    if k == 0 {
      assert LiesWithin(c, c, owner);
    } else {
      CoveredUpward(line, setting, k - 1, c);
      var b :| b in line[k - 1].capabilities && LiesWithin(c, b, owner);
      LineIsNarrowing(line, setting, k - 1);
      assert IsCovered(b, line[k].capabilities, owner);
      var a :| a in line[k].capabilities && CapabilityIsWithin(b, a, owner);
      assert LiesWithin(c, a, owner);
    }
  }

  /**
   * Attenuation. Whatever the leaf admits, at any instants and for any purpose, every
   * ancestor of a valid chain admits, unless that ancestor has itself been revoked by then;
   * and at the instants validated, no ancestor has.
   */
  lemma ValidChainAttenuates(grant: Grant, setting: Setting, k: nat, request: Requirement, purpose: Text, at: Instants)
    requires Validate(grant, setting).Valid?
    requires k < |Ancestry(grant, setting)|
    ensures
      var ancestor := Ancestry(grant, setting)[k];
      && (InForce(grant, purpose, at) ==> InForce(ancestor, purpose, at))
      && (GrantIsActive(grant, purpose, at) ==>
            GrantIsActive(ancestor, purpose, at) || (k > 0 && RevokedBy(ancestor, at.admittedAt)))
      && (Answers(grant, request, setting.context.owner) ==> Answers(ancestor, request, setting.context.owner))
      && (k > 0 ==> GrantIsActive(ancestor, setting.context.purpose, setting.at))
  {
    hide LinkViolation;
    var owner := setting.context.owner;
    var line := Ancestry(grant, setting);
    ValidMeansAcceptedLine(grant, Validate(grant, setting).chain, setting);
    if InForce(grant, purpose, at) { InForceUpward(line, setting, k, purpose, at); }
    ActiveMeansAdmittedAndUnrevoked(grant, purpose, at);
    ActiveMeansAdmittedAndUnrevoked(line[k], purpose, at);
    if k > 0 { LineIsNarrowing(line, setting, k - 1); }
    if Answers(grant, request, owner) {
      var c :| c in grant.capabilities && CapabilityMatches(c, request, owner);
      CoveredUpward(line, setting, k, c);
    }
  }

  /** No capability is assembled from several: one root capability holds each leaf capability. */
  lemma LeafCapabilitySitsInOneRootCapability(grant: Grant, setting: Setting, c: Capability)
    requires Validate(grant, setting).Valid? && c in grant.capabilities
    ensures
      var line := Ancestry(grant, setting);
      var root := line[|line| - 1];
      root.parentGrantId.None? && LiesWithinOne(c, root.capabilities, setting.context.owner)
  {
    hide LinkViolation;
    var line := Ancestry(grant, setting);
    ValidMeansAcceptedLine(grant, Validate(grant, setting).chain, setting);
    CoveredUpward(line, setting, |line| - 1, c);
  }

  // ----- Depth

  lemma {:induction false} DepthGrowsUpward(line: seq<Grant>, setting: Setting, i: nat, j: nat)
    requires IsLine(line, setting) && i < j < |line|
    ensures DepthOf(line[j]) >= DepthOf(line[i]) + (j - i)
    ensures DepthOf(line[j]) >= j
    decreases j
  {
    LineIsNarrowing(line, setting, j - 1);
    if i < j - 1 {
      DepthGrowsUpward(line, setting, i, j - 1);
    } else if j > 1 {
      DepthGrowsUpward(line, setting, i - 1, j - 1);
    }
  }

  /** A chain is no longer than the length cap or the root's delegation depth. */
  lemma ChainIsBoundedByDepth(grant: Grant, setting: Setting)
    requires Validate(grant, setting).Valid? && grant.parentGrantId.Some?
    ensures
      var line := Ancestry(grant, setting);
      var chain := Validate(grant, setting).chain;
      && |line| == |chain| + 1
      && |chain| <= setting.maxChainLength && |chain| <= DepthOf(line[|line| - 1])
      && forall i, j :: 0 <= i < j < |line| ==> DepthOf(line[i]) < DepthOf(line[j]) && line[i] != line[j]
  {
    hide LinkViolation;
    var line := Ancestry(grant, setting);
    ValidMeansAcceptedLine(grant, Validate(grant, setting).chain, setting);
    DepthGrowsUpward(line, setting, 0, |line| - 1);
    forall i, j | 0 <= i < j < |line| ensures DepthOf(line[i]) < DepthOf(line[j]) {
      DepthGrowsUpward(line, setting, i, j);
    }
  }

  /** The walk with the `seen` set taken out. */
  ghost predicate IsAcceptedUnguarded(line: seq<Grant>, setting: Setting) {
    IsLine(line, setting) && (|line| > 1 ==> |line| - 1 <= setting.maxChainLength)
  }

  /** A lookup that answers with the grant it was asked for. */
  ghost predicate IsFaithful(resolver: Resolver) {
    forall namespaceId, id :: resolver(namespaceId, id).Found? ==>
      resolver(namespaceId, id).grant.id == id && resolver(namespaceId, id).grant.namespaceId == namespaceId
  }

  /** The presented grant is the one on record, up to what is not its depth. */
  ghost predicate IsOnRecord(grant: Grant, resolver: Resolver) {
    resolver(grant.namespaceId, grant.id).Found? ==>
      DepthOf(resolver(grant.namespaceId, grant.id).grant) == DepthOf(grant)
  }

  /**
   * No ancestor is ever met twice, `seen` set or none; and under a faithful lookup the set
   * changes nothing at all, because depth already rules every cycle out.
   */
  lemma DepthAloneRulesOutCycles(line: seq<Grant>, setting: Setting, resolver: Resolver)
    requires setting.resolver == Some(resolver)
    requires IsAcceptedUnguarded(line, setting)
    ensures forall i, j :: 0 <= i < j < |line| ==> line[i] != line[j]
    ensures IsFaithful(resolver) && IsOnRecord(line[0], resolver) ==> IsAcceptedLine(line, setting)
  {
    hide LinkViolation;
    forall i, j | 0 <= i < j < |line|
      ensures line[i] != line[j]
      ensures IsFaithful(resolver) && IsOnRecord(line[0], resolver) ==> line[i].id != line[j].id
    {
      DepthGrowsUpward(line, setting, i, j);
      if IsFaithful(resolver) && IsOnRecord(line[0], resolver) {
        SameNamespace(line, setting, i);
        SameNamespace(line, setting, j);
        assert IsLink(line[j - 1], line[j], setting);
        if i > 0 { assert IsLink(line[i - 1], line[i], setting); }
      }
    }
  }

  /** Without a faithful lookup the set does work: an id can come back on a different grant. */
  lemma UnfaithfulLookupCanRepeatAnId() returns (line: seq<Grant>, setting: Setting)
    ensures IsAcceptedUnguarded(line, setting) && !IsAcceptedLine(line, setting)
  {
    var a, b := Human([1]), Human([2]);
    var all := [Capability(Resource([1], [], None), [WILDCARD], Descendants)];
    var free := Constraints(None, None, None, None, Some(1));
    var parent := Grant([7], [9], a, a, all, free, Readable([], 0), None, None);
    var child := Grant([7], [9], b, a, all, free.(delegationDepth := None), Readable([], 0), None, Some([8]));
    line := [child, parent];
    setting := Setting(Some((ns, id) => Found(parent)), 16, Context([9], None, b, a, a, [1], [1], [], Readable([], 0)), Instants(0, 0));
    assert CapabilityIsWithin(all[0], parent.capabilities[0], a);
    assert IsCovered(all[0], parent.capabilities, a);
    assert IsLink(child, parent, setting);
    assert line[0].id == line[1].id;
  }

  lemma {:induction false} SameNamespace(line: seq<Grant>, setting: Setting, k: nat)
    requires IsLine(line, setting) && k < |line|
    ensures line[k].namespaceId == line[0].namespaceId
  {
    if k > 0 {
      SameNamespace(line, setting, k - 1);
      LineIsNarrowing(line, setting, k - 1);
    }
  }

  // ----- Budgets and clocks

  /** No valid chain runs through a bounded ancestor. */
  lemma NoBoundedAncestor(grant: Grant, setting: Setting, k: nat)
    requires Validate(grant, setting).Valid?
    requires 0 < k < |Ancestry(grant, setting)|
    ensures Ancestry(grant, setting)[k].constraints.maxUses.None?
  {
    hide LinkViolation;
    ValidMeansAcceptedLine(grant, Validate(grant, setting).chain, setting);
    LineIsNarrowing(Ancestry(grant, setting), setting, k - 1);
  }

  /** A chain valid at a later clock reading is the same valid chain at every earlier one. */
  lemma ValidityIsAntitoneInNow(grant: Grant, setting: Setting, earlier: Setting)
    requires earlier == setting.(at := setting.at.(now := earlier.at.now))
    requires earlier.at.now <= Max(setting.at.now, setting.at.admittedAt)
    ensures Validate(grant, setting).Valid? ==> Validate(grant, earlier) == Validate(grant, setting)
  {
    if Validate(grant, setting).Valid? {
      var line := Ancestry(grant, setting);
      ValidMeansAcceptedLine(grant, Validate(grant, setting).chain, setting);
      forall i | 0 <= i < |line| - 1 ensures IsLink(line[i], line[i + 1], earlier) {
        assert IsLink(line[i], line[i + 1], setting);
        LinkMeansNarrowing(line[i], line[i + 1], setting.context, setting.at);
        LinkMeansNarrowing(line[i], line[i + 1], setting.context, earlier.at);
        ActiveMeansAdmittedAndUnrevoked(line[i + 1], setting.context.purpose, setting.at);
        ActiveMeansAdmittedAndUnrevoked(line[i + 1], setting.context.purpose, earlier.at);
      }
      assert IsAcceptedLine(line, earlier);
      ValidMeansAcceptedLine(grant, AncestorIds(line), earlier);
    }
  }
}
