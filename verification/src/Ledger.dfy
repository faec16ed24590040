/** A host's ledger of grants, run as a state machine: issue, derive, revoke, authorize. */
module Ledger {
  import opened Foundations
  import opened Contracts
  import opened Activity
  import opened Delegation
  import opened Attenuation
  import opened Derivation
  import opened Authorization
  import Terms = DecisionTerms
  import AllowTerms

  /**
   * The grants on record under their ids, the roots exactly as they were issued, and the order
   * in which ids were first recorded.
   */
  datatype State = State(grants: map<Text, Grant>, roots: map<Text, Grant>, birth: map<Text, nat>)

  const EMPTY: State := State(map[], map[], map[])

  datatype Step =
    | IssueRoot(grant: Grant)
    | Derive(parentId: Text, request: DeriveRequest)
    | Revoke(id: Text, stamp: Timestamp)
    | Authorize(host: Host, query: Query)

  /** Everything about a deciding host that is not the ledger. */
  datatype Host = Host(
    verifier: Option<Verifier>, maxChainLength: Option<int>, ceiling: Option<Ceiling>, store: Option<StoreView>)

  function ResolverOver(grants: map<Text, Grant>): Resolver {
    (namespaceId, grantId) =>
      if grantId in grants && grants[grantId].namespaceId == namespaceId then Found(grants[grantId]) else NotFound
  }

  /** The ledger's lookup never throws, and never answers across namespaces. */
  lemma ResolverKeepsToItsNamespace(grants: map<Text, Grant>, namespaceId: Text, id: Text, grant: Grant)
    ensures ResolverOver(grants)(namespaceId, id) == Found(grant)
      <==> id in grants && grants[id] == grant && grant.namespaceId == namespaceId
    ensures !ResolverOver(grants)(namespaceId, id).Threw?
  {
  }

  function PortsOver(host: Host, state: State): Ports {
    Ports(host.verifier, Some(ResolverOver(state.grants)), host.maxChainLength, host.ceiling)
  }

  function Record(state: State, grant: Grant): State {
    state.(grants := state.grants[grant.id := grant], birth := state.birth[grant.id := |state.birth|])
  }

  /** Ids are used once; a revocation is final; a refused derivation records nothing. */
  function Next(state: State, step: Step): State {
    match step
    case IssueRoot(grant) =>
      if grant.parentGrantId.None? && grant.id !in state.grants
      then Record(state, grant).(roots := state.roots[grant.id := grant])
      else state
    case Derive(parentId, request) =>
      if parentId in state.grants && request.id !in state.grants && DeriveGrant(state.grants[parentId], request).Issued?
      then Record(state, DeriveGrant(state.grants[parentId], request).grant)
      else state
    case Revoke(id, stamp) =>
      if id in state.grants && state.grants[id].revokedAt.None?
      then state.(grants := state.grants[id := state.grants[id].(revokedAt := Some(stamp))])
      else state
    case Authorize(_, _) => state
  }

  function Run(steps: seq<Step>): State {
    if steps == [] then EMPTY else Next(Run(steps[..|steps| - 1]), steps[|steps| - 1])
  }

  // ----- What every run keeps

  ghost predicate IsNarrowingEverywhere(child: Grant, parent: Grant) {
    forall owner :: IsNarrowing(child, parent, owner)
  }

  ghost predicate DescendsFromRecord(state: State, id: Text)
    requires id in state.grants
  {
    var grant := state.grants[id];
    match grant.parentGrantId
    case None =>
      id in state.roots && grant == state.roots[id].(revokedAt := grant.revokedAt)
    case Some(parentId) =>
      && parentId in state.grants
      && id in state.birth && parentId in state.birth && state.birth[parentId] < state.birth[id]
      && IsNarrowingEverywhere(grant, state.grants[parentId])
  }

  ghost predicate Sound(state: State) {
    && state.birth.Keys == state.grants.Keys
    && state.roots.Keys <= state.grants.Keys
    && (forall id :: id in state.birth ==> state.birth[id] < |state.birth|)
    && (forall id :: id in state.grants ==> state.grants[id].id == id)
    && (forall id {:trigger DescendsFromRecord(state, id)} :: id in state.grants ==> DescendsFromRecord(state, id))
  }

  lemma RecordingKeepsSound(state: State, grant: Grant, after: State)
    requires Sound(state) && grant.id !in state.grants
    requires after.grants == state.grants[grant.id := grant] && after.birth == state.birth[grant.id := |state.birth|]
    requires after.roots == if grant.parentGrantId.None? then state.roots[grant.id := grant] else state.roots
    requires grant.parentGrantId.Some? ==>
      && grant.parentGrantId.value in state.grants
      && IsNarrowingEverywhere(grant, state.grants[grant.parentGrantId.value])
    ensures Sound(after)
  {
    hide IsNarrowingEverywhere, DescendsFromRecord, Preserves;
    BirthsStayBounded(state.birth, grant.id);
    assert after.birth.Keys == after.grants.Keys;
    RecordingPreserves(state, grant, after);
    forall id | id in after.grants ensures DescendsFromRecord(after, id) {
      if id == grant.id { NewlyDescends(state, grant, after); } else { StillDescends(state, after, id); }
    }
  }

  /** Nothing on record is lost or changed, revocation aside. */
  ghost predicate Preserves(state: State, after: State) {
    && (forall id :: id in state.grants ==>
          id in after.grants && after.grants[id] == state.grants[id].(revokedAt := after.grants[id].revokedAt))
    && (forall id :: id in state.birth ==> id in after.birth && after.birth[id] == state.birth[id])
    && (forall id :: id in state.roots ==> id in after.roots && after.roots[id] == state.roots[id])
  }

  lemma RecordingPreserves(state: State, grant: Grant, after: State)
    requires Sound(state) && grant.id !in state.grants
    requires after.grants == state.grants[grant.id := grant] && after.birth == state.birth[grant.id := |state.birth|]
    requires after.roots == if grant.parentGrantId.None? then state.roots[grant.id := grant] else state.roots
    ensures Preserves(state, after)
  {
    hide DescendsFromRecord;
  }

  lemma StillDescends(state: State, after: State, id: Text)
    requires Preserves(state, after) && id in state.grants && DescendsFromRecord(state, id)
    ensures DescendsFromRecord(after, id)
  {
    hide IsNarrowingEverywhere;
    var grant := state.grants[id];
    if grant.parentGrantId.Some? {
      var parentId := grant.parentGrantId.value;
      RevocationAside(grant, state.grants[parentId], after.grants[id], after.grants[parentId]);
    }
  }

  lemma NewlyDescends(state: State, grant: Grant, after: State)
    requires state.birth.Keys == state.grants.Keys && grant.id !in state.grants
    requires forall id :: id in state.birth ==> state.birth[id] < |state.birth|
    requires after.grants == state.grants[grant.id := grant] && after.birth == state.birth[grant.id := |state.birth|]
    requires after.roots == if grant.parentGrantId.None? then state.roots[grant.id := grant] else state.roots
    requires grant.parentGrantId.Some? ==>
      && grant.parentGrantId.value in state.grants
      && IsNarrowingEverywhere(grant, state.grants[grant.parentGrantId.value])
    ensures DescendsFromRecord(after, grant.id)
  {
    hide IsNarrowingEverywhere;
  }

  lemma BirthsStayBounded(birth: map<Text, nat>, id: Text)
    requires id !in birth && forall other :: other in birth ==> birth[other] < |birth|
    ensures var after := birth[id := |birth|];
            forall other :: other in after ==> after[other] < |after|
  {
    var after := birth[id := |birth|];
    assert after.Keys == birth.Keys + {id};
    assert |after| == |after.Keys| && |birth| == |birth.Keys|;
  }

  /** Narrowing is about what two grants say, not whether either has been revoked. */
  lemma RevocationAside(child: Grant, parent: Grant, child': Grant, parent': Grant)
    requires child' == child.(revokedAt := child'.revokedAt) && parent' == parent.(revokedAt := parent'.revokedAt)
    requires IsNarrowingEverywhere(child, parent)
    ensures IsNarrowingEverywhere(child', parent')
  {
    forall owner ensures IsNarrowing(child', parent', owner) { assert IsNarrowing(child, parent, owner); }
  }

  lemma RevokingPreserves(state: State, id: Text, stamp: Timestamp)
    ensures
      var after := Next(state, Revoke(id, stamp));
      && Preserves(state, after)
      && after.birth == state.birth && after.roots == state.roots && after.grants.Keys == state.grants.Keys
      && forall other :: other in state.grants ==> after.grants[other].id == state.grants[other].id
  {
  }

  lemma RevokingKeepsSound(state: State, id: Text, stamp: Timestamp)
    requires Sound(state)
    ensures Sound(Next(state, Revoke(id, stamp)))
  {
    hide IsNarrowingEverywhere, DescendsFromRecord, Next, Preserves;
    var after := Next(state, Revoke(id, stamp));
    RevokingPreserves(state, id, stamp);
    forall other | other in after.grants ensures DescendsFromRecord(after, other) { StillDescends(state, after, other); }
  }

  lemma StepKeepsSound(state: State, step: Step)
    requires Sound(state)
    ensures Sound(Next(state, step))
  {
    hide DeriveGrant, Sound;
    match step
    case IssueRoot(grant) =>
      if Next(state, step) != state { RecordingKeepsSound(state, grant, Next(state, step)); }
    case Derive(parentId, request) =>
      if Next(state, step) != state {
        var parent := state.grants[parentId];
        var child := DeriveGrant(parent, request).grant;
        DerivedFromRecord(state, parentId, request);
        RecordingKeepsSound(state, child, Next(state, step));
      }
    case Revoke(id, stamp) => RevokingKeepsSound(state, id, stamp);
    case Authorize(_, _) =>
  }

  lemma DerivedFromRecord(state: State, parentId: Text, request: DeriveRequest)
    requires Sound(state) && parentId in state.grants
    requires DeriveGrant(state.grants[parentId], request).Issued?
    ensures
      var child := DeriveGrant(state.grants[parentId], request).grant;
      child.id == request.id && child.parentGrantId == Some(parentId) && IsNarrowingEverywhere(child, state.grants[parentId])
  {
    var parent := state.grants[parentId];
    var anyone, at := Human([]), Instants(0, 0);
    forall owner ensures IsNarrowing(DeriveGrant(parent, request).grant, parent, owner) {
      IssuedIsALinkEverywhere(parent, request, Context([], None, anyone, anyone, owner, [], [], [], Readable([], 0)), at);
    }
    IssuedIsALinkEverywhere(parent, request, Context([], None, anyone, anyone, anyone, [], [], [], Readable([], 0)), at);
  }

  lemma {:induction false} EveryRunIsSound(steps: seq<Step>)
    ensures Sound(Run(steps))
  {
    hide Next, Sound;
    if steps == [] {
      EmptyIsSound();
    } else {
      EveryRunIsSound(steps[..|steps| - 1]);
      StepKeepsSound(Run(steps[..|steps| - 1]), steps[|steps| - 1]);
    }
  }

  lemma EmptyIsSound()
    ensures Sound(EMPTY)
  {
  }

  // ----- The ancestry the ledger gives a grant

  /** The grant on record, or the version of it from before it was revoked. */
  predicate IsVersionOnRecord(state: State, grant: Grant) {
    && grant.id in state.grants
    && (grant == state.grants[grant.id] || grant == state.grants[grant.id].(revokedAt := None))
  }

  /** A presented grant and its ancestors, each as the ledger holds it now. */
  function Line(state: State, grant: Grant): (line: seq<Grant>)
    requires Sound(state) && IsVersionOnRecord(state, grant)
    ensures line != [] && line[0] == grant
    decreases state.birth[grant.id]
  {
    if grant.parentGrantId.None? then [grant]
    else
      assert DescendsFromRecord(state, grant.id);
      [grant] + Line(state, state.grants[grant.parentGrantId.value])
  }

  lemma ParentOnRecord(state: State, grant: Grant)
    requires Sound(state) && IsVersionOnRecord(state, grant) && grant.parentGrantId.Some?
    ensures grant.parentGrantId.value in state.grants
    ensures
      var parent := state.grants[grant.parentGrantId.value];
      && parent.id == grant.parentGrantId.value && IsVersionOnRecord(state, parent)
      && IsNarrowingEverywhere(grant, parent)
      && Line(state, grant) == [grant] + Line(state, parent)
      && parent.id in state.birth && grant.id in state.birth && state.birth[parent.id] < state.birth[grant.id]
  {
    hide IsNarrowingEverywhere;
    assert DescendsFromRecord(state, grant.id);
    var parent := state.grants[grant.parentGrantId.value];
    RevocationAside(state.grants[grant.id], parent, grant, parent);
  }

  lemma {:induction false} LineIsOfTheRecord(state: State, grant: Grant, i: nat)
    requires Sound(state) && IsVersionOnRecord(state, grant) && i < |Line(state, grant)|
    ensures
      var line := Line(state, grant);
      && IsVersionOnRecord(state, line[i])
      && (i > 0 ==> line[i] == state.grants[line[i].id])
      && (i == |line| - 1 <==> line[i].parentGrantId.None?)
      && (i + 1 < |line| ==> line[i].parentGrantId == Some(line[i + 1].id) && IsNarrowingEverywhere(line[i], line[i + 1]))
    decreases i
  {
    hide Sound, IsNarrowingEverywhere;
    if grant.parentGrantId.Some? {
      ParentOnRecord(state, grant);
      if i > 0 { LineIsOfTheRecord(state, state.grants[grant.parentGrantId.value], i - 1); }
    }
  }

  lemma TheRecordIsFaithful(state: State, grant: Grant)
    requires Sound(state) && IsVersionOnRecord(state, grant)
    ensures IsFaithful(ResolverOver(state.grants)) && IsOnRecord(grant, ResolverOver(state.grants))
  {
    hide DescendsFromRecord;
  }

  // ----- Completeness: nothing but revocation or length breaks a chain the ledger issued

  /** An ancestor already revoked for turns admitted at this instant. */
  predicate HasRevokedAncestor(state: State, grant: Grant, admittedAt: int)
    requires Sound(state) && IsVersionOnRecord(state, grant)
  {
    exists i :: 1 <= i < |Line(state, grant)| && RevokedBy(Line(state, grant)[i], admittedAt)
  }

  lemma {:induction false} ActiveUpward(state: State, grant: Grant, purpose: Text, at: Instants, k: nat)
    requires Sound(state) && IsVersionOnRecord(state, grant) && k < |Line(state, grant)|
    requires GrantIsActive(grant, purpose, at) && !HasRevokedAncestor(state, grant, at.admittedAt)
    ensures GrantIsActive(Line(state, grant)[k], purpose, at)
  {
    hide Sound, IsVersionOnRecord;
    if k > 0 {
      var line := Line(state, grant);
      ActiveUpward(state, grant, purpose, at, k - 1);
      LineIsOfTheRecord(state, grant, k - 1);
      assert IsNarrowing(line[k - 1], line[k], Human([]));
      NarrowingKeepsInForce(line[k - 1], line[k], Human([]), purpose, at);
    }
  }

  lemma LedgerLinks(state: State, grant: Grant, setting: Setting, i: nat)
    requires Sound(state) && IsVersionOnRecord(state, grant) && i + 1 < |Line(state, grant)|
    requires setting.resolver == Some(ResolverOver(state.grants))
    ensures
      var line := Line(state, grant);
      IsLink(line[i], line[i + 1], setting) <==> GrantIsActive(line[i + 1], setting.context.purpose, setting.at)
  {
    hide Sound;
    var line := Line(state, grant);
    LineIsOfTheRecord(state, grant, i);
    LineIsOfTheRecord(state, grant, i + 1);
    assert IsNarrowing(line[i], line[i + 1], setting.context.owner);
    LinkMeansNarrowing(line[i], line[i + 1], setting.context, setting.at);
  }

  lemma LineIsAccepted(state: State, grant: Grant, setting: Setting)
    requires Sound(state) && IsVersionOnRecord(state, grant)
    requires setting.resolver == Some(ResolverOver(state.grants))
    requires GrantIsActive(grant, setting.context.purpose, setting.at)
    requires !HasRevokedAncestor(state, grant, setting.at.admittedAt)
    requires |Line(state, grant)| > 1 ==> |Line(state, grant)| - 1 <= setting.maxChainLength
    ensures IsAcceptedLine(Line(state, grant), setting)
  {
    hide LinkViolation, GrantIsActive, IsLink, Sound, IsVersionOnRecord, HasRevokedAncestor, Line,
         IsFaithful, IsOnRecord, ResolverOver, NoIdTwice;
    var line := Line(state, grant);
    forall i | 0 <= i < |line| - 1 ensures IsLink(line[i], line[i + 1], setting) {
      ActiveUpward(state, grant, setting.context.purpose, setting.at, i + 1);
      LedgerLinks(state, grant, setting, i);
    }
    LineIsOfTheRecord(state, grant, |line| - 1);
    TheRecordIsFaithful(state, grant);
    DepthAloneRulesOutCycles(line, setting, ResolverOver(state.grants));
  }

  /** Under the ledger's lookup there is one line up from a grant, and it is the ledger's. */
  lemma {:induction false} OnlyTheLedgersLine(state: State, grant: Grant, line: seq<Grant>, setting: Setting)
    requires Sound(state) && IsVersionOnRecord(state, grant)
    requires setting.resolver == Some(ResolverOver(state.grants))
    requires IsLine(line, setting) && line[0] == grant
    ensures line == Line(state, grant)
    decreases |line|
  {
    hide LinkViolation, Sound, IsNarrowingEverywhere, Line;
    if |line| == 1 {
      assert line == [grant];
      OwnLine(state, grant);
    } else {
      var above := line[1..];
      assert IsLink(line[0], line[1], setting);
      ParentOnRecord(state, grant);
      forall i | 0 <= i < |above| - 1 ensures IsLink(above[i], above[i + 1], setting) {
        assert IsLink(line[i + 1], line[i + 2], setting);
      }
      OnlyTheLedgersLine(state, line[1], above, setting);
      assert line == [line[0]] + above;
    }
  }

  lemma OwnLine(state: State, grant: Grant)
    requires Sound(state) && IsVersionOnRecord(state, grant) && grant.parentGrantId.None?
    ensures Line(state, grant) == [grant]
  {
    hide Sound;
  }

  /**
   * In a ledger built from roots and derivations, a grant that is active validates exactly when
   * no ancestor has been revoked and the chain is no longer than the cap.
   */
  lemma ActiveGrantValidatesUnlessAnAncestorIsRevoked(state: State, grant: Grant, setting: Setting)
    requires Sound(state) && IsVersionOnRecord(state, grant)
    requires setting.resolver == Some(ResolverOver(state.grants))
    requires GrantIsActive(grant, setting.context.purpose, setting.at)
    ensures Validate(grant, setting).Valid? <==>
      && !HasRevokedAncestor(state, grant, setting.at.admittedAt)
      && (|Line(state, grant)| > 1 ==> |Line(state, grant)| - 1 <= setting.maxChainLength)
    ensures Validate(grant, setting).Valid? ==> Ancestry(grant, setting) == Line(state, grant)
  {
    hide LinkViolation, Sound, GrantIsActive;
    var line := Line(state, grant);
    if Validate(grant, setting).Valid? {
      ValidMeansAcceptedLine(grant, Validate(grant, setting).chain, setting);
      OnlyTheLedgersLine(state, grant, Ancestry(grant, setting), setting);
      forall i | 1 <= i < |line| ensures !RevokedBy(line[i], setting.at.admittedAt) {
        LineIsNarrowing(line, setting, i - 1);
        ActiveMeansAdmittedAndUnrevoked(line[i], setting.context.purpose, setting.at);
      }
    }
    if !HasRevokedAncestor(state, grant, setting.at.admittedAt) && (|line| > 1 ==> |line| - 1 <= setting.maxChainLength) {
      LineIsAccepted(state, grant, setting);
      ValidMeansAcceptedLine(grant, AncestorIds(line), setting);
    }
  }

  /** A root's delegation depth bounds every chain under it, so depth within the cap is enough. */
  lemma RootDepthBoundsTheLine(state: State, grant: Grant)
    requires Sound(state) && IsVersionOnRecord(state, grant)
    ensures |Line(state, grant)| > 1 ==> |Line(state, grant)| - 1 <= DepthOf(Line(state, grant)[|Line(state, grant)| - 1])
  {
    hide Sound, IsVersionOnRecord, Line;
    if |Line(state, grant)| > 1 { DepthGrowsAlongTheLine(state, grant, |Line(state, grant)| - 1); }
  }

  lemma {:induction false} DepthGrowsAlongTheLine(state: State, grant: Grant, k: nat)
    requires Sound(state) && IsVersionOnRecord(state, grant) && 1 <= k < |Line(state, grant)|
    ensures k <= DepthOf(Line(state, grant)[k])
  {
    hide Sound, IsVersionOnRecord;
    LineIsOfTheRecord(state, grant, k - 1);
    assert IsNarrowing(Line(state, grant)[k - 1], Line(state, grant)[k], Human([]));
    if k > 1 { DepthGrowsAlongTheLine(state, grant, k - 1); }
  }

  // ----- Safety of every allow in every run

  /** What a host presents for a decision: grants from its ledger, as they are or were. */
  predicate PresentsItsRecord(state: State, query: Query) {
    forall g :: g in query.authority.grants ==> IsVersionOnRecord(state, g)
  }

  /** Why an allow was right: it is rooted in a grant issued as a root, and nothing above it was revoked. */
  ghost predicate IsRooted(state: State, query: Query, at: Instants, grant: Grant) {
    && Sound(state) && IsVersionOnRecord(state, grant)
    && var line := Line(state, grant);
       var root := line[|line| - 1];
       var context := query.authority.context;
       && root.id in state.roots && root == state.roots[root.id].(revokedAt := root.revokedAt)
       && (query.mode == Invoke ==> Answers(root, query.request, context.owner))
       && InForce(root, context.purpose, at)
       && (|line| > 1 ==> GrantIsActive(root, context.purpose, at))
       && !HasRevokedAncestor(state, grant, at.admittedAt)
  }

  /** Every allow, in every run, is rooted: whatever the rest of the host does. */
  lemma EveryAllowIsRooted(steps: seq<Step>, host: Host, query: Query) returns (grant: Grant)
    requires PresentsItsRecord(Run(steps), query)
    requires Decide(PortsOver(host, Run(steps)), host.store, query).Allow?
    ensures InstantsOf(query).Some?
    ensures grant in query.authority.grants
    ensures Decide(PortsOver(host, Run(steps)), host.store, query) == Allow(grant.id)
    ensures IsRooted(Run(steps), query, InstantsOf(query).value, grant)
  {
    hide Judge, Decide, Sound, Validate, GrantIsActive, Run, Ancestry;
    var state := Run(steps);
    var ports := PortsOver(host, state);
    EveryRunIsSound(steps);
    var i := AllowNamesACandidate(ports, host.store, query);
    grant := query.authority.grants[i];
    var at := InstantsOf(query).value;
    CandidateIsRooted(state, ports, query, at, grant);
  }

  lemma CandidateIsRooted(state: State, ports: Ports, query: Query, at: Instants, grant: Grant)
    requires Sound(state) && IsVersionOnRecord(state, grant)
    requires ports.resolver == Some(ResolverOver(state.grants))
    requires IsCandidate(ports, query, at, grant)
    ensures IsRooted(state, query, at, grant)
  {
    hide Sound, Validate, LinkViolation, Ancestry;
    var context := query.authority.context;
    var setting := SettingOf(ports, context, at);
    ActiveGrantValidatesUnlessAnAncestorIsRevoked(state, grant, setting);
    var line := Line(state, grant);
    LineIsOfTheRecord(state, grant, |line| - 1);
    RootIsAsIssued(state, line[|line| - 1]);
    ActiveMeansAdmittedAndUnrevoked(grant, context.purpose, at);
    ValidChainAttenuates(grant, setting, |line| - 1, query.request, context.purpose, at);
  }

  lemma RootIsAsIssued(state: State, root: Grant)
    requires Sound(state) && IsVersionOnRecord(state, root) && root.parentGrantId.None?
    ensures root.id in state.roots && root == state.roots[root.id].(revokedAt := root.revokedAt)
  {
    assert DescendsFromRecord(state, root.id);
  }

  lemma {:induction false} RevocationsStand(steps: seq<Step>, more: seq<Step>, id: Text)
    requires id in Run(steps).grants && Run(steps).grants[id].revokedAt.Some?
    ensures id in Run(steps + more).grants
    ensures Run(steps + more).grants[id].revokedAt == Run(steps).grants[id].revokedAt
  {
    hide DeriveGrant;
    if more == [] {
      assert steps + more == steps;
    } else {
      var shorter := more[..|more| - 1];
      RevocationsStand(steps, shorter, id);
      assert (steps + more)[..|steps + more| - 1] == steps + shorter;
      NextKeepsRevocation(Run(steps + shorter), more[|more| - 1], id, steps + shorter);
    }
  }

  lemma NextKeepsRevocation(state: State, step: Step, id: Text, steps: seq<Step>)
    requires state == Run(steps) && id in state.grants && state.grants[id].revokedAt.Some?
    ensures id in Next(state, step).grants && Next(state, step).grants[id].revokedAt == state.grants[id].revokedAt
  {
    hide Run, Sound, DeriveGrant, IsNarrowingEverywhere;
    EveryRunIsSound(steps);
    if step.Derive? && Next(state, step) != state { DerivedFromRecord(state, step.parentId, step.request); }
  }

  /**
   * Emergency stop. Once a grant has been revoked, no later decision of the run that is admitted
   * at or after the revocation is an allow through any of its descendants.
   */
  lemma NoAllowThroughARevokedAncestor(steps: seq<Step>, more: seq<Step>, id: Text, host: Host, query: Query) returns (grant: Grant)
    requires InstantsOf(query).Some?
    requires id in Run(steps).grants && RevokedBy(Run(steps).grants[id], InstantsOf(query).value.admittedAt)
    requires PresentsItsRecord(Run(steps + more), query)
    requires Decide(PortsOver(host, Run(steps + more)), host.store, query).Allow?
    ensures grant in query.authority.grants
    ensures Decide(PortsOver(host, Run(steps + more)), host.store, query) == Allow(grant.id)
    ensures Sound(Run(steps + more)) && IsVersionOnRecord(Run(steps + more), grant)
    ensures forall k :: 1 <= k < |Line(Run(steps + more), grant)| ==> Line(Run(steps + more), grant)[k].id != id
  {
    hide Run, Sound, Decide, Line;
    var state := Run(steps + more);
    grant := EveryAllowIsRooted(steps + more, host, query);
    RevocationsStand(steps, more, id);
    forall k | 1 <= k < |Line(state, grant)| ensures Line(state, grant)[k].id != id {
      LineIsOfTheRecord(state, grant, k);
      assert !RevokedBy(Line(state, grant)[k], InstantsOf(query).value.admittedAt);
    }
  }

  // ----- Steps take effect, and what is on record is honoured

  /** What a step does, over any run: a fresh root or derivation goes on record, a first revocation is stamped, no more. */
  lemma EachStepTakesEffect(steps: seq<Step>, step: Step, id: Text)
    ensures
      var (before, after) := (Run(steps).grants, Run(steps + [step]).grants);
      match step
      case IssueRoot(grant) =>
        if grant.id == id && id !in before && grant.parentGrantId.None? then id in after && after[id] == grant
        else IsKept(before, after, id)
      case Derive(parentId, request) =>
        if request.id == id && id !in before && parentId in before && DeriveGrant(before[parentId], request).Issued?
        then id in after && after[id] == DeriveGrant(before[parentId], request).grant
        else IsKept(before, after, id)
      case Revoke(revoked, stamp) =>
        if revoked == id && id in before && before[id].revokedAt.None?
        then id in after && after[id] == before[id].(revokedAt := Some(stamp))
        else IsKept(before, after, id)
      case Authorize(_, _) => IsKept(before, after, id)
  {
    hide DeriveGrant;
    assert (steps + [step])[..|steps|] == steps;
    EveryRunIsSound(steps);
    if step.Derive? && Next(Run(steps), step) != Run(steps) { DerivedFromRecord(Run(steps), step.parentId, step.request); }
  }

  ghost predicate IsKept(before: map<Text, Grant>, after: map<Text, Grant>, id: Text) {
    (id in before <==> id in after) && (id in before ==> after[id] == before[id])
  }

  /**
   * Over every run, a grant on record is allowed when presented alone, on its own terms, under a line
   * short enough and with nobody above it revoked, by a host that adds no ceiling and can count its uses.
   */
  lemma WhatIsOnRecordIsHonoured(steps: seq<Step>, grant: Grant, host: Host, query: Query)
    requires IsVersionOnRecord(Run(steps), grant) && query.authority.grants == [grant] && host.ceiling.None?
    requires Terms.IsWhole(query.authority.context, query.now) && Terms.IsProper(query.request, query.authority.context)
    requires Terms.HasTheTerms(PortsOver(host, Run(steps)), grant, query)
    requires Terms.HasUseLeft(host.store, grant, query.authority.context.namespaceId)
    ensures Sound(Run(steps))
    ensures Decide(PortsOver(host, Run(steps)), host.store, query) == Allow(grant.id)
      <==> && !HasRevokedAncestor(Run(steps), grant, query.authority.context.now.at)
           && (|Line(Run(steps), grant)| > 1 ==>
                 |Line(Run(steps), grant)| - 1 <= if host.maxChainLength.Some? then host.maxChainLength.value else 16)
  {
    hide Run, Sound, Decide, Validate, Line, HasRevokedAncestor, IsVersionOnRecord;
    var state := Run(steps);
    var ports := PortsOver(host, state);
    EveryRunIsSound(steps);
    AllowTerms.LoneGrantDecision(ports, host.store, query);
    var setting := Terms.ChainSetting(ports, query.authority.context, query.now);
    ActiveOnItsTerms(ports, grant, query);
    ActiveGrantValidatesUnlessAnAncestorIsRevoked(state, grant, setting);
  }

  lemma ActiveOnItsTerms(ports: Ports, grant: Grant, query: Query)
    requires Terms.IsWhole(query.authority.context, query.now) && Terms.HasTheTerms(ports, grant, query)
    ensures
      var setting := Terms.ChainSetting(ports, query.authority.context, query.now);
      GrantIsActive(grant, setting.context.purpose, setting.at)
  {
    hide Terms.HasServingCapability, Terms.IsVerified;
  }
}
