/** Laws that relate one decision to another: with a ceiling and without, now and at admission, called and discovered. */
module DecisionLaws {
  import opened Foundations
  import opened Contracts
  import opened Activity
  import opened Capabilities
  import opened Delegation
  import opened Attenuation
  import opened Authorization

  // ----- The ceiling only narrows

  function Unceilinged(ports: Ports): Ports { ports.(ceiling := None) }

  /** The store is there and answers for every bounded grant presented. */
  predicate StoreAnswers(store: Option<StoreView>, query: Query) {
    forall g :: g in query.authority.grants && g.constraints.maxUses.Some? ==>
      store.Some? && store.value.answers(query.authority.context.namespaceId, g.id)
  }

  lemma CeilingOnlyHolds(ports: Ports, store: Option<StoreView>, query: Query, at: Instants, grant: Grant)
    ensures Judge(ports, store, query, at, grant) == Settled(Allow(grant.id)) ==>
      && Judge(Unceilinged(ports), store, query, at, grant) == Settled(Allow(grant.id))
      && ApplyCeiling(ports, query.authority, query.request, grant.id) == Allow(grant.id)
  {
    hide Validate, Matches;
  }

  lemma FirstAllow(ports: Ports, store: Option<StoreView>, query: Query) returns (i: nat)
    requires Decide(ports, store, query).Allow?
    ensures InstantsOf(query).Some? && IsWellFormed(query) && i < |query.authority.grants|
    ensures Verdicts(ports, store, query, InstantsOf(query).value)[i] == Settled(Allow(query.authority.grants[i].id))
    ensures forall j :: 0 <= j < i ==> !Verdicts(ports, store, query, InstantsOf(query).value)[j].Settled?
  {
    hide Judge;
    i := Settler(Verdicts(ports, store, query, InstantsOf(query).value));
    JudgeMeans(ports, store, query, InstantsOf(query).value, query.authority.grants[i]);
  }

  /**
   * With a store that answers, whatever is allowed under a ceiling -- any ceiling, however it
   * malfunctions -- is allowed without it, by a grant the ceiling said yes to under that id.
   */
  lemma CeilingOnlyNarrows(ports: Ports, store: Option<StoreView>, query: Query)
    requires StoreAnswers(store, query)
    requires Decide(ports, store, query).Allow?
    ensures Decide(Unceilinged(ports), store, query).Allow?
    ensures ApplyCeiling(ports, query.authority, query.request, Decide(ports, store, query).grantId)
      == Allow(Decide(ports, store, query).grantId)
  {
    hide Judge, ApplyCeiling, IsCandidate;
    var i := FirstAllow(ports, store, query);
    var at := InstantsOf(query).value;
    var bare := Verdicts(Unceilinged(ports), store, query, at);
    CeilingOnlyHolds(ports, store, query, at, query.authority.grants[i]);
    assert Decide(ports, store, query) == Allow(query.authority.grants[i].id);
    OnlyBudgetsStop(Unceilinged(ports), store, query, at);
    assert bare[i].Settled?;
    AllowsIffSomeGrantAllows(query.authority.grants, bare);
  }

  /** Without the ceiling a fail-closed stop stands before a grant that would allow, under another id. */
  ghost predicate StopHidesAnAllow(ports: Ports, store: Option<StoreView>, query: Query, at: Instants, i: nat) {
    var bare := Verdicts(Unceilinged(ports), store, query, at);
    && i < |bare| && bare[i] == Settled(Allow(query.authority.grants[i].id))
    && Settler(bare) < i && bare[Settler(bare)].decision.Deny?
    && forall j :: 0 <= j < i && query.authority.grants[j].id == query.authority.grants[i].id ==> !bare[j].Settled?
  }

  /** The ceiling that turns away every grant but one. */
  function OnlyGrant(id: Text): Ceiling {
    (grantId, request, context, policy) => if grantId == id then SaysAllowed(Some(grantId)) else SaysDenied(None)
  }

  /**
   * Exactly when a ceiling could widen: some ceiling allows what is denied without it just if an
   * unreadable budget stops the bare walk before a differently named grant that would allow.
   */
  lemma CeilingWidensIffAStopHidesAnAllow(ports: Ports, store: Option<StoreView>, query: Query)
    requires InstantsOf(query).Some? && IsWellFormed(query)
    requires query.authority.hostPolicy != Some(PolicyUnavailable)
    requires Decide(Unceilinged(ports), store, query).Deny?
    ensures (exists id :: Decide(ports.(ceiling := Some(OnlyGrant(id))), store, query).Allow?)
      <==> exists i :: StopHidesAnAllow(ports, store, query, InstantsOf(query).value, i)
    ensures Decide(ports, store, query).Allow?
      ==> exists i :: StopHidesAnAllow(ports, store, query, InstantsOf(query).value, i)
  {
    hide Decide, StopHidesAnAllow, OnlyGrant, Unceilinged, IsWellFormed;
    if Decide(ports, store, query).Allow? { WideningMeansHidden(ports, store, query); }
    if exists id :: Decide(ports.(ceiling := Some(OnlyGrant(id))), store, query).Allow? {
      var id :| Decide(ports.(ceiling := Some(OnlyGrant(id))), store, query).Allow?;
      BareEitherWay(ports, Some(OnlyGrant(id)));
      WideningMeansHidden(ports.(ceiling := Some(OnlyGrant(id))), store, query);
    }
    if exists i :: StopHidesAnAllow(ports, store, query, InstantsOf(query).value, i) {
      var i :| StopHidesAnAllow(ports, store, query, InstantsOf(query).value, i);
      var id := HiddenMeansWidening(ports, store, query, i);
      assert Decide(ports.(ceiling := Some(OnlyGrant(id))), store, query).Allow?;
    }
  }

  /** It happens: no store to read the first grant's budget from, and a ceiling that turns that grant away. */
  lemma ACeilingCanWiden() returns (ports: Ports, query: Query)
    ensures Decide(Unceilinged(ports), None, query) == Deny(UsageStoreUnavailable)
    ensures Decide(ports, None, query) == Allow([8])
  {
    var me := Human([1]);
    var all := [Capability(Resource([1], [], None), [WILDCARD], Descendants)];
    var free := Constraints(None, None, None, None, None);
    var bounded := Grant([7], [9], me, me, all, free.(maxUses := Some(1)), Readable([], 0), None, None);
    var unbounded := bounded.(id := [8], constraints := free);
    var context := Context([9], None, me, me, me, [1], [1], [], Readable([], 0));
    ports := Ports(None, None, None, Some(OnlyGrant([8])));
    query := Query(ResolvedAuthority(context, [bounded, unbounded], None), Requirement(Resource([1], [], None), [1]), Invoke, None);
    var at := Instants(0, 0);
    assert all[0] in all && CapabilityMatches(all[0], query.request, me);
    var bare := Verdicts(Unceilinged(ports), None, query, at);
    assert bare[0] == Settled(Deny(UsageStoreUnavailable));
    var vs := Verdicts(ports, None, query, at);
    assert vs[0] == Overruled(None) && vs[1] == Settled(Allow([8]));
    assert Settler(bare) == 0 && Settler(vs) == 1;
  }

  lemma BareEitherWay(ports: Ports, ceiling: Option<Ceiling>)
    ensures Unceilinged(ports.(ceiling := ceiling)) == Unceilinged(ports)
    ensures forall store, query, at, i ::
      StopHidesAnAllow(ports.(ceiling := ceiling), store, query, at, i) == StopHidesAnAllow(ports, store, query, at, i)
  {
  }

  lemma WideningMeansHidden(ports: Ports, store: Option<StoreView>, query: Query)
    requires Decide(Unceilinged(ports), store, query).Deny?
    requires Decide(ports, store, query).Allow?
    ensures InstantsOf(query).Some? && IsWellFormed(query)
    ensures exists i :: StopHidesAnAllow(ports, store, query, InstantsOf(query).value, i)
  {
    hide Judge, IsCandidate, ApplyCeiling;
    var i := FirstAllow(ports, store, query);
    var at := InstantsOf(query).value;
    var grants := query.authority.grants;
    var bare := Verdicts(Unceilinged(ports), store, query, at);
    CeilingOnlyHolds(ports, store, query, at, grants[i]);
    assert bare[i].Settled?;
    forall j | 0 <= j < i && grants[j].id == grants[i].id ensures !bare[j].Settled? {
      SameAnswerUnderOneId(ports, store, query, at, grants[j]);
    }
    assert Settler(bare) <= i;
    assert StopHidesAnAllow(ports, store, query, at, i);
  }

  /** Where the ceiling says yes to an id, it changes no verdict on a grant of that id. */
  lemma SameAnswerUnderOneId(ports: Ports, store: Option<StoreView>, query: Query, at: Instants, grant: Grant)
    requires ApplyCeiling(ports, query.authority, query.request, grant.id) == Allow(grant.id)
    ensures Judge(ports, store, query, at, grant) == Judge(Unceilinged(ports), store, query, at, grant)
  {
    hide Validate, Matches;
  }

  lemma HiddenMeansWidening(ports: Ports, store: Option<StoreView>, query: Query, i: nat) returns (id: Text)
    requires InstantsOf(query).Some? && IsWellFormed(query)
    requires query.authority.hostPolicy != Some(PolicyUnavailable)
    requires StopHidesAnAllow(ports, store, query, InstantsOf(query).value, i)
    ensures Decide(ports.(ceiling := Some(OnlyGrant(id))), store, query).Allow?
  {
    hide Judge, IsCandidate;
    var at := InstantsOf(query).value;
    var grants := query.authority.grants;
    id := grants[i].id;
    var narrow := ports.(ceiling := Some(OnlyGrant(id)));
    var vs := Verdicts(narrow, store, query, at);
    var bare := Verdicts(Unceilinged(ports), store, query, at);
    assert Unceilinged(narrow) == Unceilinged(ports);
    forall j | 0 <= j <= i ensures if j < i then !vs[j].Settled? else vs[j] == Settled(Allow(grants[i].id)) {
      if grants[j].id == grants[i].id {
        SameAnswerUnderOneId(narrow, store, query, at, grants[j]);
        assert vs[j] == bare[j];
      } else {
        JudgeMeans(narrow, store, query, at, grants[j]);
        assert ApplyCeiling(narrow, query.authority, query.request, grants[j].id)
          == Deny(HostPolicyDenied(grants[j].id, None));
      }
    }
    assert Settler(vs) == i;
  }

  // ----- The operation's clock only removes

  /** A grant live at some instant of a turn was live at every earlier one, admission included. */
  lemma LiveIsAntitoneInNow(ports: Ports, context: Context, grant: Grant, admittedAt: int, earlier: int, now: int)
    requires earlier <= Max(now, admittedAt)
    ensures IsLive(ports, context, grant, Instants(admittedAt, now)) ==> IsLive(ports, context, grant, Instants(admittedAt, earlier))
  {
    hide Validate;
    var at, before := Instants(admittedAt, now), Instants(admittedAt, earlier);
    ValidityIsAntitoneInNow(grant, SettingOf(ports, context, at), SettingOf(ports, context, before));
  }

  /** A clock that runs backwards revives nothing: any reading before admission decides as admission. */
  lemma EarlierThanAdmissionIsAdmission(ports: Ports, context: Context, grant: Grant, admittedAt: int, earlier: int)
    requires earlier <= admittedAt
    ensures IsLive(ports, context, grant, Instants(admittedAt, earlier))
      <==> IsLive(ports, context, grant, Instants(admittedAt, admittedAt))
  {
    LiveIsAntitoneInNow(ports, context, grant, admittedAt, earlier, admittedAt);
    LiveIsAntitoneInNow(ports, context, grant, admittedAt, admittedAt, earlier);
  }

  /**
   * Over a whole turn, at whatever instants its operations are decided and whatever the ports have
   * come to answer by then, each allow is by a grant that those answers make a candidate at admission.
   */
  lemma TurnNeverGainsAuthority(ports: seq<Ports>, stores: seq<Option<StoreView>>, operations: seq<Query>, authority: ResolvedAuthority)
    requires |ports| == |stores| == |operations|
    requires forall k :: 0 <= k < |operations| ==> operations[k].authority == authority
    ensures forall k :: 0 <= k < |operations| && Decide(ports[k], stores[k], operations[k]).Allow? ==>
      && authority.context.now.Readable?
      && exists g ::
           && g in authority.grants && Decide(ports[k], stores[k], operations[k]) == Allow(g.id)
           && IsCandidate(ports[k], operations[k], Instants(authority.context.now.at, authority.context.now.at), g)
  {
    hide Judge, Validate, Decide, IsLive;
    forall k | 0 <= k < |operations| && Decide(ports[k], stores[k], operations[k]).Allow?
      ensures authority.context.now.Readable?
      ensures exists g ::
        && g in authority.grants && Decide(ports[k], stores[k], operations[k]) == Allow(g.id)
        && IsCandidate(ports[k], operations[k], Instants(authority.context.now.at, authority.context.now.at), g)
    {
      var i := AllowNamesACandidate(ports[k], stores[k], operations[k]);
      var at := InstantsOf(operations[k]).value;
      LiveIsAntitoneInNow(ports[k], authority.context, authority.grants[i], at.admittedAt, at.admittedAt, at.now);
      assert authority.grants[i] in authority.grants;
    }
  }

  // ----- Discovery is the existential of invocation

  /** The call a ceiling becomes once its arguments have selected a path. */
  function CallAt(ceiling: Requirement, path: seq<Text>): Requirement {
    ceiling.(resource := ceiling.resource.(path := path))
  }

  ghost predicate SomeCallIsAllowed(ports: Ports, store: Option<StoreView>, authority: ResolvedAuthority, ceiling: Requirement, now: Option<Timestamp>) {
    exists path :: PathIsWithin(ceiling.resource.path, path)
      && Decide(ports, store, Query(authority, CallAt(ceiling, path), Invoke, now)).Allow?
  }

  /** With no host ceiling and a store that answers, a tool is offered exactly when some call under it would be allowed. */
  lemma DiscoveryIsSomeCallAllowed(ports: Ports, store: Option<StoreView>, authority: ResolvedAuthority, ceiling: Requirement, now: Option<Timestamp>)
    requires ports.ceiling.None?
    requires StoreAnswers(store, Query(authority, ceiling, Discover, now))
    ensures Decide(ports, store, Query(authority, ceiling, Discover, now)).Allow?
      <==> SomeCallIsAllowed(ports, store, authority, ceiling, now)
  {
    hide Judge, IsLive, BudgetLeft, CapabilityIntersectsCeiling, CapabilityMatches, Decide;
    var owner := authority.context.owner;
    var discovery := Query(authority, ceiling, Discover, now);
    if Decide(ports, store, discovery).Allow? {
      var i := AllowNamesACandidate(ports, store, discovery);
      var g := authority.grants[i];
      var c :| c in g.capabilities && Matches(Discover, c, ceiling, owner);
      IntersectionIsSomeRequestBelow(c, ceiling, owner);
      var path :| PathIsWithin(ceiling.resource.path, path) && CapabilityMatches(c, CallAt(ceiling, path), owner);
      var call := Query(authority, CallAt(ceiling, path), Invoke, now);
      CandidateIsAllowed(ports, store, call, g);
    }
    if SomeCallIsAllowed(ports, store, authority, ceiling, now) {
      var path :| PathIsWithin(ceiling.resource.path, path)
        && Decide(ports, store, Query(authority, CallAt(ceiling, path), Invoke, now)).Allow?;
      var call := Query(authority, CallAt(ceiling, path), Invoke, now);
      var i := AllowNamesACandidate(ports, store, call);
      var g := authority.grants[i];
      var c :| c in g.capabilities && Matches(Invoke, c, CallAt(ceiling, path), owner);
      IntersectionIsSomeRequestBelow(c, ceiling, owner);
      CandidateIsAllowed(ports, store, discovery, g);
    }
  }

  /** Where nothing can stop the walk, one candidate with a use left is enough for an allow. */
  lemma CandidateIsAllowed(ports: Ports, store: Option<StoreView>, query: Query, g: Grant)
    requires ports.ceiling.None? && StoreAnswers(store, query)
    requires InstantsOf(query).Some? && IsWellFormed(query)
    requires g in query.authority.grants && IsCandidate(ports, query, InstantsOf(query).value, g)
    requires BudgetLeft(store, query.authority.context, g) == Available
    ensures Decide(ports, store, query).Allow?
  {
    hide Judge, IsCandidate;
    OnlyBudgetsStop(ports, store, query, InstantsOf(query).value);
    AllowsIffSomeGrantAllows(query.authority.grants, Verdicts(ports, store, query, InstantsOf(query).value));
  }
}
