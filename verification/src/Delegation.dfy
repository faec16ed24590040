/** Ancestor chains: how one is checked, how a link is issued, and why the two agree. */
module Delegation {
  import opened Foundations
  import opened Contracts
  import opened Activity
  import opened ConstraintOrder
  import opened Capabilities

  /** A trusted ancestor lookup: it answers with whatever grant it likes, or not at all. */
  datatype Lookup = Found(grant: Grant) | NotFound | Threw
  type Resolver = (Text, Text) -> Lookup

  const DEFAULT_MAX_CHAIN_LENGTH: int := 16

  /** What one validation runs under. */
  datatype Setting = Setting(resolver: Option<Resolver>, maxChainLength: int, context: Context, at: Instants)

  datatype Violation =
    | DelegationNotPermitted | DelegationDepthExceeded | BoundedParentNotDelegable
    | IssuerNotParentSubject | NamespaceMismatch | ParentInactive
    | CapabilityWidened | ConstraintsWidened
    | ChainCycle | ChainTooLong

  datatype Unverifiable = ResolverUnavailable | ParentNotFound | ResolverFailed

  datatype Validation =
    | Valid(chain: seq<Text>)
    | Invalid(chain: seq<Text>, violation: Violation, grantId: Text)
    | Unverified(chain: seq<Text>, cause: Unverifiable, grantId: Text)

  predicate ConstraintsAreAttenuated(child: Grant, parent: Grant) {
    && child.issuedAt.Readable? && parent.issuedAt.Readable?
    && child.issuedAt.at >= parent.issuedAt.at
    && ConstraintsAreWithin(
         // With no start of its own, the child is compared from its issue on.
         if child.constraints.notBefore.None? then child.constraints.(notBefore := Some(child.issuedAt))
         else child.constraints,
         parent.constraints)
  }

  function LinkViolation(child: Grant, parent: Grant, context: Context, at: Instants): Option<Violation> {
    var parentDepth := parent.constraints.delegationDepth;
    if parent.namespaceId != child.namespaceId then Some(NamespaceMismatch)
    else if parent.subject != child.issuer then Some(IssuerNotParentSubject)
    else if !GrantIsActive(parent, context.purpose, at) then Some(ParentInactive)
    else if parentDepth.None? || parentDepth.value < 1 then Some(DelegationNotPermitted)
    else if DepthOf(child) > parentDepth.value - 1 then Some(DelegationDepthExceeded)
    else if parent.constraints.maxUses.Some? then Some(BoundedParentNotDelegable)
    else if exists c :: c in child.capabilities && !IsCovered(c, parent.capabilities, context.owner)
      then Some(CapabilityWidened)
    else if ConstraintsAreAttenuated(child, parent) then None
    else Some(ConstraintsWidened)
  }

  function DepthOf(grant: Grant): int {
    if grant.constraints.delegationDepth.Some? then grant.constraints.delegationDepth.value else 0
  }

  /** The rest of a validation that has reached `child` with these ancestors behind it. */
  function Walk(child: Grant, seen: set<Text>, chain: seq<Text>, setting: Setting): Validation
    decreases setting.maxChainLength - |chain|
  {
    if child.parentGrantId.None? then Valid(chain)
    else if setting.resolver.None? then Unverified(chain, ResolverUnavailable, child.id)
    else if |chain| >= setting.maxChainLength then Invalid(chain, ChainTooLong, child.id)
    else
      match setting.resolver.value(child.namespaceId, child.parentGrantId.value)
      case Threw => Unverified(chain, ResolverFailed, child.id)
      case NotFound => Unverified(chain, ParentNotFound, child.id)
      case Found(parent) =>
        if parent.id in seen then Invalid(chain, ChainCycle, parent.id)
        else
          var violation := LinkViolation(child, parent, setting.context, setting.at);
          if violation.Some? then Invalid(chain, violation.value, parent.id)
          else Walk(parent, seen + {parent.id}, chain + [parent.id], setting)
  }

  function Validate(grant: Grant, setting: Setting): Validation {
    Walk(grant, {grant.id}, [], setting)
  }

  method ValidateDelegationChain(grant: Grant, setting: Setting) returns (result: Validation)
    ensures result == Validate(grant, setting)
  {
    var chain: seq<Text> := [];
    if grant.parentGrantId.None? { return Valid(chain); }
    var seen := {grant.id};
    var child := grant;
    while child.parentGrantId.Some?
      invariant Validate(grant, setting) == Walk(child, seen, chain, setting)
      decreases setting.maxChainLength - |chain|
    {
      if setting.resolver.None? { return Unverified(chain, ResolverUnavailable, child.id); }
      if |chain| >= setting.maxChainLength { return Invalid(chain, ChainTooLong, child.id); }
      var lookup := setting.resolver.value(child.namespaceId, child.parentGrantId.value);
      if lookup.Threw? { return Unverified(chain, ResolverFailed, child.id); }
      if lookup.NotFound? { return Unverified(chain, ParentNotFound, child.id); }
      var parent := lookup.grant;
      if parent.id in seen { return Invalid(chain, ChainCycle, parent.id); }
      var violation := LinkViolation(child, parent, setting.context, setting.at);
      if violation.Some? { return Invalid(chain, violation.value, parent.id); }
      seen := seen + {parent.id};
      chain := chain + [parent.id];
      child := parent;
    }
    return Valid(chain);
  }

  // ----- What a valid chain is: a line of grants, each the resolver's answer for the one before

  ghost predicate IsLink(child: Grant, parent: Grant, setting: Setting) {
    && setting.resolver.Some? && child.parentGrantId.Some?
    && setting.resolver.value(child.namespaceId, child.parentGrantId.value) == Found(parent)
    && LinkViolation(child, parent, setting.context, setting.at).None?
  }

  ghost predicate IsPartialLine(line: seq<Grant>, setting: Setting) {
    line != [] && forall i :: 0 <= i < |line| - 1 ==> IsLink(line[i], line[i + 1], setting)
  }

  ghost predicate IsLine(line: seq<Grant>, setting: Setting) {
    IsPartialLine(line, setting) && line[|line| - 1].parentGrantId.None?
  }

  /** The ids of everything above the leaf. */
  function AncestorIds(line: seq<Grant>): (ids: seq<Text>)
    requires line != []
    ensures |ids| == |line| - 1 && forall i :: 0 <= i < |ids| ==> ids[i] == line[i + 1].id
  {
    seq(|line| - 1, i requires 0 <= i < |line| - 1 => line[i + 1].id)
  }

  ghost predicate NoIdTwice(line: seq<Grant>, from: nat) {
    forall i, j :: from <= i < j < |line| ==> line[i].id != line[j].id
  }

  ghost predicate NoneSeen(line: seq<Grant>, seen: set<Text>) {
    forall i :: 1 <= i < |line| ==> line[i].id !in seen
  }

  /** A line that validation accepts: short enough, and no id twice. */
  ghost predicate IsAcceptedLine(line: seq<Grant>, setting: Setting) {
    && IsLine(line, setting)
    && (|line| > 1 ==> |line| - 1 <= setting.maxChainLength)
    && NoIdTwice(line, 0)
  }

  /** The ancestors found by following parent ids `n` times. */
  ghost function Follow(grant: Grant, n: nat, setting: Setting): (line: seq<Grant>)
    ensures line != [] && line[0] == grant
    decreases n
  {
    if n == 0 || grant.parentGrantId.None? || setting.resolver.None? then [grant]
    else
      match setting.resolver.value(grant.namespaceId, grant.parentGrantId.value)
      case Found(parent) => [grant] + Follow(parent, n - 1, setting)
      case _ => [grant]
  }

  /** The ancestry a valid chain was read from. */
  ghost function Ancestry(grant: Grant, setting: Setting): (line: seq<Grant>)
    requires Validate(grant, setting).Valid?
    ensures line != [] && line[0] == grant
  {
    Follow(grant, |Validate(grant, setting).chain|, setting)
  }

  /** Why a validation that got as far as `last` answered as it did. */
  ghost predicate Explains(last: Grant, seen: set<Text>, setting: Setting, result: Validation) {
    if last.parentGrantId.None? then result.Valid?
    else if setting.resolver.None? then result == Unverified(result.chain, ResolverUnavailable, last.id)
    else if |result.chain| >= setting.maxChainLength then result == Invalid(result.chain, ChainTooLong, last.id)
    else
      match setting.resolver.value(last.namespaceId, last.parentGrantId.value)
      case Threw => result == Unverified(result.chain, ResolverFailed, last.id)
      case NotFound => result == Unverified(result.chain, ParentNotFound, last.id)
      case Found(parent) =>
        && result.Invalid? && result.grantId == parent.id
        && (if parent.id in seen then result.violation == ChainCycle
            else LinkViolation(last, parent, setting.context, setting.at) == Some(result.violation))
  }

  function Members(ids: seq<Text>): set<Text> { set id | id in ids }

  /** The walk takes another step: the next ancestor was found, is new, and linked. */
  predicate Continues(child: Grant, seen: set<Text>, chain: seq<Text>, setting: Setting) {
    && child.parentGrantId.Some? && setting.resolver.Some? && |chain| < setting.maxChainLength
    && var lookup := setting.resolver.value(child.namespaceId, child.parentGrantId.value);
       lookup.Found? && lookup.grant.id !in seen
       && LinkViolation(child, lookup.grant, setting.context, setting.at).None?
  }

  lemma WalkStops(child: Grant, seen: set<Text>, chain: seq<Text>, setting: Setting)
    requires !Continues(child, seen, chain, setting)
    ensures Walk(child, seen, chain, setting).chain == chain
    ensures Explains(child, seen, setting, Walk(child, seen, chain, setting))
  {
    hide LinkViolation;
  }

  /** `line` is what a walk that started with `chain` behind it passed through to reach `result`. */
  ghost predicate Traces(line: seq<Grant>, seen: set<Text>, chain: seq<Text>, setting: Setting, result: Validation) {
    && IsPartialLine(line, setting) && result.chain == chain + AncestorIds(line)
    && (|line| > 1 ==> |result.chain| <= setting.maxChainLength)
    && NoIdTwice(line, 1) && NoneSeen(line, seen)
    && Explains(line[|line| - 1], seen + Members(AncestorIds(line)), setting, result)
  }

  lemma TraceGrows(child: Grant, above: seq<Grant>, seen: set<Text>, chain: seq<Text>, setting: Setting, result: Validation)
    requires above != [] && IsLink(child, above[0], setting)
    requires above[0].id !in seen && |chain| < setting.maxChainLength
    requires Traces(above, seen + {above[0].id}, chain + [above[0].id], setting, result)
    ensures Traces([child] + above, seen, chain, setting, result)
  {
    hide IsLink, Explains;
    var line, ids := [child] + above, AncestorIds(above);
    forall i | 0 <= i < |line| - 1 ensures IsLink(line[i], line[i + 1], setting) {
      assert i > 0 ==> line[i] == above[i - 1] && line[i + 1] == above[i];
    }
    assert AncestorIds(line) == [above[0].id] + ids;
    assert chain + [above[0].id] + ids == chain + AncestorIds(line);
    forall id ensures id in [above[0].id] + ids <==> id == above[0].id || id in ids {}
    assert seen + {above[0].id} + Members(ids) == seen + Members(AncestorIds(line));
  }

  lemma {:induction false} WalkFollowsALine(child: Grant, seen: set<Text>, chain: seq<Text>, setting: Setting)
    ensures
      var result := Walk(child, seen, chain, setting);
      && |result.chain| >= |chain|
      && Traces(Follow(child, |result.chain| - |chain|, setting), seen, chain, setting, result)
    decreases setting.maxChainLength - |chain|
  {
    hide LinkViolation, Traces;
    var result := Walk(child, seen, chain, setting);
    if Continues(child, seen, chain, setting) {
      var parent := setting.resolver.value(child.namespaceId, child.parentGrantId.value).grant;
      WalkFollowsALine(parent, seen + {parent.id}, chain + [parent.id], setting);
      TraceGrows(child, Follow(parent, |result.chain| - |chain| - 1, setting), seen, chain, setting, result);
    } else {
      WalkStops(child, seen, chain, setting);
      TraceStarts(child, seen, chain, setting, result);
    }
  }

  lemma TraceStarts(child: Grant, seen: set<Text>, chain: seq<Text>, setting: Setting, result: Validation)
    requires result.chain == chain && Explains(child, seen, setting, result)
    ensures Traces([child], seen, chain, setting, result)
  {
    hide Explains;
    assert chain + AncestorIds([child]) == chain;
    assert seen + Members(AncestorIds([child])) == seen;
  }

  /**
   * Every answer, good or bad, names the ancestors of an unbroken line from the grant, and is
   * explained by what stands at the end of that line.
   */
  lemma EveryAnswerIsExplained(grant: Grant, setting: Setting)
    ensures
      var result := Validate(grant, setting);
      var line := Follow(grant, |result.chain|, setting);
      && IsPartialLine(line, setting) && result.chain == AncestorIds(line)
      && (|line| > 1 ==> |result.chain| <= setting.maxChainLength)
      && NoIdTwice(line, 0)
      && Explains(line[|line| - 1], {grant.id} + Members(result.chain), setting, result)
  {
    hide LinkViolation;
    WalkFollowsALine(grant, {grant.id}, [], setting);
    var line := Follow(grant, |Validate(grant, setting).chain|, setting);
    assert [] + AncestorIds(line) == AncestorIds(line);
  }

  lemma {:induction false} LineIsWalked(line: seq<Grant>, seen: set<Text>, chain: seq<Text>, setting: Setting)
    requires IsLine(line, setting) && NoIdTwice(line, 1) && NoneSeen(line, seen)
    requires |line| > 1 ==> |chain| + |line| - 1 <= setting.maxChainLength
    ensures Walk(line[0], seen, chain, setting) == Valid(chain + AncestorIds(line))
    decreases |line|
  {
    hide LinkViolation;
    if |line| > 1 {
      var above, parent := line[1..], line[1];
      assert IsLink(line[0], parent, setting);
      assert IsLine(above, setting) by {
        forall i | 0 <= i < |above| - 1 ensures IsLink(above[i], above[i + 1], setting) {
          assert IsLink(line[i + 1], line[i + 2], setting);
        }
      }
      LineIsWalked(above, seen + {parent.id}, chain + [parent.id], setting);
      assert chain + [parent.id] + AncestorIds(above) == chain + AncestorIds(line);
    } else {
      assert chain + AncestorIds(line) == chain;
    }
  }

  /** Validation says `Valid` of exactly the accepted lines, and names exactly their ancestors. */
  lemma ValidMeansAcceptedLine(grant: Grant, chain: seq<Text>, setting: Setting)
    ensures Validate(grant, setting) == Valid(chain)
      <==> exists line :: IsAcceptedLine(line, setting) && line[0] == grant && AncestorIds(line) == chain
    ensures Validate(grant, setting) == Valid(chain)
      ==> IsAcceptedLine(Ancestry(grant, setting), setting) && AncestorIds(Ancestry(grant, setting)) == chain
  {
    hide LinkViolation;
    if Validate(grant, setting) == Valid(chain) {
      EveryAnswerIsExplained(grant, setting);
    }
    if exists line :: IsAcceptedLine(line, setting) && line[0] == grant && AncestorIds(line) == chain {
      var line: seq<Grant> :| IsAcceptedLine(line, setting) && line[0] == grant && AncestorIds(line) == chain;
      LineIsWalked(line, {grant.id}, [], setting);
      assert [] + AncestorIds(line) == chain;
    }
  }
}
