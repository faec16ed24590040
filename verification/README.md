# A Dafny model of the SharedOS permission kernel

SharedOS decides whether an agent may use a tool by looking for a grant: a capability set under
constraints, issued by an owner, possibly delegated several times. This project is a Dafny model of
the part that decides, with proofs about it:

* the authority algebra and delegation (`Activity`, `ConstraintOrder`, `ConstraintMeet`,
  `Capabilities`, `Delegation`, `Attenuation`, `Derivation`). Capabilities denote sets of requests and
  constraint envelopes sets of (instants, purpose) pairs. The kernel's comparisons are proved to decide
  containment and meet over those sets, and the chain check to accept exactly the lines of ancestors
  that narrow at every link;
* a grant ledger as a state machine (`Ledger`): issue, derive, revoke and authorize in any order,
  with claims over every run;
* the authorizer (`Authorization`, `Authorizer`, `DecisionTerms`, `AllowTerms`, `DecisionAccount`,
  `DecisionLaws`, `Reach`, `ReachTerms`, `UsageInterleaving`). The class walks an ordered grant list
  over a mutable usage store and an arbitrary host ceiling; it is proved equal to a declarative
  decision, which is tied both ways to the fields of the grant, the request and the context. Then its
  laws are proved: what order changes, what a ceiling can do, what a clock can do, what a computed
  reach says, what interleaved calls spend;
* canonical JSON, the copy-on-write JSON reader and the authority snapshot (`Json`, `CanonicalJson`,
  `ReadJson`, `Authority`);
* the scripted harness session (`Transcript`, `HarnessSession`, `HarnessLaws`, `ScriptedColumn`,
  `ScriptedReplay`): two queues and an unlock counter that together replay declared attempts.

Code that updates state or loops is a class or a method, proved against a function or a predicate of
its inputs; the laws are lemmas about that function or predicate.

`dafny verify dfyconfig.toml` checks everything.

## Reading the model

* A timestamp is `Readable(text, at)` or `Unreadable(text)`, and an optional bound is an `Option` of
  one, so "present but unreadable" is never "absent".
* The verifier, the delegation resolver, the host ceiling and the usage store's faults are arbitrary
  functions that may also fail. The ledger theorems, and only they, use the ledger's own resolver.
* `localeCompare` is an arbitrary weak order on keys. Nothing assumes it separates distinct keys
  unless the theorem says so.
* `DecisionTerms`, `AllowTerms` and `ReachTerms` state what an allow, each denial and a reach come to
  field by field, naming none of the functions the decision is computed with.
* Every theorem about a decision is about `Authorization.Decide`, which
  `Authorizer.CapabilityAuthorizer.Decide` is proved to compute.

## Where the code and what is said of it differ

* `packages/core/src/hashing.ts:8` says object key order never changes a hash. It can: two distinct
  keys that `localeCompare` ties stay in insertion order. `CanonicalJson.KeyOrderIsForgottenIffCollationIsTotal`
  is the exact condition, and `CanonicalJson.TiedKeysKeepTheirOrder` the failing pair. Addresses, reach
  entries and turn keys are built with fixed keys, so they are unaffected
  (`CanonicalJson.AddressesEqualIsStructural`, `Reach.TextsDetermineEntries`,
  `Authority.TurnKeyIsEveryFieldButTwo`).
* `packages/core/src/authorization.ts:720-728` says a ceiling cannot widen. It cannot widen what a
  grant allows, but a refusal can make the walk skip a grant whose unreadable budget would have
  stopped it. `DecisionLaws.CeilingWidensIffAStopHidesAnAllow` is the exact condition,
  `DecisionLaws.ACeilingCanWiden` an instance, and `DecisionLaws.CeilingOnlyNarrows` the law when the
  store answers.
* `packages/core/src/constraints.ts:51-56` says the check is true when every use the inner envelope
  admits the outer one admits too. It is exact when the inner envelope admits anything; one that
  admits nothing is contained in everything and may still be refused
  (`ConstraintOrder.WithinDecidesContainment`,
  `ConstraintOrder.ContainedCanBeRefused`). That is the safe side.
* `packages/core/src/constraints.ts:66-80` says the meet is undefined when nothing is admitted in
  common. A window that opens and closes at one instant admits nothing and is still defined
  (`ConstraintMeet.NoCommonUseMeansNoneOrEmptyWindow`,
  `ConstraintMeet.AMeetCanAdmitNothing`).
* `packages/conformance/src/columns.ts:318-327` gives every issuable attempt a frame. An attempt that
  names the escalate tool ends the turn where the turn holds it, and the attempts after it are never
  issued (`ScriptedReplay.EveryAttemptIsPlayedIff`, `ScriptedReplay.AnAttemptCanEndTheTurn`).

## Model

| member | source | states |
|---|---|---|
| Activity.ActiveMeansAdmittedAndUnrevoked | packages/core/src/internal.ts:358-397 | A grant is active iff it was issued by admission, its envelope admits the (purpose, instants) pair and it is not revoked as of admission; unreadable stamps fail closed |
| Activity.InactivityNamesTheWindowFirst | packages/core/src/internal.ts:367-397 | The purpose is the reason given iff the grant would be active for any purpose and its list does not hold this one; otherwise the window is |
| Activity.WithinMeansPrefix | packages/core/src/internal.ts:295-304 | One path is within another iff the other is a prefix of it, and equal iff segment for segment the same |
| Activity.OperationClockOnlyRemoves | packages/core/src/internal.ts:367-397 | Activity is antitone in the operation clock, and any reading before admission gives the admission answer, reason included |
| ConstraintOrder.SatisfiableMeansSomethingAdmitted | packages/core/src/constraints.ts:29-49 | An envelope admits some (purpose, instants) pair iff it is readable, its purpose list is not empty and its window is not empty |
| ConstraintOrder.WithinIsSound | packages/core/src/constraints.ts:57-62 | An envelope within another admits nothing the other does not |
| ConstraintOrder.ViolationNamesTheFirstField | packages/core/src/constraints.ts:29-49 | Field by field: purposes, then start, then end is named, each iff it is the first not to fit |
| ConstraintOrder.WithinDecidesContainment | packages/core/src/constraints.ts:29-62 | Exactly for satisfiable inner envelopes, the check holds iff the admitted set is contained, against every outer envelope |
| ConstraintOrder.ContainedCanBeRefused | packages/core/src/constraints.ts:29-62 | Two concrete readable envelopes, one contained in the other and refused |
| ConstraintOrder.WithinIsTransitive | packages/core/src/constraints.ts:57-62 | Being within is transitive |
| ConstraintOrder.WithinIsReflexiveOnReadable | packages/core/src/constraints.ts:57-62 | An envelope is within itself iff its bounds are readable |
| ConstraintMeet.TightestConstraints | packages/core/src/constraints.ts:79-140 | The five-accumulator loop returns the tightest envelope: sorted common purposes, latest start, earliest end, fewest uses, least depth, and nothing when bounds are broken, disjoint or crossed |
| ConstraintMeet.MeetIsGreatestLowerBound | packages/core/src/constraints.ts:79-140 | The meet is within every input, and a readable envelope is within the meet iff it is within every input |
| ConstraintMeet.MeetAdmitsTheIntersection | packages/core/src/constraints.ts:64-140 | A pair is admitted by every input iff a meet is defined and admits it |
| ConstraintMeet.NoCommonUseMeansNoneOrEmptyWindow | packages/core/src/constraints.ts:64-140 | No pair is admitted by all iff no meet is defined or its window opens and closes at one instant |
| ConstraintMeet.AMeetCanAdmitNothing | packages/core/src/constraints.ts:64-140 | Two concrete envelopes with a defined meet and no use in common |
| ConstraintMeet.MeetForgetsInputOrder | packages/core/src/constraints.ts:79-140 | Permuting the inputs changes nothing but which spelling of one instant is kept |
| ConstraintMeet.MeetTakesTheFewest | packages/core/src/constraints.ts:90-140 | The counts of the meet are the least any input names, and a bound is spelled as the first input to name that instant |
| Capabilities.WithinDecidesContainment | packages/core/src/delegation.ts:212-242 | For a capability that names an action, the check holds iff every request it answers the ancestor answers |
| Capabilities.CapabilityAnswersItsPaths | packages/core/src/authorization.ts:896-922 | A capability answers exactly the requests of its namespace, owner and actions whose path is its own, or its own continued unless it is exact |
| Capabilities.WithinIsTransitive | packages/core/src/delegation.ts:212-242 | Capability containment is transitive |
| Capabilities.AnyContextMeansEveryOwner | packages/core/src/delegation.ts:320-346 | The context-free check holds iff containment holds for every context owner |
| Capabilities.CoveredEverywhereMeansByOne | packages/core/src/delegation.ts:371-453 | Being covered by a list in every context means one member of it covers in all of them |
| Capabilities.IntersectionIsSomeRequestBelow | packages/core/src/authorization.ts:924-953 | A capability meets a ceiling iff some path at or below the ceiling's makes it match the ceiling's action |
| Delegation.ValidateDelegationChain | packages/core/src/delegation.ts:103-152 | The loop over child, seen set and chain computes the recursive walk, whatever the resolver answers |
| Delegation.EveryAnswerIsExplained | packages/core/src/delegation.ts:103-190 | Every answer, valid, invalid or unverified, names the ancestors of an unbroken line and is explained by what stands at its end |
| Delegation.ValidMeansAcceptedLine | packages/core/src/delegation.ts:103-190 | Valid with a chain iff there is an accepted line from the grant with exactly those ancestors: linked throughout, within the cap, no id twice |
| Attenuation.LinkMeansNarrowing | packages/core/src/delegation.ts:154-190 | A link has no violation iff the child narrows the parent on every axis and the parent is active |
| Attenuation.LinkViolationNamesTheFirstBrokenTerm | packages/core/src/delegation.ts:154-190 | Each of the eight codes iff its term is the first the link breaks |
| Attenuation.AttenuatedMeansEachFieldFits | packages/core/src/delegation.ts:244-266 | Attenuated iff the issue, purposes, start and end fit, a child without a start being held to its issue |
| Attenuation.NarrowingKeepsInForce | packages/core/src/delegation.ts:154-190 | Across a link a child in force means a parent in force at any instants, and an active child an active parent iff the parent is unrevoked |
| Attenuation.ValidChainAttenuates | packages/core/src/delegation.ts:103-190 | Every request, purpose and pair of instants a valid leaf admits every ancestor admits, revocation of that ancestor aside, with no assumption on the resolver |
| Attenuation.LeafCapabilitySitsInOneRootCapability | packages/core/src/delegation.ts:212-242 | Each leaf capability of a valid chain lies within one single capability of its root |
| Attenuation.ChainIsBoundedByDepth | packages/core/src/delegation.ts:114-176 | A valid chain is no longer than the cap or the root's depth; depth strictly increases upward and no ancestor repeats |
| Attenuation.DepthAloneRulesOutCycles | packages/core/src/delegation.ts:114-151 | Without the seen set no grant repeats either, and under a resolver that answers with the grant asked for the set changes nothing |
| Attenuation.UnfaithfulLookupCanRepeatAnId | packages/core/src/delegation.ts:130-140 | A concrete line on which the seen set is needed: a resolver that answers with another grant's id |
| Attenuation.NoBoundedAncestor | packages/core/src/delegation.ts:177-180 | No valid chain runs through an ancestor with a use bound |
| Attenuation.ValidityIsAntitoneInNow | packages/core/src/delegation.ts:103-152 | A chain valid at one clock reading is the same valid chain at every earlier one |
| Derivation.IssuedIsALinkEverywhere | packages/core/src/delegation.ts:371-467 | What is issued is a link in every context at every instant the parent is active |
| Derivation.IssuingAgreesWithTheChainCheck | packages/core/src/delegation.ts:371-467 | Issuing succeeds iff the chain check would accept the proposed grant for every owner, apart from an empty request and the parent's own id |
| Derivation.IssuedCarriesWhatWasAsked | packages/core/src/delegation.ts:371-467 | Every field of what is issued: as asked, or as the parent holds it where nothing was asked |
| Derivation.IssuedAdmitsWhatBothAdmit | packages/core/src/delegation.ts:405-467 | What is issued admits a use iff both the request and the parent admit it |
| Derivation.RefusalNamesTheFirstBrokenTerm | packages/core/src/delegation.ts:371-421 | Each of the nine refusals iff its term is the first the request breaks; issued iff none is |
| Ledger.ActiveGrantValidatesUnlessAnAncestorIsRevoked | packages/core/src/delegation.ts:103-190 | In any ledger built by issue, derive and revoke, an active grant validates iff no ancestor is revoked and its line fits the cap |
| Ledger.RootDepthBoundsTheLine | packages/core/src/delegation.ts:170-176 | The root's depth bounds every line under it, so depth within the cap suffices for validity |
| Ledger.ResolverKeepsToItsNamespace | examples/fleet-delegation/src/index.ts:34-39 | The ledger answers with a grant iff it is on record under that id and in that namespace, and never throws |
| Ledger.EveryAllowIsRooted | examples/fleet-delegation/src/index.ts:33-45 | Over every run, each allow names a grant whose line ends at an issued root that itself answers the request, no ancestor revoked |
| Ledger.RevocationsStand | examples/fleet-delegation/src/index.ts:33-45 | Over every run a revocation stays on record as stamped |
| Ledger.NoAllowThroughARevokedAncestor | examples/fleet-delegation/src/index.ts:28-45 | Once revoked, no later decision admitted at or after the revocation allows through a descendant, whatever else the run did |
| Ledger.EachStepTakesEffect | examples/fleet-delegation/src/index.ts:33-45 | Over every run a fresh root or derivation goes on record as issued, a first revocation is stamped, and nothing else changes |
| Ledger.WhatIsOnRecordIsHonoured | examples/fleet-delegation/src/index.ts:28-45 | Over every run a recorded grant on its own terms is allowed iff no ancestor is revoked and its line fits the cap |
| Authorizer.GrantUsageStore.TryConsume | packages/core/src/authorization.ts:317-339 | Consumes iff below the bound, adding one to that counter and touching no other |
| Authorizer.CapabilityAuthorizer.NarrowByCeiling | packages/core/src/authorization.ts:746-791 | Asks the ceiling at most once, and reads its answer as the allow it was handed, a policy refusal or a malfunction |
| Authorizer.CapabilityAuthorizer.TakeUse | packages/core/src/authorization.ts:654-681 | Spends one use iff consuming and available; reads the counter otherwise |
| Authorizer.CapabilityAuthorizer.Consider | packages/core/src/authorization.ts:608-683 | One turn of the walk gives the grant's verdict, spends only on a consuming allow and asks the ceiling only about a candidate |
| Authorizer.CapabilityAuthorizer.Decide | packages/core/src/authorization.ts:546-719 | The walk equals the declarative decision and its explanation; exactly the allowed grant's use is spent and exactly the candidates are put to the ceiling |
| Authorizer.CapabilityAuthorizer.Authorize | packages/core/src/authorization.ts:370-391 | Invocation: the decision, and the one use it spends when consuming |
| Authorizer.CapabilityAuthorizer.CanDiscover | packages/core/src/authorization.ts:393-413 | The catalog check decides by ceiling intersection and leaves every counter unchanged |
| Authorizer.CapabilityAuthorizer.ReadBudget | packages/core/src/authorization.ts:526-544 | A bound is available, spent, or unreadable, as the store answers |
| Authorizer.CapabilityAuthorizer.ComputeReach | packages/core/src/authorization.ts:448-524 | Computes the ordered, duplicate-free entries of live grants with a use left, or why it cannot; modifies nothing |
| Authorizer.WalkOnward | packages/core/src/authorization.ts:608-719 | What one more verdict does to the rejections, the exhausted flag, the first policy denial and the worst chain failure |
| Authorization.EachReasonHasItsCause | packages/core/src/authorization.ts:546-719 | For every reason code, an iff over the grants judged alone: which codes a first settling grant gives, and, with none, unverified chains before invalid ones before policy before exhaustion before no match |
| Authorization.DenialNamesTheFirst | packages/core/src/authorization.ts:615-719 | A chain or policy denial carries the account of the first grant that calls for it, unverified chains before invalid ones |
| DecisionTerms.BrokenMeans | packages/core/src/authorization.ts:559-609 | `invalid_context` iff a clock cannot be read or purpose or trace is empty; `invalid_request` iff the context is whole and the request is not proper |
| DecisionTerms.CandidateMeansOnItsTerms | packages/core/src/authorization.ts:615-639 | A grant reaches the ceiling iff issuer, subject, namespace, window against both clocks, purpose, verifier, capability and chain hold field by field |
| DecisionTerms.MatchingMeansServing | packages/core/src/authorization.ts:896-953 | A capability matches a request iff it covers its path, and a ceiling iff it covers some path that continues it |
| DecisionTerms.RejectionNamesTheFirstBrokenTerm | packages/core/src/authorization.ts:815-853 | Each eligibility reason iff its term is the first the grant breaks |
| AllowTerms.AllowIsOnTheGrantsTerms | packages/core/src/authorization.ts:546-683 | Every allow names a presented grant on its own terms, let through by the ceiling and with a use left |
| DecisionTerms.CeilingMeans | packages/core/src/authorization.ts:746-791 | What each answer of a ceiling comes to, and that no policy or no verdict is a malfunction |
| AllowTerms.CeilingAllowsOnlyOnItsWord | packages/core/src/authorization.ts:746-791 | With a ceiling, an allow means it was handed the loaded policy and answered with that grant's id |
| DecisionTerms.BudgetMeans | packages/core/src/authorization.ts:526-544 | Available iff unbounded or counted below the bound; unavailable iff bounded and not countable |
| AllowTerms.LoneGrantDecision | packages/core/src/authorization.ts:546-719 | For a grant presented alone, which of every decision it comes to, with its account |
| AllowTerms.AllowsIffSomeGrantIsOnItsTerms | packages/core/src/authorization.ts:546-719 | Without a ceiling and with countable budgets, allowed iff some grant is on its own terms with a use left |
| DecisionAccount.ExplanationMeans | packages/core/src/authorization.ts:583-600 | An explanation exists iff denied, carries the denial's code and count, and names a dependency iff its absence is the reason |
| DecisionAccount.SpendMeans | packages/core/src/authorization.ts:654-681 | A use is spent iff consuming and the first grant to settle the walk is a bounded one that allows |
| DecisionAccount.ConsultedAreOnTheirTerms | packages/core/src/authorization.ts:641-660 | The ceiling hears of exactly the grants on their own terms, in order, through the one that settles |
| Authorization.JudgeMeans | packages/core/src/authorization.ts:608-683 | Each of a grant's outcomes, exactly: turned away iff ineligible or matching nothing, broken iff its chain is not valid, and beyond that what ceiling and budget say |
| Authorization.AllowNamesACandidate | packages/core/src/authorization.ts:546-683 | Every allow names a presented grant that is live, matching, let through by the ceiling and within budget |
| Authorization.AllowsIffSomeGrantAllows | packages/core/src/authorization.ts:608-719 | With no fail-closed stop, the walk allows iff some grant judged alone allows |
| Authorization.OnlyBudgetsStop | packages/core/src/authorization.ts:662-683 | Without a ceiling only an unreadable budget stops, and the walk allows iff some candidate has a use left |
| Authorization.OrderDoesNotDecide | packages/core/src/authorization.ts:546-719 | With no stop, permuting the grants changes neither outcome nor reason code |
| Authorization.EveryGrantIsAccountedForOnce | packages/core/src/authorization.ts:596-719 | In a full walk each grant is exactly one entry of the rejections, in order and under its own reason, chain or exhaustion, or a policy refusal |
| DecisionLaws.CeilingOnlyNarrows | packages/core/src/authorization.ts:641-660 | With an answering store, what any ceiling allows is allowed without it, and the ceiling said yes to that id |
| DecisionLaws.CeilingWidensIffAStopHidesAnAllow | packages/core/src/authorization.ts:641-683 | Some ceiling allows what is denied without one iff an unreadable budget stops before a grant of another id that would allow |
| DecisionLaws.ACeilingCanWiden | packages/core/src/authorization.ts:641-683 | A concrete decision a ceiling turns from denied to allowed |
| DecisionLaws.LiveIsAntitoneInNow | packages/core/src/authorization.ts:815-853 | Eligible and chain-valid at one reading means so at every earlier one |
| DecisionLaws.EarlierThanAdmissionIsAdmission | packages/core/src/authorization.ts:559-582 | A reading before admission decides as admission |
| DecisionLaws.TurnNeverGainsAuthority | packages/core/src/authorization.ts:559-582 | In any sequence of operations of a turn, with ports that may answer each operation differently, each allow is by a grant that the same answers make a candidate at admission |
| DecisionLaws.DiscoveryIsSomeCallAllowed | packages/core/src/authorization.ts:393-413 | With no host ceiling and an answering store, a tool is offered iff some call at or below its ceiling would be allowed |
| Reach.FilesSortIntoReach | packages/core/src/authorization.ts:467-514 | The keyed map, sorted by its order texts, is ordered, without duplicates, and holds exactly what was filed |
| Reach.TextsDetermineEntries | packages/core/src/authorization.ts:494-506 | Neither the key text nor the order text confuses two entries, under any collation |
| Reach.ReachForgetsArrangement | packages/core/src/authorization.ts:448-524 | The identical sequence for every rearrangement of the grants, of each one's capabilities and of the actions in them, unless the verifier tells rearrangements apart |
| Reach.ArrangementMattersIffTheVerifierLooks | packages/core/src/authorization.ts:448-514 | A grant and its rearrangement reach differently iff the verifier vouches for just one of the two and the grant, vouched for, would show |
| Reach.AVerifierCanLook | packages/core/src/authorization.ts:448-514 | A concrete verifier under which two orders of one grant's actions reach differently |
| Reach.ReachForgetsGrantOrder | packages/core/src/authorization.ts:448-524 | The identical sequence for every permutation of the grants |
| Reach.AllowedIsCovered | packages/core/src/authorization.ts:448-524 | With any ceiling, whatever is allowed some reach entry covers |
| Reach.ReachIsExactlyAuthority | packages/core/src/authorization.ts:448-544 | With no ceiling, a well-formed request is allowed iff some entry of a computed reach covers it |
| ReachTerms.ReachListsWhatIsHeld | packages/core/src/authorization.ts:448-524 | A reach lists exactly the capabilities of this owner's world, of grants held with a use left, actions sorted; it is unavailable iff a held grant cannot be counted, and empty for a broken context |
| Reach.EntriesSitTogether | packages/core/src/authorization.ts:498-512 | Entries of one namespace are contiguous, within them those of one path, within them those of one scope |
| UsageInterleaving.CountersCountConsumingAllows | packages/core/src/authorization.ts:317-339 | Under every schedule each counter has grown by exactly the decisions that are consuming allows naming its bounded grant, and by no more where one id names a bounded and an unbounded grant at once |
| UsageInterleaving.ATwinCanAllowForFree | packages/core/src/authorization.ts:641-683 | A concrete job whose bounded and unbounded grants share an id: one consuming allow, no use spent |
| UsageInterleaving.OnlyConsumingAllowsSpend | packages/core/src/authorization.ts:654-681 | After any schedule one more step leaves a counter unchanged, or adds one because its job has just decided a consuming allow naming that grant |
| UsageInterleaving.NoInterleavingOverspends | packages/core/src/authorization.ts:324-339 | Under every schedule a counter stays within `maxUses`, and so do the consuming allows naming the grant, earlier uses included |
| UsageInterleaving.DescendantsDrawOnNoAncestor | packages/core/src/delegation.ts:177-180 | An allow never draws on an ancestor: its chain holds no bounded one |
| UsageInterleaving.AloneIsTheDecision | packages/core/src/authorization.ts:546-719 | A job nobody interleaves with ends with the decision and spend of the walk |
| Json.RenderReadsBack | packages/core/src/internal.ts:18-31 | A reader gets back each value, surrogates and escapes included, whatever follows it in the text |
| Json.RenderIsInjective | packages/core/src/internal.ts:18-31 | No two values share a text |
| Json.OnlyWhatMustBeEscapedIs | packages/core/src/internal.ts:25-30 | A unit is raw iff it is no quote, backslash, control or lone surrogate; the others are escaped by letter or lower-case hex |
| Json.PlainTextIsQuotedAsItIs | packages/core/src/internal.ts:25-30 | Plain text, and a surrogate pair, stands between its quotes unchanged |
| Json.LiteralsAreTheStandards | packages/core/src/internal.ts:18-31 | The literals and empty containers as section 3 of RFC 8259 writes them |
| Json.ArraysAreTheStandards | packages/core/src/internal.ts:18-31 | Brackets and commas as section 5 of RFC 8259 has them |
| Json.ObjectsAreTheStandards | packages/core/src/internal.ts:18-31 | Braces, colons and commas as section 4 of RFC 8259 has them |
| CanonicalJson.CanonicalJsonInOnePass | packages/core/src/internal.ts:18-31 | Sorting at each level while writing, as the code does, is normalizing first and rendering |
| CanonicalJson.KeysComeInCollationOrder | packages/core/src/internal.ts:23-27 | What is written holds every object's keys in collation order, at every depth |
| CanonicalJson.CanonicalJsonHasAnInverse | packages/core/src/internal.ts:18-31 | Parsing the text gives the value back, equal up to key order |
| CanonicalJson.EqualTextsMeanEqualValues | packages/core/src/internal.ts:18-31 | Equal texts mean values equal modulo key order, under any collation |
| CanonicalJson.EncodingIsEqualityModuloKeyOrder | packages/core/src/internal.ts:18-31 | Equal texts iff equal modulo key order, where the collation separates each object's keys |
| CanonicalJson.KeyOrderIsForgottenIffCollationIsTotal | packages/core/src/hashing.ts:8-13 | Key order never changes the text iff the collation ties no two distinct keys |
| CanonicalJson.TiedKeysKeepTheirOrder | packages/core/src/internal.ts:18-31 | For any two distinct keys a collation ties, two equal objects with two texts |
| CanonicalJson.AddressesEqualIsStructural | packages/core/src/internal.ts:282-284 | Comparing addresses by text is structural equality, under any collation |
| CanonicalJson.AddressIsItsKindAndId | packages/contracts/src/address.ts:5-23 | Each of the four kinds is written with its own id field |
| ReadJson.ReadJsonValue | packages/core/src/internal.ts:109-161 | Both modes refuse iff something beneath is not JSON, and return the value with every `__proto__` key dropped; on parser output the copy-on-write mode copies only on the way to a dropped key |
| ReadJson.ReadArray | packages/core/src/internal.ts:120-137 | The element loop of either mode meets that specification |
| ReadJson.ReadRecord | packages/core/src/internal.ts:138-184 | The key loop of either mode, its late copy included, meets that specification |
| ReadJson.WrittenIsSameIffNothingDropped | packages/core/src/internal.ts:99-137 | On parser output the original container comes back iff nothing beneath it was dropped |
| ReadJson.BothModesGiveTheSameContents | packages/core/src/internal.ts:51-86 | On parser output the two modes refuse alike and return equal values |
| ReadJson.RefusedForWhatIsBeneath | packages/core/src/internal.ts:109-141 | A value is refused iff a non-finite number, a non-JSON leaf or a foreign object stands somewhere in it |
| ReadJson.NothingElseIsDropped | packages/core/src/internal.ts:120-161 | In either mode every path that names no `__proto__` leads, after reading, to what it led to before |
| ReadJson.ReadingIsIdempotent | packages/core/src/internal.ts:51-161 | In either mode, and in the copying mode for any value at all, what was read is readable, holds no `__proto__` key at any depth and reads back as itself |
| Authority.CanonicalSetNamesTheMultiset | packages/core/src/authority.ts:272-276 | The hashed form is equal for two grant lists iff they hold the same texts equally often, in any order |
| Authority.LoneGrantsAreNamedByValue | packages/core/src/authority.ts:272-276 | One grant's form is equal to another's iff the grants are equal modulo key order |
| Authority.CanonicalSetNamesTheGrants | packages/core/src/authority.ts:272-276 | For lists of any length, the forms are equal iff the grants pair off one to one, equal modulo key order |
| Authority.SnapshotNamesTheGrants | packages/core/src/authority.ts:272-293 | Snapshots of the same grants have one hash, and under a collision-free digest only those; ids are sorted and complete, the count and the instant the source's |
| Authority.EachUnavailabilityHasItsCause | packages/core/src/authority.ts:229-309 | Each way of being unavailable iff its cause, a defect named by the first candidate with one and by its first field out of scope |
| Authority.ResolvedIsWholeAndInScope | packages/core/src/authority.ts:229-270 | Authority resolves iff the whole list is within the limit, well-formed and in scope; otherwise nothing of it is used |
| Authority.TrustedAuthorityResolver.TakeSnapshot | packages/core/src/authority.ts:272-293 | The memoized digest is the direct one, for any history of calls; what is remembered afterwards, never more than 64 |
| Authority.TrustedAuthorityResolver.Resolve | packages/core/src/authority.ts:229-270 | The loop returns the whole set or the first defect, keeping the memo correct |
| Authority.TurnKeyIsEveryFieldButTwo | packages/core/src/authority.ts:10-31 | Two contexts share a turn key iff they agree on every field but `now` and `enabledToolNamespaces` |
| Transcript.TranscriptChannel.Read | packages/adapters/src/transcript.ts:58-79 | The next frame of what has been heard so far, and none, moving nothing, once that is used up |
| Transcript.TranscriptChannel.Write | packages/adapters/src/transcript.ts:81-85 | Appends the frame, unlocks one batch and moves no reader |
| Transcript.HeardGrows | packages/adapters/src/transcript.ts:8-18 | What has been heard after more results extends what was heard after fewer |
| Transcript.OneBatchPerResult | packages/adapters/src/transcript.ts:8-18 | Before any result the first batch is heard, and each result adds the next |
| HarnessSession.ReasonSurvivesTheAffordance | packages/runtime/src/escalation.ts:159-194 | A trimmed reason of at most 512 units, written as the affordance's arguments, is read back word for word |
| HarnessSession.SeatCalls.Release | packages/adapters/src/seat.ts:157-163 | Releases are numbered from zero and the step is the one declared for that number |
| HarnessSession.Session.DrainPending | packages/adapters/src/driver.ts:164-190 | The queue is consumed up to its first step that is not prose, whose decision is returned; prose is kept |
| HarnessSession.Session.ReadUntilDecided | packages/adapters/src/driver.ts:142-159 | The bounded loop of draining and reading equals its recursive form over the frames heard |
| HarnessSession.Session.Next | packages/adapters/src/driver.ts:137-160 | One call is one step of the turn as a value, and writes the encoded result iff one came in |
| HarnessLaws.NextTakesStepsInOrder | packages/adapters/src/driver.ts:137-190 | For any transcript and codec, each call takes its decision from the front of what is outstanding: no step lost, repeated or overtaken |
| HarnessLaws.PollDecidesIffWithinTheLimit | packages/adapters/src/driver.ts:142-159 | A call decides iff the first step that is not prose comes before the frame limit; otherwise it fails for want of frames or for too many, exactly |
| HarnessLaws.NextSaysAsTheStepDoes | packages/adapters/src/driver.ts:137-190 | A call decides as its first step that is not prose says: the output of a completion, or where it has none, or null, the prose so far, the error, the escalation's reason, or the stamped call with its declared step |
| HarnessLaws.NextReadsNoFartherThanItMay | packages/adapters/src/driver.ts:137-160 | A call decides iff no more than `maxIgnoredFrames` frames lead up to a step that is not prose; which of its two failures it comes to otherwise, and how far it has read |
| HarnessLaws.LinesGrow | packages/adapters/src/driver.ts:177-177 | Prose is joined by one line feed between messages |
| ScriptedColumn.IssuedIsTheIssuableInOrder | packages/conformance/src/columns.ts:335-348 | The nested loops visit exactly the attempts of this turn that name a tool and are neither unreachable nor an inspection, once each, as declared |
| ScriptedColumn.MovesToTranscript | packages/conformance/src/columns.ts:328-363 | One batch per issuable attempt, one for a declared ending, one that completes |
| ScriptedColumn.EndingIsTheFirstDeclared | packages/conformance/src/columns.ts:525-532 | The ending is the first a move declares, of either kind, with its reason |
| ScriptedColumn.OverBudgetStep | packages/conformance/src/columns.ts:534-568 | The declared step is the step ceiling at the last over-budget release and nowhere else, unless the tool budget is spent there |
| ScriptedReplay.ReplayYieldsWhatWasDeclared | packages/adapters/src/driver.ts:137-190 | A written transcript replays as one call of `next` per declared call, numbered as released, then its escalation, or a completion with the output and metadata its closing frame is read as; it never fails |
| ScriptedReplay.EveryAttemptIsPlayedIff | packages/conformance/src/columns.ts:328-363 | Every issuable attempt is played in order, id, tool, arguments and stamps as declared, iff the turn does not hold the escalate tool or no issuable attempt names it |
| ScriptedReplay.AnAttemptCanEndTheTurn | packages/conformance/src/columns.ts:328-363 | A concrete move of two issuable attempts whose replay is one escalation |
| ScriptedReplay.TheDeclaredEndingFollows | packages/conformance/src/columns.ts:350-360 | After the attempts comes the declared escalation with its reason, or, ungranted, the same call in full without a step and then the completion |
| ScriptedReplay.StepIsDeclaredOnTheLastOverBudgetAttempt | packages/conformance/src/columns.ts:534-568 | In a replay a step is declared exactly on the last over-budget attempt, guard and ceiling permitting |

## Left out

- Date parsing, SHA-256, locale collation and `String.prototype.trim`: parameters. Nothing is assumed of them unless a theorem says so.
- Promises, abort signals and structured clones: each port call is one atomic step. `UsageInterleaving` interleaves calls grant by grant over one store. A grant's judgement reads the store only at its last gate, and `tryConsume` has no await between its read and its write.
- Ports other than the store are functions of their arguments during one decision: a resolver or a ceiling that answers the same question differently within one call is not modelled. From one call to the next they may change.
- `TurnNeverGainsAuthority`: the candidate at admission is judged by the port answers of the operation that allows, so a resolver that failed at admission and answers later can still let a grant in.
- `CountersCountConsumingAllows`: a decision names a grant by its id alone, so where a host presents a bounded and an unbounded grant under one id the count is an upper bound (`UsageInterleaving.ATwinCanAllowForFree`).
- `ApplyCeiling` reads a ceiling's answer as an allow, a refusal with metadata, or anything else. The ways JavaScript can produce "anything else" are not told apart.
- Grant metadata, and every grant field no decision reads. `Authority` handles the whole grant as JSON material beside the part that is decided on.
- Minted capability descriptions, diagnostics, audit prose and the text of error messages.
- Zod schema parsing: a field's type is its schema, and `Authority` takes well-formedness of loaded material as a given predicate on it.
- JavaScript object detail: prototypes, getters, proxies, holes in arrays, `deepFreeze`, and the language's own reordering of integer-like keys. An object is a list of entries; `ReadJson` adds inherited entries and identity.
- A JSON number is the text `JSON.stringify` writes for it; the conversion of doubles to decimal is not modelled.
- The 64-segment bound the schema puts on paths: capabilities denote requests over paths of any length.
- `ReadJson.ReadJsonValue`: an array and a record are read by two methods of their own; the source has both loops in one function.
- `HarnessSession.Session.ReadUntilDecided`: the body of the loop in `next`, as a method of its own.
- Vendor codecs: `ScriptedReplay.ReadsBack` is the hypothesis that a reader gives back what its writer wrote.
- The loop that drives `next`, its step budget and the envelope that refuses calls: a replay answers each call with an arbitrary result.
- `TranscriptTransport`'s record of opened requests, session `close`, and prompt composition and hashing in `driver.ts` and `seat.ts`.
- `attemptArguments` and forged grants: an attempt carries the arguments it is issued with.
- `movesToModelTranscript`, conformance grading, the manifest, MCP and process runtimes, the client, and the example hosts beyond the delegation ledger.
