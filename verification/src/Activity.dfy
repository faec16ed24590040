/** When a grant considered alone is in force (the clock and path rules of `internal.ts`). */
module Activity {
  import opened Foundations
  import opened Contracts

  function ParseTimestamp(value: Option<Timestamp>): Option<int> {
    match value
    case Some(Readable(_, at)) => Some(at)
    case _ => None
  }

  /** Present, but not a timestamp: never the same thing as absent. */
  predicate IsBroken(value: Option<Timestamp>) { value.Some? && value.value.Unreadable? }

  predicate PathsEqual(left: seq<Text>, right: seq<Text>) {
    |left| == |right| && forall i :: 0 <= i < |left| ==> left[i] == right[i]
  }

  predicate PathIsWithin(parent: seq<Text>, candidate: seq<Text>) {
    |parent| <= |candidate| && forall i :: 0 <= i < |parent| ==> parent[i] == candidate[i]
  }

  lemma WithinMeansPrefix(p: seq<Text>, c: seq<Text>)
    ensures PathIsWithin(p, c) <==> p <= c
    ensures PathsEqual(p, c) <==> p == c
  {
  }

  datatype Inactivity = Window | Purpose

  function GrantInactiveReason(grant: Grant, purpose: Text, at: Instants): (reason: Option<Inactivity>) {
    var issuedAt := ParseTimestamp(Some(grant.issuedAt));
    var notBefore := ParseTimestamp(grant.constraints.notBefore);
    var expiresAt := ParseTimestamp(grant.constraints.expiresAt);
    var revokedAt := ParseTimestamp(grant.revokedAt);
    var expiryObservedAt := Max(at.admittedAt, at.now);
    if || issuedAt.None?
       || issuedAt.value > at.admittedAt
       || (grant.constraints.notBefore.Some? && notBefore.None?)
       || (notBefore.Some? && at.admittedAt < notBefore.value)
       || (grant.constraints.expiresAt.Some? && expiresAt.None?)
       || (expiresAt.Some? && expiryObservedAt >= expiresAt.value)
       || (grant.revokedAt.Some? && revokedAt.None?)
       || (revokedAt.Some? && at.admittedAt >= revokedAt.value)
    then Some(Window)
    else if grant.constraints.purposes.None? || purpose in grant.constraints.purposes.value then None
    else Some(Purpose)
  }

  predicate GrantIsActive(grant: Grant, purpose: Text, at: Instants) {
    GrantInactiveReason(grant, purpose, at).None?
  }

  // ----- What an envelope means

  /** An envelope as the set of uses it admits: a start judged at admission, an end at the later instant. */
  predicate Admits(constraints: Constraints, purpose: Text, at: Instants) {
    && (match constraints.notBefore
        case None => true
        case Some(Unreadable(_)) => false
        case Some(Readable(_, start)) => start <= at.admittedAt)
    && (match constraints.expiresAt
        case None => true
        case Some(Unreadable(_)) => false
        case Some(Readable(_, end)) => at.admittedAt < end && at.now < end)
    && (constraints.purposes.Some? ==> purpose in constraints.purposes.value)
  }

  /** A revocation seen by a turn admitted at `admittedAt`; one that cannot be read is always seen. */
  predicate RevokedBy(grant: Grant, admittedAt: int) {
    match grant.revokedAt
    case None => false
    case Some(Unreadable(_)) => true
    case Some(Readable(_, stamp)) => stamp <= admittedAt
  }

  lemma ActiveMeansAdmittedAndUnrevoked(grant: Grant, purpose: Text, at: Instants)
    ensures GrantIsActive(grant, purpose, at) <==>
      && grant.issuedAt.Readable? && grant.issuedAt.at <= at.admittedAt
      && Admits(grant.constraints, purpose, at)
      && !RevokedBy(grant, at.admittedAt)
  {
  }

  /** Which of the two reasons: the purpose is only named for a grant whose window is open. */
  lemma InactivityNamesTheWindowFirst(grant: Grant, purpose: Text, at: Instants)
    ensures
      var anyPurpose := grant.(constraints := grant.constraints.(purposes := None));
      var reason := GrantInactiveReason(grant, purpose, at);
      && (reason == Some(Window) <==> !GrantIsActive(anyPurpose, purpose, at))
      && (reason == Some(Purpose) <==>
            && GrantIsActive(anyPurpose, purpose, at)
            && grant.constraints.purposes.Some? && purpose !in grant.constraints.purposes.value)
  {
  }

  /** The operation clock only removes: a later reading never revives, an earlier one adds nothing. */
  lemma OperationClockOnlyRemoves(grant: Grant, purpose: Text, admittedAt: int, now: int, later: int)
    requires now <= later
    ensures GrantIsActive(grant, purpose, Instants(admittedAt, later))
        ==> GrantIsActive(grant, purpose, Instants(admittedAt, now))
    ensures now <= admittedAt ==>
        GrantInactiveReason(grant, purpose, Instants(admittedAt, now))
        == GrantInactiveReason(grant, purpose, Instants(admittedAt, admittedAt))
  {
  }
}
