/** The one ordering on constraint envelopes, and its meet (`constraints.ts`). */
module ConstraintOrder {
  import opened Foundations
  import opened Contracts
  import opened Activity

  datatype EnvelopeField = Purposes | NotBefore | ExpiresAt
  datatype Edge = Start | End

  predicate InstantIsWithin(inner: Option<Timestamp>, outer: Option<Timestamp>, edge: Edge) {
    var innerAt := ParseTimestamp(inner);
    var outerAt := ParseTimestamp(outer);
    if (inner.Some? && innerAt.None?) || (outer.Some? && outerAt.None?) then false
    else if outerAt.None? then true
    else if innerAt.None? then false
    else if edge == Start then innerAt.value >= outerAt.value
    else innerAt.value <= outerAt.value
  }

  function ConstraintEnvelopeViolation(inner: Constraints, outer: Constraints): Option<EnvelopeField> {
    if outer.purposes.Some? && inner.purposes.None? then Some(Purposes)
    else if outer.purposes.Some? && exists p :: p in inner.purposes.value && p !in outer.purposes.value
      then Some(Purposes)
    else if !InstantIsWithin(inner.notBefore, outer.notBefore, Start) then Some(NotBefore)
    else if !InstantIsWithin(inner.expiresAt, outer.expiresAt, End) then Some(ExpiresAt)
    else None
  }

  predicate ConstraintsAreWithin(inner: Constraints, outer: Constraints) {
    ConstraintEnvelopeViolation(inner, outer).None?
  }

  /** Every purpose the inner names the outer names too; no list on the outside takes any. */
  ghost predicate PurposesFit(inner: Constraints, outer: Constraints) {
    outer.purposes.Some? ==> inner.purposes.Some? && forall p :: p in inner.purposes.value ==> p in outer.purposes.value
  }

  ghost predicate StartFits(inner: Constraints, outer: Constraints) {
    && !IsBroken(inner.notBefore) && !IsBroken(outer.notBefore)
    && (outer.notBefore.Some? ==> inner.notBefore.Some? && outer.notBefore.value.at <= inner.notBefore.value.at)
  }

  ghost predicate EndFits(inner: Constraints, outer: Constraints) {
    && !IsBroken(inner.expiresAt) && !IsBroken(outer.expiresAt)
    && (outer.expiresAt.Some? ==> inner.expiresAt.Some? && inner.expiresAt.value.at <= outer.expiresAt.value.at)
  }

  /** A violation names the first field that does not fit: purposes, start, end. */
  lemma ViolationNamesTheFirstField(inner: Constraints, outer: Constraints)
    ensures
      var violation := ConstraintEnvelopeViolation(inner, outer);
      && (violation == Some(Purposes) <==> !PurposesFit(inner, outer))
      && (violation == Some(NotBefore) <==> PurposesFit(inner, outer) && !StartFits(inner, outer))
      && (violation == Some(ExpiresAt) <==> PurposesFit(inner, outer) && StartFits(inner, outer) && !EndFits(inner, outer))
      && (ConstraintsAreWithin(inner, outer) <==> PurposesFit(inner, outer) && StartFits(inner, outer) && EndFits(inner, outer))
  {
  }

  // ----- The check against what envelopes admit

  predicate IsReadable(c: Constraints) { !IsBroken(c.notBefore) && !IsBroken(c.expiresAt) }

  /** Admits something: readable, naming a purpose if it names any list, its window not empty. */
  predicate IsSatisfiable(c: Constraints) {
    && IsReadable(c)
    && (c.purposes.Some? ==> c.purposes.value != [])
    && (c.notBefore.Some? && c.expiresAt.Some? ==> c.notBefore.value.at < c.expiresAt.value.at)
  }

  ghost predicate AdmitsOnlyWhat(inner: Constraints, outer: Constraints) {
    forall purpose, at :: Admits(inner, purpose, at) ==> Admits(outer, purpose, at)
  }

  /** Some use of a satisfiable envelope, placed at the start or just before the end it names. */
  function WitnessPurpose(c: Constraints): Text {
    if c.purposes.Some? && c.purposes.value != [] then c.purposes.value[0] else []
  }

  function WitnessInstant(c: Constraints): int
    requires IsReadable(c)
  {
    match (c.notBefore, c.expiresAt)
    case (Some(start), _) => start.at
    case (None, Some(end)) => end.at - 1
    case (None, None) => 0
  }

  lemma SatisfiableMeansSomethingAdmitted(c: Constraints)
    ensures IsSatisfiable(c) <==> exists purpose, at :: Admits(c, purpose, at)
  {
    if IsSatisfiable(c) {
      var t := WitnessInstant(c);
      assert Admits(c, WitnessPurpose(c), Instants(t, t));
    }
  }

  lemma WithinIsSound(inner: Constraints, outer: Constraints)
    requires ConstraintsAreWithin(inner, outer)
    ensures AdmitsOnlyWhat(inner, outer)
  {
  }

  /**
   * The check decides containment for every satisfiable inner envelope, and only for those:
   * an envelope that admits nothing is contained in everything, yet some outer one refuses it.
   */
  lemma WithinDecidesContainment(inner: Constraints)
    ensures IsSatisfiable(inner) <==>
      forall outer :: ConstraintsAreWithin(inner, outer) <==> AdmitsOnlyWhat(inner, outer)
  {
    if IsSatisfiable(inner) {
      forall outer
        ensures ConstraintsAreWithin(inner, outer) <==> AdmitsOnlyWhat(inner, outer)
      {
        if AdmitsOnlyWhat(inner, outer) { ContainedIsWithin(inner, outer); }
      }
    } else {
      SatisfiableMeansSomethingAdmitted(inner);
      var broken := Constraints(None, Some(Unreadable([])), None, None, None);
      assert AdmitsOnlyWhat(inner, broken) && !ConstraintsAreWithin(inner, broken);
    }
  }

  /** It happens with readable bounds on both sides: a window that never opens, held against an earlier end. */
  lemma ContainedCanBeRefused() returns (inner: Constraints, outer: Constraints)
    ensures IsReadable(inner) && IsReadable(outer)
    ensures AdmitsOnlyWhat(inner, outer) && !ConstraintsAreWithin(inner, outer)
  {
    inner := Constraints(None, Some(Readable([], 1)), Some(Readable([], 1)), None, None);
    outer := Constraints(None, None, Some(Readable([], 0)), None, None);
  }

  lemma ContainedIsWithin(inner: Constraints, outer: Constraints)
    requires IsSatisfiable(inner) && AdmitsOnlyWhat(inner, outer)
    ensures ConstraintsAreWithin(inner, outer)
  {
    var t, purpose := WitnessInstant(inner), WitnessPurpose(inner);
    assert Admits(inner, purpose, Instants(t, t)) && Admits(outer, purpose, Instants(t, t));
    // A purpose only an unlisted-purposes envelope admits, and each listed one.
    var unlisted := AbsentText(if outer.purposes.Some? then outer.purposes.value else []);
    assert Admits(inner, unlisted, Instants(t, t)) ==> Admits(outer, unlisted, Instants(t, t));
    if inner.purposes.Some? {
      forall p | p in inner.purposes.value ensures outer.purposes.Some? ==> p in outer.purposes.value
      { assert Admits(inner, p, Instants(t, t)); }
    }
    // The earliest and the latest instant the inner envelope admits, when outer bounds them.
    if outer.notBefore.Some? {
      var early := if inner.notBefore.Some? then inner.notBefore.value.at
                   else Min(t, outer.notBefore.value.at - 1);
      assert Admits(inner, purpose, Instants(early, early)) ==> Admits(outer, purpose, Instants(early, early));
    }
    if outer.expiresAt.Some? {
      var late := if inner.expiresAt.Some? then inner.expiresAt.value.at - 1
                  else Max(t, outer.expiresAt.value.at);
      assert Admits(inner, purpose, Instants(t, late)) ==> Admits(outer, purpose, Instants(t, late));
    }
  }

  function Min(a: int, b: int): int { if a < b then a else b }

  /** A text longer than any listed one, hence not listed. */
  function AbsentText(s: seq<Text>): (absent: Text)
    ensures absent !in s
    ensures forall t :: t in s ==> |t| < |absent|
  {
    if s == [] then [0]
    else
      var rest := AbsentText(s[1..]);
      if |s[0]| < |rest| then rest else s[0] + [0]
  }

  lemma WithinIsTransitive(a: Constraints, b: Constraints, c: Constraints)
    requires ConstraintsAreWithin(a, b) && ConstraintsAreWithin(b, c)
    ensures ConstraintsAreWithin(a, c)
  {
  }

  lemma WithinIsReflexiveOnReadable(c: Constraints)
    ensures ConstraintsAreWithin(c, c) <==> IsReadable(c)
  {
  }
}
