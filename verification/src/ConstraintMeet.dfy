/** The tightest envelope several envelopes share (`tightestConstraints`). */
module ConstraintMeet {
  import opened Foundations
  import opened Contracts
  import opened Activity
  import opened ConstraintOrder

  // ----- What the meet has to be

  ghost predicate NamesPurposes(sets: seq<Constraints>) {
    exists c :: c in sets && c.purposes.Some?
  }

  ghost predicate IsCommonPurpose(sets: seq<Constraints>, purpose: Text) {
    forall c :: c in sets && c.purposes.Some? ==> purpose in c.purposes.value
  }

  ghost predicate HasBroken(sets: seq<Constraints>) {
    exists c :: c in sets && !IsReadable(c)
  }

  /** Nothing can be written down: an unreadable bound, no common purpose, or a start past an end. */
  ghost predicate Disjoint(sets: seq<Constraints>) {
    || HasBroken(sets)
    || (NamesPurposes(sets) && forall p :: !IsCommonPurpose(sets, p))
    || exists a, b :: StartsAfterEnd(sets, a, b)
  }

  ghost predicate StartsAfterEnd(sets: seq<Constraints>, a: Constraints, b: Constraints) {
    && a in sets && b in sets
    && a.notBefore.Some? && a.notBefore.value.Readable?
    && b.expiresAt.Some? && b.expiresAt.value.Readable?
    && a.notBefore.value.at > b.expiresAt.value.at
  }

  /** Bound `k` is at least as tight as every other, and tighter than every earlier one. */
  ghost predicate IsTightestAt(bounds: seq<Option<Timestamp>>, k: int, edge: Edge) {
    && 0 <= k < |bounds| && bounds[k].Some? && bounds[k].value.Readable?
    && forall i :: 0 <= i < |bounds| && bounds[i].Some? ==>
         && bounds[i].value.Readable?
         && (if edge == Start then bounds[i].value.at <= bounds[k].value.at
             else bounds[k].value.at <= bounds[i].value.at)
         && (i < k ==> bounds[i].value.at != bounds[k].value.at)
  }

  /** `m` is what the first envelope with the tightest bound says, or absent when none has one. */
  ghost predicate IsTightestBound(bounds: seq<Option<Timestamp>>, m: Option<Timestamp>, edge: Edge) {
    if m.None? then forall i :: 0 <= i < |bounds| ==> bounds[i].None?
    else exists k :: IsTightestAt(bounds, k, edge) && bounds[k] == m
  }

  lemma Tighten(bounds: seq<Option<Timestamp>>, m: Option<Timestamp>, next: Option<Timestamp>, edge: Edge)
    requires IsTightestBound(bounds, m, edge) && !IsBroken(next)
    ensures
      var tighter := next.Some? && (m.None? ||
        if edge == Start then next.value.at > m.value.at else next.value.at < m.value.at);
      IsTightestBound(bounds + [next], if tighter then next else m, edge)
  {
    var all := bounds + [next];
    var tighter := next.Some? && (m.None? ||
      if edge == Start then next.value.at > m.value.at else next.value.at < m.value.at);
    if tighter {
      forall i | 0 <= i < |bounds| && bounds[i].Some?
        ensures bounds[i].value.Readable? && bounds[i].value.at != next.value.at
        ensures if edge == Start then bounds[i].value.at <= next.value.at else next.value.at <= bounds[i].value.at
      {
        assert m.Some?;
        var k :| IsTightestAt(bounds, k, edge) && bounds[k] == m;
      }
      assert IsTightestAt(all, |bounds|, edge) && all[|bounds|] == next;
    } else if m.Some? {
      var k :| IsTightestAt(bounds, k, edge) && bounds[k] == m;
      assert all[k] == m && IsTightestAt(all, k, edge);
    }
  }

  ghost predicate IsLeast(counts: seq<Option<int>>, m: Option<int>) {
    match m
    case None => forall i :: 0 <= i < |counts| ==> counts[i].None?
    case Some(least) =>
      && m in counts
      && forall i :: 0 <= i < |counts| && counts[i].Some? ==> least <= counts[i].value
  }

  function Starts(sets: seq<Constraints>): seq<Option<Timestamp>> {
    seq(|sets|, i requires 0 <= i < |sets| => sets[i].notBefore)
  }

  function Ends(sets: seq<Constraints>): seq<Option<Timestamp>> {
    seq(|sets|, i requires 0 <= i < |sets| => sets[i].expiresAt)
  }

  function Uses(sets: seq<Constraints>): seq<Option<int>> {
    seq(|sets|, i requires 0 <= i < |sets| => sets[i].maxUses)
  }

  function Depths(sets: seq<Constraints>): seq<Option<int>> {
    seq(|sets|, i requires 0 <= i < |sets| => sets[i].delegationDepth)
  }

  /** In code-unit order, none twice. */
  ghost predicate StrictlySorted(s: seq<Text>) {
    forall i, j :: 0 <= i < j < |s| ==> TextBefore(s[i], s[j])
  }

  ghost predicate IsTightest(sets: seq<Constraints>, m: Constraints) {
    && (m.purposes.Some? <==> NamesPurposes(sets))
    && (m.purposes.Some? ==>
          && StrictlySorted(m.purposes.value)
          && forall p :: p in m.purposes.value <==> IsCommonPurpose(sets, p))
    && IsTightestBound(Starts(sets), m.notBefore, Start)
    && IsTightestBound(Ends(sets), m.expiresAt, End)
    && IsLeast(Uses(sets), m.maxUses)
    && IsLeast(Depths(sets), m.delegationDepth)
  }

  ghost predicate Tightest(sets: seq<Constraints>, result: Option<Constraints>) {
    && (result.None? <==> Disjoint(sets))
    && (result.Some? ==> IsTightest(sets, result.value))
  }

  // ----- The computation

  /** `new Set(list)`, in insertion order. */
  function Distinct(list: seq<Text>): (s: seq<Text>)
    ensures forall p :: p in s <==> p in list
    ensures NoneTwice(s)
  {
    if list == [] then []
    else
      var s := Distinct(list[..|list| - 1]);
      var last := list[|list| - 1];
      assert list == list[..|list| - 1] + [last];
      if last in s then s else s + [last]
  }

  function Keep(s: seq<Text>, allowed: seq<Text>): (kept: seq<Text>)
    requires NoneTwice(s)
    ensures forall p :: p in kept <==> p in s && p in allowed
    ensures NoneTwice(kept)
  {
    if s == [] then []
    else
      assert s == [s[0]] + s[1..];
      var rest := Keep(s[1..], allowed);
      if s[0] in allowed then [s[0]] + rest else rest
  }

  lemma DistinctSortsStrictly(s: seq<Text>)
    requires NoneTwice(s)
    ensures StrictlySorted(Sort(TextBefore, s))
    ensures forall p :: p in Sort(TextBefore, s) <==> p in s
  {
    hide Sort, TextBefore;
    var r := Sort(TextBefore, s);
    TextBeforeIsTotalOrder();
    SortSorts(TextBefore, s);
    forall p ensures p in r <==> p in s { SameMembers(r, s, p); }
    forall i, j | 0 <= i < j < |r| ensures r[i] != r[j] {
      OccursTwice(r, i, j);
      CountedOnce(s, r[i]);
    }
  }

  ghost predicate AreCommonPurposes(sets: seq<Constraints>, purposes: Option<seq<Text>>) {
    && (purposes.Some? <==> NamesPurposes(sets))
    && (purposes.Some? ==>
          && NoneTwice(purposes.value)
          && forall p :: p in purposes.value <==> IsCommonPurpose(sets, p))
  }

  lemma NarrowPurposes(sets: seq<Constraints>, purposes: Option<seq<Text>>, c: Constraints)
    requires AreCommonPurposes(sets, purposes)
    ensures AreCommonPurposes(sets + [c],
      if c.purposes.None? then purposes
      else if purposes.None? then Some(Distinct(c.purposes.value))
      else Some(Keep(purposes.value, Distinct(c.purposes.value))))
  {
    var all := sets + [c];
    assert c in all;
    forall p ensures IsCommonPurpose(all, p) <==>
      IsCommonPurpose(sets, p) && (c.purposes.Some? ==> p in c.purposes.value) {
      assert forall d :: d in all <==> d in sets || d == c;
    }
    assert forall d :: d in all <==> d in sets || d == c;
    if NamesPurposes(sets) {
      var d :| d in sets && d.purposes.Some?;
      assert d in all;
    }
  }

  lemma BoundsConflict(sets: seq<Constraints>, start: Option<Timestamp>, end: Option<Timestamp>)
    requires !HasBroken(sets)
    requires IsTightestBound(Starts(sets), start, Start) && IsTightestBound(Ends(sets), end, End)
    ensures (exists a, b :: StartsAfterEnd(sets, a, b))
      <==> start.Some? && end.Some? && start.value.at > end.value.at
  {
    if exists a, b :: StartsAfterEnd(sets, a, b) {
      var a, b :| StartsAfterEnd(sets, a, b);
      var i :| 0 <= i < |sets| && sets[i] == a;
      var j :| 0 <= j < |sets| && sets[j] == b;
      assert Starts(sets)[i] == a.notBefore && Ends(sets)[j] == b.expiresAt;
    }
    if start.Some? && end.Some? && start.value.at > end.value.at {
      var i :| IsTightestAt(Starts(sets), i, Start) && Starts(sets)[i] == start;
      var j :| IsTightestAt(Ends(sets), j, End) && Ends(sets)[j] == end;
      assert StartsAfterEnd(sets, sets[i], sets[j]);
    }
  }

  /** What the five accumulators hold once the first `k` envelopes have been read. */
  ghost predicate Accumulated(sets: seq<Constraints>, k: nat, purposes: Option<seq<Text>>,
                              notBefore: Option<Timestamp>, expiresAt: Option<Timestamp>,
                              maxUses: Option<int>, delegationDepth: Option<int>)
    requires k <= |sets|
  {
    && !HasBroken(sets[..k])
    && AreCommonPurposes(sets[..k], purposes)
    && IsTightestBound(Starts(sets[..k]), notBefore, Start)
    && IsTightestBound(Ends(sets[..k]), expiresAt, End)
    && IsLeast(Uses(sets[..k]), maxUses)
    && IsLeast(Depths(sets[..k]), delegationDepth)
  }

  function Tighter(m: Option<Timestamp>, next: Option<Timestamp>, edge: Edge): Option<Timestamp>
    requires !IsBroken(m) && !IsBroken(next)
  {
    if next.Some? && (m.None? || if edge == Start then next.value.at > m.value.at else next.value.at < m.value.at)
    then next else m
  }

  function Fewer(m: Option<int>, next: Option<int>): Option<int> {
    if next.None? then m else if m.None? then next else Some(Min(m.value, next.value))
  }

  lemma Accumulate(sets: seq<Constraints>, k: nat, purposes: Option<seq<Text>>,
                   notBefore: Option<Timestamp>, expiresAt: Option<Timestamp>,
                   maxUses: Option<int>, delegationDepth: Option<int>)
    requires k < |sets| && IsReadable(sets[k])
    requires Accumulated(sets, k, purposes, notBefore, expiresAt, maxUses, delegationDepth)
    ensures !IsBroken(notBefore) && !IsBroken(expiresAt)
    ensures
      var c := sets[k];
      Accumulated(sets, k + 1,
        if c.purposes.None? then purposes
        else if purposes.None? then Some(Distinct(c.purposes.value))
        else Some(Keep(purposes.value, Distinct(c.purposes.value))),
        Tighter(notBefore, c.notBefore, Start), Tighter(expiresAt, c.expiresAt, End),
        Fewer(maxUses, c.maxUses), Fewer(delegationDepth, c.delegationDepth))
  {
    var c := sets[k];
    var before, now := sets[..k], sets[..k + 1];
    assert now == before + [c];
    assert Starts(now) == Starts(before) + [c.notBefore] && Ends(now) == Ends(before) + [c.expiresAt];
    assert Uses(now) == Uses(before) + [c.maxUses] && Depths(now) == Depths(before) + [c.delegationDepth];
    NarrowPurposes(before, purposes, c);
    Tighten(Starts(before), notBefore, c.notBefore, Start);
    Tighten(Ends(before), expiresAt, c.expiresAt, End);
  }

  lemma Accumulation(sets: seq<Constraints>, purposes: Option<seq<Text>>,
                     notBefore: Option<Timestamp>, expiresAt: Option<Timestamp>,
                     maxUses: Option<int>, delegationDepth: Option<int>)
    requires Accumulated(sets, |sets|, purposes, notBefore, expiresAt, maxUses, delegationDepth)
    ensures !IsBroken(notBefore) && !IsBroken(expiresAt)
    ensures Tightest(sets,
      if purposes == Some([]) then None
      else if notBefore.Some? && expiresAt.Some? && notBefore.value.at > expiresAt.value.at then None
      else Some(Constraints(
        if purposes.None? then None else Some(Sort(TextBefore, purposes.value)),
        notBefore, expiresAt, maxUses, delegationDepth)))
  {
    hide IsTightestBound, IsLeast, IsCommonPurpose, StrictlySorted, Sort, StartsAfterEnd, HasBroken, NamesPurposes;
    assert sets[..|sets|] == sets;
    TightestIsReadable(Starts(sets), notBefore, Start);
    TightestIsReadable(Ends(sets), expiresAt, End);
    BoundsConflict(sets, notBefore, expiresAt);
    NoCommonPurpose(sets, purposes);
  }

  lemma TightestIsReadable(bounds: seq<Option<Timestamp>>, m: Option<Timestamp>, edge: Edge)
    requires IsTightestBound(bounds, m, edge)
    ensures !IsBroken(m)
  {
  }

  lemma NoCommonPurpose(sets: seq<Constraints>, purposes: Option<seq<Text>>)
    requires AreCommonPurposes(sets, purposes)
    ensures purposes == Some([]) <==> NamesPurposes(sets) && forall p :: !IsCommonPurpose(sets, p)
    ensures purposes.Some? ==>
      && StrictlySorted(Sort(TextBefore, purposes.value))
      && forall p :: p in Sort(TextBefore, purposes.value) <==> IsCommonPurpose(sets, p)
  {
    if purposes.Some? {
      DistinctSortsStrictly(purposes.value);
      assert purposes.value != [] ==> purposes.value[0] in purposes.value;
    }
  }

  method TightestConstraints(sets: seq<Constraints>) returns (result: Option<Constraints>)
    ensures Tightest(sets, result)
  {
    var purposes: Option<seq<Text>> := None;
    var notBefore: Option<Timestamp> := None;
    var expiresAt: Option<Timestamp> := None;
    var maxUses: Option<int> := None;
    var delegationDepth: Option<int> := None;

    for k := 0 to |sets|
      invariant Accumulated(sets, k, purposes, notBefore, expiresAt, maxUses, delegationDepth)
    {
      var constraints := sets[k];
      assert constraints in sets;
      if IsReadable(constraints) {
        Accumulate(sets, k, purposes, notBefore, expiresAt, maxUses, delegationDepth);
      }
      if constraints.purposes.Some? {
        var allowed := Distinct(constraints.purposes.value);
        purposes := Some(if purposes.None? then allowed else Keep(purposes.value, allowed));
      }
      if constraints.notBefore.Some? {
        var at := ParseTimestamp(constraints.notBefore);
        if at.None? { return None; }
        if notBefore.None? || at.value > notBefore.value.at { notBefore := constraints.notBefore; }
      }
      if constraints.expiresAt.Some? {
        var at := ParseTimestamp(constraints.expiresAt);
        if at.None? { return None; }
        if expiresAt.None? || at.value < expiresAt.value.at { expiresAt := constraints.expiresAt; }
      }
      if constraints.maxUses.Some? {
        maxUses := Some(if maxUses.None? then constraints.maxUses.value
                        else Min(maxUses.value, constraints.maxUses.value));
      }
      if constraints.delegationDepth.Some? {
        delegationDepth := Some(if delegationDepth.None? then constraints.delegationDepth.value
                                else Min(delegationDepth.value, constraints.delegationDepth.value));
      }
    }
    Accumulation(sets, purposes, notBefore, expiresAt, maxUses, delegationDepth);
    if purposes.Some? && purposes.value == [] { return None; }
    if notBefore.Some? && expiresAt.Some? && notBefore.value.at > expiresAt.value.at { return None; }
    return Some(Constraints(
      if purposes.None? then None else Some(Sort(TextBefore, purposes.value)),
      notBefore, expiresAt, maxUses, delegationDepth));
  }

  // ----- What the meet means

  /** The universal property: a readable envelope is within the meet iff it is within every input. */
  lemma MeetIsGreatestLowerBound(sets: seq<Constraints>, m: Constraints)
    requires Tightest(sets, Some(m))
    ensures forall c :: c in sets ==> ConstraintsAreWithin(m, c)
    ensures forall e :: IsReadable(e) ==>
      (ConstraintsAreWithin(e, m) <==> forall c :: c in sets ==> ConstraintsAreWithin(e, c))
  {
    forall c | c in sets ensures ConstraintsAreWithin(m, c) { MeetIsWithin(sets, m, c); }
    forall e | IsReadable(e)
      ensures ConstraintsAreWithin(e, m) <==> forall c :: c in sets ==> ConstraintsAreWithin(e, c)
    {
      if ConstraintsAreWithin(e, m) {
        forall c | c in sets ensures ConstraintsAreWithin(e, c) { WithinIsTransitive(e, m, c); }
      }
      if forall c :: c in sets ==> ConstraintsAreWithin(e, c) { LowerBoundIsWithinMeet(sets, m, e); }
    }
  }

  lemma MeetIsWithin(sets: seq<Constraints>, m: Constraints, c: Constraints)
    requires Tightest(sets, Some(m)) && c in sets
    ensures ConstraintsAreWithin(m, c)
  {
    var i :| 0 <= i < |sets| && sets[i] == c;
    assert Starts(sets)[i] == c.notBefore && Ends(sets)[i] == c.expiresAt;
    assert IsReadable(c);
  }

  lemma LowerBoundIsWithinMeet(sets: seq<Constraints>, m: Constraints, e: Constraints)
    requires Tightest(sets, Some(m)) && IsReadable(e)
    requires forall c :: c in sets ==> ConstraintsAreWithin(e, c)
    ensures ConstraintsAreWithin(e, m)
  {
    if m.purposes.Some? {
      var c :| c in sets && c.purposes.Some?;
      forall p | p in e.purposes.value ensures IsCommonPurpose(sets, p) {
        forall c | c in sets && c.purposes.Some? ensures p in c.purposes.value
        { assert ConstraintsAreWithin(e, c); }
      }
    }
    if m.notBefore.Some? {
      var k :| IsTightestAt(Starts(sets), k, Start) && Starts(sets)[k] == m.notBefore;
      assert ConstraintsAreWithin(e, sets[k]);
    }
    if m.expiresAt.Some? {
      var k :| IsTightestAt(Ends(sets), k, End) && Ends(sets)[k] == m.expiresAt;
      assert ConstraintsAreWithin(e, sets[k]);
    }
  }

  ghost predicate IsCommonUse(sets: seq<Constraints>, purpose: Text, at: Instants) {
    forall c :: c in sets ==> Admits(c, purpose, at)
  }

  /** The meet admits exactly the uses every input admits; no meet means no common use. */
  lemma MeetAdmitsTheIntersection(sets: seq<Constraints>, result: Option<Constraints>, purpose: Text, at: Instants)
    requires Tightest(sets, result)
    ensures IsCommonUse(sets, purpose, at) <==> result.Some? && Admits(result.value, purpose, at)
  {
    CommonUseRulesOutDisjoint(sets, purpose, at);
    if result.Some? {
      var m := result.value;
      if Admits(m, purpose, at) {
        forall c | c in sets ensures Admits(c, purpose, at) { MeetIsWithin(sets, m, c); }
      }
      if IsCommonUse(sets, purpose, at) {
        assert IsCommonPurpose(sets, purpose);
        if m.notBefore.Some? {
          var k :| IsTightestAt(Starts(sets), k, Start) && Starts(sets)[k] == m.notBefore;
          assert Admits(sets[k], purpose, at);
        }
        if m.expiresAt.Some? {
          var k :| IsTightestAt(Ends(sets), k, End) && Ends(sets)[k] == m.expiresAt;
          assert Admits(sets[k], purpose, at);
        }
      }
    }
  }

  lemma CommonUseRulesOutDisjoint(sets: seq<Constraints>, purpose: Text, at: Instants)
    ensures IsCommonUse(sets, purpose, at) ==> !Disjoint(sets)
  {
    if IsCommonUse(sets, purpose, at) {
      assert IsCommonPurpose(sets, purpose);
      forall a, b ensures !StartsAfterEnd(sets, a, b) {
        assert a in sets ==> Admits(a, purpose, at);
        assert b in sets ==> Admits(b, purpose, at);
      }
    }
  }

  /** No meet is more than no common use: a window that closes the instant it opens still has one. */
  lemma NoCommonUseMeansNoneOrEmptyWindow(sets: seq<Constraints>, result: Option<Constraints>)
    requires Tightest(sets, result)
    ensures (forall purpose, at :: !IsCommonUse(sets, purpose, at))
      <==> result.None? || (result.value.notBefore.Some? && result.value.expiresAt.Some?
                             && result.value.notBefore.value.at == result.value.expiresAt.value.at)
  {
    forall purpose, at
      ensures IsCommonUse(sets, purpose, at) <==> result.Some? && Admits(result.value, purpose, at)
    { MeetAdmitsTheIntersection(sets, result, purpose, at); }
    if result.Some? {
      MeetBoundsDoNotCross(sets, result.value);
      SatisfiableMeansSomethingAdmitted(result.value);
    }
  }

  /** It happens: one envelope ends at the instant another starts. */
  lemma AMeetCanAdmitNothing() returns (sets: seq<Constraints>, m: Constraints)
    ensures Tightest(sets, Some(m))
    ensures forall purpose, at :: !IsCommonUse(sets, purpose, at)
  {
    var instant := Some(Readable([], 0));
    m := Constraints(None, instant, instant, None, None);
    sets := [m.(expiresAt := None), m.(notBefore := None)];
    assert IsTightestAt(Starts(sets), 0, Start) && IsTightestAt(Ends(sets), 1, End);
    forall purpose, at ensures !IsCommonUse(sets, purpose, at) {
      assert sets[0] in sets && sets[1] in sets;
    }
  }

  /** The counts of the meet are the smallest any input names, and its bounds are spelled as the first to name them. */
  lemma MeetTakesTheFewest(sets: seq<Constraints>, m: Constraints, k: nat)
    requires Tightest(sets, Some(m)) && k < |sets|
    ensures sets[k].maxUses.Some? ==> m.maxUses.Some? && m.maxUses.value <= sets[k].maxUses.value
    ensures sets[k].delegationDepth.Some? ==>
      m.delegationDepth.Some? && m.delegationDepth.value <= sets[k].delegationDepth.value
    ensures m.maxUses.Some? ==> exists c :: c in sets && c.maxUses == m.maxUses
    ensures m.delegationDepth.Some? ==> exists c :: c in sets && c.delegationDepth == m.delegationDepth
    ensures
      && m.notBefore.Some? && ParseTimestamp(sets[k].notBefore) == ParseTimestamp(m.notBefore)
      && (forall j :: 0 <= j < k ==> ParseTimestamp(sets[j].notBefore) != ParseTimestamp(m.notBefore))
      ==> m.notBefore == sets[k].notBefore
    ensures
      && m.expiresAt.Some? && ParseTimestamp(sets[k].expiresAt) == ParseTimestamp(m.expiresAt)
      && (forall j :: 0 <= j < k ==> ParseTimestamp(sets[j].expiresAt) != ParseTimestamp(m.expiresAt))
      ==> m.expiresAt == sets[k].expiresAt
  {
    assert Uses(sets)[k] == sets[k].maxUses && Depths(sets)[k] == sets[k].delegationDepth;
    assert Starts(sets)[k] == sets[k].notBefore && Ends(sets)[k] == sets[k].expiresAt;
    if m.maxUses.Some? {
      var i :| 0 <= i < |sets| && Uses(sets)[i] == m.maxUses;
      assert sets[i] in sets;
    }
    if m.delegationDepth.Some? {
      var i :| 0 <= i < |sets| && Depths(sets)[i] == m.delegationDepth;
      assert sets[i] in sets;
    }
    if m.notBefore.Some? {
      var i :| IsTightestAt(Starts(sets), i, Start) && Starts(sets)[i] == m.notBefore;
      assert sets[i].notBefore == m.notBefore;
    }
    if m.expiresAt.Some? {
      var i :| IsTightestAt(Ends(sets), i, End) && Ends(sets)[i] == m.expiresAt;
      assert sets[i].expiresAt == m.expiresAt;
    }
  }

  lemma MeetBoundsDoNotCross(sets: seq<Constraints>, m: Constraints)
    requires Tightest(sets, Some(m))
    ensures IsReadable(m) && (m.purposes.Some? ==> m.purposes.value != [])
    ensures m.notBefore.Some? && m.expiresAt.Some? ==> m.notBefore.value.at <= m.expiresAt.value.at
  {
    BoundsConflict(sets, m.notBefore, m.expiresAt);
    if m.purposes.Some? {
      var p :| IsCommonPurpose(sets, p);
      assert p in m.purposes.value;
    }
  }

  /** Two timestamps that name one instant, or two absent bounds. */
  predicate SameInstant(a: Option<Timestamp>, b: Option<Timestamp>) {
    a.Some? == b.Some? && ParseTimestamp(a) == ParseTimestamp(b)
  }

  /** Input order changes nothing but which of two spellings of one instant is kept. */
  lemma MeetForgetsInputOrder(sets: seq<Constraints>, shuffled: seq<Constraints>,
                              result: Option<Constraints>, again: Option<Constraints>)
    requires multiset(sets) == multiset(shuffled)
    requires Tightest(sets, result) && Tightest(shuffled, again)
    ensures result.None? <==> again.None?
    ensures result.Some? ==>
      var m, n := result.value, again.value;
      && m.purposes == n.purposes && m.maxUses == n.maxUses && m.delegationDepth == n.delegationDepth
      && SameInstant(m.notBefore, n.notBefore) && SameInstant(m.expiresAt, n.expiresAt)
  {
    forall c ensures c in sets <==> c in shuffled { SameMembers(sets, shuffled, c); }
    DisjointDependsOnMembers(sets, shuffled);
    DisjointDependsOnMembers(shuffled, sets);
    if result.Some? {
      var m, n := result.value, again.value;
      SameMembersEverywhere(sets, shuffled);
      SameMembersEverywhere(shuffled, sets);
      SameLeast(Uses(sets), Uses(shuffled), m.maxUses, n.maxUses);
      SameLeast(Depths(sets), Depths(shuffled), m.delegationDepth, n.delegationDepth);
      assert NamesPurposes(sets) == NamesPurposes(shuffled);
      if m.purposes.Some? {
        assert forall p :: IsCommonPurpose(sets, p) <==> IsCommonPurpose(shuffled, p);
        SortedSetsAgree(m.purposes.value, n.purposes.value);
      }
      SameBound(Starts(sets), Starts(shuffled), m.notBefore, n.notBefore, Start);
      SameBound(Ends(sets), Ends(shuffled), m.expiresAt, n.expiresAt, End);
    }
  }

  lemma DisjointDependsOnMembers(sets: seq<Constraints>, shuffled: seq<Constraints>)
    requires forall c :: c in sets <==> c in shuffled
    ensures Disjoint(sets) ==> Disjoint(shuffled)
  {
    if exists a, b :: StartsAfterEnd(sets, a, b) {
      var a, b :| StartsAfterEnd(sets, a, b);
      assert StartsAfterEnd(shuffled, a, b);
    } else if Disjoint(sets) && !HasBroken(sets) {
      assert forall p :: IsCommonPurpose(shuffled, p) ==> IsCommonPurpose(sets, p);
    }
  }

  lemma SortedSetsAgree(s: seq<Text>, t: seq<Text>)
    requires StrictlySorted(s) && StrictlySorted(t)
    requires forall p :: p in s <==> p in t
    ensures s == t
  {
    TextBeforeIsTotalOrder();
    SameSetSameMultiset(s, t);
    SortedArrangementsAgree(TextBefore, s, t);
  }

  lemma SameBound(bounds: seq<Option<Timestamp>>, shuffled: seq<Option<Timestamp>>,
                  m: Option<Timestamp>, n: Option<Timestamp>, edge: Edge)
    requires forall b :: b in bounds <==> b in shuffled
    requires IsTightestBound(bounds, m, edge) && IsTightestBound(shuffled, n, edge)
    ensures SameInstant(m, n)
  {
    assert m.Some? ==> m in bounds && m in shuffled;
    assert n.Some? ==> n in bounds && n in shuffled;
  }

  lemma SameMembersEverywhere(sets: seq<Constraints>, shuffled: seq<Constraints>)
    requires forall c :: c in sets ==> c in shuffled
    ensures forall b :: b in Starts(sets) ==> b in Starts(shuffled)
    ensures forall b :: b in Ends(sets) ==> b in Ends(shuffled)
    ensures forall u :: u in Uses(sets) ==> u in Uses(shuffled)
    ensures forall d :: d in Depths(sets) ==> d in Depths(shuffled)
  {
    forall i | 0 <= i < |sets|
      ensures Starts(sets)[i] in Starts(shuffled) && Ends(sets)[i] in Ends(shuffled)
      ensures Uses(sets)[i] in Uses(shuffled) && Depths(sets)[i] in Depths(shuffled)
    {
      assert sets[i] in sets;
      var j :| 0 <= j < |shuffled| && shuffled[j] == sets[i];
      assert Starts(shuffled)[j] == sets[i].notBefore && Ends(shuffled)[j] == sets[i].expiresAt;
      assert Uses(shuffled)[j] == sets[i].maxUses && Depths(shuffled)[j] == sets[i].delegationDepth;
    }
  }

  lemma SameLeast(counts: seq<Option<int>>, shuffled: seq<Option<int>>, m: Option<int>, n: Option<int>)
    requires forall c :: c in counts <==> c in shuffled
    requires IsLeast(counts, m) && IsLeast(shuffled, n)
    ensures m == n
  {
    assert m.Some? ==> m in counts && m in shuffled;
    assert n.Some? ==> n in counts && n in shuffled;
  }
}
