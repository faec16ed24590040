/** The boundary authority is loaded through, the snapshot that names it, and the turn it is held for. */
module Authority {
  import opened Foundations
  import opened Contracts
  import J = Json
  import C = CanonicalJson

  const MAX_RESOLVED_GRANTS := 256
  const MAX_CACHED_SNAPSHOTS := 64

  datatype ScopeMismatch = NamespaceOutOfScope | SubjectOutOfScope | IssuerOutOfScope

  datatype UnavailableCode = GrantSourceFailed | InvalidGrantMaterial | GrantScopeMismatch | GrantLimitExceeded

  /** A grant as the schema parsed it, with the JSON value it is. */
  datatype Material = Material(grant: Grant, json: J.Json)

  /** What a source answered: a throw, something that is no list, or candidates, `None` where the schema refuses one. */
  datatype Loaded = SourceThrew | NotAList | Candidates(list: seq<Option<Material>>)

  datatype Snapshot = Snapshot(hash: Text, grantIds: seq<Text>, grantCount: nat, loadedAt: Timestamp)

  datatype Resolution =
    | Resolved(context: Context, grants: seq<Material>, snapshot: Snapshot)
    | Unavailable(code: UnavailableCode, detail: Option<(Text, ScopeMismatch)>)

  function GrantScope(grant: Grant, context: Context): Option<ScopeMismatch> {
    if grant.namespaceId != context.namespaceId then Some(NamespaceOutOfScope)
    else if grant.subject != context.actor then Some(SubjectOutOfScope)
    else if grant.issuer != context.authority then Some(IssuerOutOfScope)
    else None
  }

  // ----- The snapshot's canonical form

  function CanonicalGrants(before: C.Collation, grants: seq<Material>): (texts: seq<Text>)
    ensures |texts| == |grants|
    ensures forall i :: 0 <= i < |texts| ==> texts[i] == C.CanonicalJson(before, grants[i].json)
  {
    seq(|grants|, i requires 0 <= i < |grants| => C.CanonicalJson(before, grants[i].json))
  }

  function StringsJson(texts: seq<Text>): J.Json {
    J.JArray(seq(|texts|, i requires 0 <= i < |texts| => J.JString(texts[i])))
  }

  /** `canonicalJson([...grants.map(canonicalJson)].sort())`. */
  function CanonicalSet(before: C.Collation, grants: seq<Material>): Text {
    C.CanonicalJson(before, StringsJson(Sort(TextBefore, CanonicalGrants(before, grants))))
  }

  lemma StringsJsonDetermines(before: C.Collation, s: seq<Text>, t: seq<Text>)
    ensures C.CanonicalJson(before, StringsJson(s)) == C.CanonicalJson(before, StringsJson(t)) <==> s == t
  {
    var v, w := StringsJson(s), StringsJson(t);
    C.EqualTextsMeanEqualValues(before, v, w);
    if C.EqualModuloKeyOrder(v, w) {
      forall i | 0 <= i < |s| ensures s[i] == t[i] { assert C.EqualModuloKeyOrder(v.items[i], w.items[i]); }
    }
  }

  /** The form names the multiset of grants: the same form exactly for the same grants, however often and in whatever order. */
  lemma CanonicalSetNamesTheMultiset(before: C.Collation, grants: seq<Material>, others: seq<Material>)
    ensures CanonicalSet(before, grants) == CanonicalSet(before, others)
      <==> multiset(CanonicalGrants(before, grants)) == multiset(CanonicalGrants(before, others))
  {
    hide Sort, C.CanonicalJson, StringsJson, TextBefore;
    var s, t := CanonicalGrants(before, grants), CanonicalGrants(before, others);
    StringsJsonDetermines(before, Sort(TextBefore, s), Sort(TextBefore, t));
    TextBeforeIsTotalOrder();
    if multiset(s) == multiset(t) { SortForgetsOrder(TextBefore, s, t); }
  }

  /** ... and one grant's text is that grant, up to the order of its keys. */
  lemma LoneGrantsAreNamedByValue(before: C.Collation, g: Material, h: Material)
    requires IsWeakOrder(before) && J.IsJson(g.json) && J.IsJson(h.json) && C.KeysSeparate(before, g.json)
    ensures CanonicalSet(before, [g]) == CanonicalSet(before, [h]) <==> C.EqualModuloKeyOrder(g.json, h.json)
  {
    hide Sort, C.CanonicalJson, StringsJson, C.EqualModuloKeyOrder;
    C.EncodingIsEqualityModuloKeyOrder(before, g.json, h.json);
    CanonicalSetNamesTheMultiset(before, [g], [h]);
    var s, t := CanonicalGrants(before, [g]), CanonicalGrants(before, [h]);
    assert s == [s[0]] && t == [t[0]];
    assert s[0] in multiset(s) && t[0] in multiset(t);
  }

  /** The grants of two lists paired off, each with one of the same value. */
  ghost predicate IsSameSet(grants: seq<Material>, others: seq<Material>, order: seq<nat>) {
    |grants| == |others| && IsPermutation(order, |grants|)
    && forall i :: 0 <= i < |grants| ==> C.EqualModuloKeyOrder(grants[i].json, others[order[i]].json)
  }

  ghost predicate AreJson(grants: seq<Material>) { forall i :: 0 <= i < |grants| ==> J.IsJson(grants[i].json) }

  /** Any number of grants: the same form exactly when the lists pair off by value, up to key order. */
  lemma CanonicalSetNamesTheGrants(before: C.Collation, grants: seq<Material>, others: seq<Material>)
    requires IsWeakOrder(before) && AreJson(grants) && AreJson(others)
    requires forall i :: 0 <= i < |grants| ==> C.KeysSeparate(before, grants[i].json)
    ensures CanonicalSet(before, grants) == CanonicalSet(before, others) <==> exists order :: IsSameSet(grants, others, order)
  {
    hide Sort, C.CanonicalJson, CanonicalSet, C.EqualModuloKeyOrder, J.IsJson, C.KeysSeparate;
    CanonicalSetNamesTheMultiset(before, grants, others);
    var s, t := CanonicalGrants(before, grants), CanonicalGrants(before, others);
    forall i, j | 0 <= i < |grants| && 0 <= j < |others|
      ensures s[i] == t[j] <==> C.EqualModuloKeyOrder(grants[i].json, others[j].json)
    {
      C.EncodingIsEqualityModuloKeyOrder(before, grants[i].json, others[j].json);
    }
    if multiset(s) == multiset(t) {
      var order := PairOff(s, t);
      assert IsSameSet(grants, others, order);
    }
    if order :| IsSameSet(grants, others, order) {
      assert IsPairing(s, t, order);
      PairedHaveSameMembers(s, t, order);
    }
  }

  function SnapshotOf(sha256: Text -> Text, before: C.Collation, grants: seq<Material>, loadedAt: Timestamp): Snapshot {
    Snapshot(sha256(CanonicalSet(before, grants)),
             Sort(TextBefore, seq(|grants|, i requires 0 <= i < |grants| => grants[i].grant.id)),
             |grants|, loadedAt)
  }

  /** No two texts share a digest: what a hash is relied on for. */
  ghost predicate TellsApart(sha256: Text -> Text) { forall a, b :: a != b ==> sha256(a) != sha256(b) }

  /**
   * A snapshot's hash names the grants: equal for equal sets, however ordered, and under a digest
   * without collisions for no others. The rest of it counts and lists them, and says when.
   */
  lemma SnapshotNamesTheGrants(sha256: Text -> Text, before: C.Collation, grants: seq<Material>, others: seq<Material>,
                               loadedAt: Timestamp, again: Timestamp)
    requires IsWeakOrder(before) && AreJson(grants) && AreJson(others)
    requires forall i :: 0 <= i < |grants| ==> C.KeysSeparate(before, grants[i].json)
    ensures
      var (s, t) := (SnapshotOf(sha256, before, grants, loadedAt), SnapshotOf(sha256, before, others, again));
      && ((exists order :: IsSameSet(grants, others, order)) ==> s.hash == t.hash)
      && (TellsApart(sha256) && s.hash == t.hash ==> exists order :: IsSameSet(grants, others, order))
    ensures
      var s := SnapshotOf(sha256, before, grants, loadedAt);
      && s.grantCount == |grants| == |s.grantIds| && s.loadedAt == loadedAt
      && Sorted(TextBefore, s.grantIds)
      && multiset(s.grantIds) == multiset(seq(|grants|, i requires 0 <= i < |grants| => grants[i].grant.id))
  {
    hide Sort, CanonicalSet, IsSameSet, AreJson, C.KeysSeparate, TextBefore;
    CanonicalSetNamesTheGrants(before, grants, others);
    TextBeforeIsTotalOrder();
    SortSorts(TextBefore, seq(|grants|, i requires 0 <= i < |grants| => grants[i].grant.id));
  }

  // ----- Resolution as a function of what was loaded

  predicate IsUsable(candidate: Option<Material>, context: Context) {
    candidate.Some? && GrantScope(candidate.value.grant, context).None?
  }

  function FirstUnusable(list: seq<Option<Material>>, context: Context): (i: nat)
    ensures i <= |list|
    ensures i < |list| ==> !IsUsable(list[i], context)
    ensures forall j :: 0 <= j < i ==> IsUsable(list[j], context)
  {
    FirstIndex((candidate: Option<Material>) => !IsUsable(candidate, context), list)
  }

  function Usable(list: seq<Option<Material>>): seq<Material>
    requires forall i :: 0 <= i < |list| ==> list[i].Some?
  {
    seq(|list|, i requires 0 <= i < |list| => list[i].value)
  }

  /** All of it or none: the first defect found makes the whole set unavailable. */
  ghost predicate IsResolution(loaded: Loaded, context: Context, sha256: Text -> Text, before: C.Collation, r: Resolution) {
    match loaded
    case SourceThrew => r == Unavailable(GrantSourceFailed, None)
    case NotAList => r == Unavailable(InvalidGrantMaterial, None)
    case Candidates(list) =>
      if |list| > MAX_RESOLVED_GRANTS then r == Unavailable(GrantLimitExceeded, None)
      else
        var i := FirstUnusable(list, context);
        if i == |list| then r == Resolved(context, Usable(list), SnapshotOf(sha256, before, Usable(list), context.now))
        else if list[i].None? then r == Unavailable(InvalidGrantMaterial, None)
        else r == Unavailable(GrantScopeMismatch, Some((list[i].value.grant.id, GrantScope(list[i].value.grant, context).value)))
  }

  /** What is resolved is within scope and within the limit, down to the last grant. */
  lemma ResolvedIsWholeAndInScope(loaded: Loaded, context: Context, sha256: Text -> Text, before: C.Collation, r: Resolution)
    requires IsResolution(loaded, context, sha256, before, r)
    ensures r.Resolved? <==>
      && loaded.Candidates? && |loaded.list| <= MAX_RESOLVED_GRANTS
      && forall i :: 0 <= i < |loaded.list| ==> IsUsable(loaded.list[i], context)
    ensures r.Resolved? ==> forall m :: m in r.grants ==>
      m.grant.namespaceId == context.namespaceId && m.grant.subject == context.actor && m.grant.issuer == context.authority
  {
    hide CanonicalSet, Sort;
    if loaded.Candidates? && FirstUnusable(loaded.list, context) < |loaded.list| {
      assert !IsUsable(loaded.list[FirstUnusable(loaded.list, context)], context);
    }
  }

  /** Why a candidate cannot be used: nothing where it can, `None` inside where it is no grant, else the first field out of scope. */
  ghost function Defect(candidate: Option<Material>, context: Context): Option<Option<ScopeMismatch>> {
    if candidate.None? then Some(None)
    else if candidate.value.grant.namespaceId != context.namespaceId then Some(Some(NamespaceOutOfScope))
    else if candidate.value.grant.subject != context.actor then Some(Some(SubjectOutOfScope))
    else if candidate.value.grant.issuer != context.authority then Some(Some(IssuerOutOfScope))
    else None
  }

  ghost predicate IsFirstDefect(list: seq<Option<Material>>, context: Context, i: int) {
    0 <= i < |list| && Defect(list[i], context).Some? && forall j :: 0 <= j < i ==> Defect(list[j], context).None?
  }

  /** Every way to be unavailable, by its cause; a defect is named by the first candidate that has one. */
  lemma EachUnavailabilityHasItsCause(
    loaded: Loaded, context: Context, sha256: Text -> Text, before: C.Collation, r: Resolution)
    requires IsResolution(loaded, context, sha256, before, r)
    ensures r == Unavailable(GrantSourceFailed, None) <==> loaded.SourceThrew?
    ensures r == Unavailable(GrantLimitExceeded, None) <==> loaded.Candidates? && |loaded.list| > 256
    ensures loaded.NotAList? ==> r == Unavailable(InvalidGrantMaterial, None)
    ensures loaded.Candidates? && |loaded.list| <= 256 ==>
      && (r.Resolved? <==> forall i :: 0 <= i < |loaded.list| ==> Defect(loaded.list[i], context).None?)
      && (r.Resolved? ==>
        && r.context == context && r.snapshot == SnapshotOf(sha256, before, r.grants, context.now)
        && |r.grants| == |loaded.list| && forall i :: 0 <= i < |r.grants| ==> loaded.list[i] == Some(r.grants[i]))
      && (forall i :: IsFirstDefect(loaded.list, context, i) ==>
        r == match Defect(loaded.list[i], context).value
             case None => Unavailable(InvalidGrantMaterial, None)
             case Some(field) => Unavailable(GrantScopeMismatch, Some((loaded.list[i].value.grant.id, field))))
  {
    hide CanonicalSet, Sort, SnapshotOf;
    if loaded.Candidates? {
      forall c ensures IsUsable(c, context) <==> Defect(c, context).None? {}
      assert IsFirstDefect(loaded.list, context, FirstUnusable(loaded.list, context))
        || FirstUnusable(loaded.list, context) == |loaded.list|;
    }
  }

  class TrustedAuthorityResolver {
    const sha256: Text -> Text
    const collation: C.Collation
    var snapshotHashes: map<Text, Text>

    constructor (sha256: Text -> Text, collation: C.Collation)
      ensures Valid() && this.sha256 == sha256 && this.collation == collation
    {
      this.sha256 := sha256;
      this.collation := collation;
      snapshotHashes := map[];
    }

    /** Every remembered digest is the digest, and no more than 64 are remembered. */
    ghost predicate Valid()
      reads this
    {
      && |snapshotHashes| <= MAX_CACHED_SNAPSHOTS
      && forall canonical :: canonical in snapshotHashes ==> snapshotHashes[canonical] == sha256(canonical)
    }

    method TakeSnapshot(grants: seq<Material>, loadedAt: Timestamp) returns (snapshot: Snapshot)
      requires Valid()
      modifies this
      ensures Valid()
      ensures snapshot == SnapshotOf(sha256, collation, grants, loadedAt)
      ensures CanonicalSet(collation, grants) in snapshotHashes && |snapshotHashes| <= 64
      // A form met before changes nothing; a new one is remembered, by itself once 64 are.
      ensures snapshotHashes ==
        (if CanonicalSet(collation, grants) in old(snapshotHashes) then old(snapshotHashes)
         else (if |old(snapshotHashes)| < 64 then old(snapshotHashes) else map[])
           [CanonicalSet(collation, grants) := sha256(CanonicalSet(collation, grants))])
    {
      hide CanonicalSet, Sort;
      var canonical := CanonicalSet(collation, grants);
      var hash;
      if canonical in snapshotHashes {
        hash := snapshotHashes[canonical];
      } else {
        hash := sha256(canonical);
        if |snapshotHashes| >= MAX_CACHED_SNAPSHOTS { snapshotHashes := map[]; }
        snapshotHashes := snapshotHashes[canonical := hash];
      }
      snapshot := Snapshot(hash,
        Sort(TextBefore, seq(|grants|, i requires 0 <= i < |grants| => grants[i].grant.id)), |grants|, loadedAt);
    }

    method Resolve(context: Context, loaded: Loaded) returns (resolution: Resolution)
      requires Valid()
      modifies this
      ensures Valid()
      ensures IsResolution(loaded, context, sha256, collation, resolution)
    {
      hide CanonicalSet, Sort, SnapshotOf;
      if loaded.SourceThrew? { return Unavailable(GrantSourceFailed, None); }
      if loaded.NotAList? { return Unavailable(InvalidGrantMaterial, None); }
      var list := loaded.list;
      if |list| > MAX_RESOLVED_GRANTS { return Unavailable(GrantLimitExceeded, None); }
      var grants: seq<Material> := [];
      for k := 0 to |list|
        invariant forall j :: 0 <= j < k ==> IsUsable(list[j], context)
        invariant grants == Usable(list[..k])
      {
        if list[k].None? {
          assert FirstUnusable(list, context) == k;
          return Unavailable(InvalidGrantMaterial, None);
        }
        var material := list[k].value;
        var mismatch := GrantScope(material.grant, context);
        if mismatch.Some? {
          assert FirstUnusable(list, context) == k;
          return Unavailable(GrantScopeMismatch, Some((material.grant.id, mismatch.value)));
        }
        grants := grants + [material];
      }
      assert list[..|list|] == list && FirstUnusable(list, context) == |list|;
      var snapshot := TakeSnapshot(grants, context.now);
      return Resolved(context, grants, snapshot);
    }
  }

  // ----- The turn a frozen authority is held for

  function TurnFields(context: Context): seq<J.Entry> {
    [J.Entry(Ascii("namespaceId"), J.JString(context.namespaceId)),
     J.Entry(Ascii("actor"), C.AddressJson(context.actor)),
     J.Entry(Ascii("authority"), C.AddressJson(context.authority)),
     J.Entry(Ascii("owner"), C.AddressJson(context.owner)),
     J.Entry(Ascii("purpose"), J.JString(context.purpose)),
     J.Entry(Ascii("traceId"), J.JString(context.traceId))]
  }

  function ExecutionField(context: Context): seq<J.Entry> {
    if context.executionId.None? then []
    else [J.Entry(Ascii("executionId"), J.JString(context.executionId.value))]
  }

  function TurnJson(context: Context): J.Json {
    J.JObject(ExecutionField(context) + TurnFields(context))
  }

  function TurnAuthorityKey(before: C.Collation, context: Context): Text {
    C.CanonicalJson(before, TurnJson(context))
  }

  lemma SevenKeysDiffer()
    ensures |Ascii("executionId")| == 11 == |Ascii("namespaceId")| && Ascii("executionId")[0] != Ascii("namespaceId")[0]
    ensures |Ascii("actor")| == 5 == |Ascii("owner")| && Ascii("actor")[0] != Ascii("owner")[0]
    ensures |Ascii("purpose")| == 7 == |Ascii("traceId")| && Ascii("purpose")[0] != Ascii("traceId")[0]
    ensures |Ascii("authority")| == 9
  {
  }

  lemma TurnJsonIsJson(context: Context)
    ensures J.IsJson(TurnJson(context))
    ensures J.KeysAreDistinct(TurnJson(context).entries)
  {
    hide J.IsJson, C.AddressJson;
    SevenKeysDiffer();
    var entries := TurnJson(context).entries;
    C.AddressJsonDetermines(context.actor, context.actor);
    C.AddressJsonDetermines(context.authority, context.authority);
    C.AddressJsonDetermines(context.owner, context.owner);
    StringsAreJson(entries);
  }

  lemma StringsAreJson(entries: seq<J.Entry>)
    requires J.KeysAreDistinct(entries)
    requires forall i :: 0 <= i < |entries| ==> entries[i].value.JString? || J.IsJson(entries[i].value)
    ensures J.IsJson(J.JObject(entries))
  {
  }

  /** The same turn: contexts that differ, if at all, in the clock and in which tool namespaces are enabled. */
  predicate IsSameTurn(c: Context, d: Context) {
    c == d.(now := c.now, enabledToolNamespaces := c.enabledToolNamespaces)
  }

  /** A lease answers for exactly the contexts of its turn: two fields are left out of the key, and no others. */
  lemma TurnKeyIsEveryFieldButTwo(before: C.Collation, c: Context, d: Context)
    ensures TurnAuthorityKey(before, c) == TurnAuthorityKey(before, d) <==> IsSameTurn(c, d)
  {
    hide C.CanonicalJson, C.AddressJson, J.IsJson;
    TurnJsonIsJson(c);
    TurnJsonIsJson(d);
    C.EqualTextsMeanEqualValues(before, TurnJson(c), TurnJson(d));
    if TurnAuthorityKey(before, c) == TurnAuthorityKey(before, d) { EqualTurnsAgree(c, d); }
    if IsSameTurn(c, d) { assert TurnJson(c) == TurnJson(d); }
  }

  lemma EqualStringsAgree(a: Text, b: Text)
    ensures C.EqualModuloKeyOrder(J.JString(a), J.JString(b)) <==> a == b
  {
  }

  lemma SameShapeSameKeys(c: Context, d: Context)
    requires |TurnJson(c).entries| == |TurnJson(d).entries|
    ensures c.executionId.Some? <==> d.executionId.Some?
    ensures
      var v, w := TurnJson(c).entries, TurnJson(d).entries;
      forall i :: 0 <= i < |v| ==> v[i].key == w[i].key
  {
    hide C.AddressJson;
    var v, w := TurnFields(c), TurnFields(d);
    assert forall i :: 0 <= i < 6 ==> v[i].key == w[i].key;
  }

  lemma EqualTurnsAgree(c: Context, d: Context)
    requires C.EqualModuloKeyOrder(TurnJson(c), TurnJson(d)) && J.KeysAreDistinct(TurnJson(d).entries)
    ensures IsSameTurn(c, d)
  {
    hide C.AddressJson, TurnFields, J.KeysAreDistinct, C.EqualModuloKeyOrder;
    EqualEntriesAgree(c, d);
    var v, w, k := TurnJson(c).entries, TurnJson(d).entries, |ExecutionField(c)|;
    if c.executionId.Some? {
      assert v[0] == ExecutionField(c)[0] && w[0] == ExecutionField(d)[0];
      EqualStringsAgree(c.executionId.value, d.executionId.value);
    }
    SixFields(c);
    SixFields(d);
    forall i | 0 <= i < 6 ensures C.EqualModuloKeyOrder(TurnFields(c)[i].value, TurnFields(d)[i].value) {
      assert v[k + i] == TurnFields(c)[i] && w[k + i] == TurnFields(d)[i];
    }
    FieldsAgree(c, d);
  }

  lemma EqualEntriesAgree(c: Context, d: Context)
    requires C.EqualModuloKeyOrder(TurnJson(c), TurnJson(d)) && J.KeysAreDistinct(TurnJson(d).entries)
    ensures c.executionId.Some? <==> d.executionId.Some?
    ensures
      var v, w := TurnJson(c).entries, TurnJson(d).entries;
      |v| == |w| && forall i :: 0 <= i < |v| ==> C.EqualModuloKeyOrder(v[i].value, w[i].value)
  {
    hide C.AddressJson, TurnFields, J.KeysAreDistinct;
    assert |TurnJson(c).entries| == |TurnJson(d).entries|;
    SameShapeSameKeys(c, d);
    hide C.EqualModuloKeyOrder;
    C.EqualObjectsAgreeByKey(TurnJson(c).entries, TurnJson(d).entries);
  }

  lemma SixFields(context: Context)
    ensures |TurnFields(context)| == 6
  {
  }

  lemma FieldsAgree(c: Context, d: Context)
    requires |TurnFields(c)| == |TurnFields(d)| == 6
    requires forall i :: 0 <= i < 6 ==> C.EqualModuloKeyOrder(TurnFields(c)[i].value, TurnFields(d)[i].value)
    ensures c.namespaceId == d.namespaceId && c.actor == d.actor && c.authority == d.authority
    ensures c.owner == d.owner && c.purpose == d.purpose && c.traceId == d.traceId
  {
    hide C.AddressJson, C.EqualModuloKeyOrder;
    EqualStringsAgree(c.namespaceId, d.namespaceId);
    EqualStringsAgree(c.purpose, d.purpose);
    EqualStringsAgree(c.traceId, d.traceId);
    C.AddressJsonDetermines(c.actor, d.actor);
    C.AddressJsonDetermines(c.authority, d.authority);
    C.AddressJsonDetermines(c.owner, d.owner);
    assert TurnFields(c)[0].value == J.JString(c.namespaceId) && TurnFields(c)[1].value == C.AddressJson(c.actor);
    assert TurnFields(c)[2].value == C.AddressJson(c.authority) && TurnFields(c)[3].value == C.AddressJson(c.owner);
    assert TurnFields(c)[4].value == J.JString(c.purpose) && TurnFields(c)[5].value == J.JString(c.traceId);
  }
}
