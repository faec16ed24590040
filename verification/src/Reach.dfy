/** The surface an authority reaches, with the authority removed; and its agreement with `authorize`. */
module Reach {
  import opened Foundations
  import opened Contracts
  import opened Activity
  import opened Capabilities
  import opened Delegation
  import opened Authorization
  import J = Json
  import CanonicalJson

  datatype ResourceReach = ResourceReach(namespace: Text, path: seq<Text>, actions: seq<Text>, scope: Scope)

  datatype ReachResult = Computed(reach: seq<ResourceReach>) | ReachUnavailable

  function EntryOf(capability: Capability): ResourceReach {
    ResourceReach(capability.resource.namespace, capability.resource.path,
                  Sort(TextBefore, capability.actions), capability.scope)
  }

  // ----- The two texts an entry is filed under

  function TextsJson(texts: seq<Text>): J.Json {
    J.JArray(seq(|texts|, i requires 0 <= i < |texts| => J.JString(texts[i])))
  }

  function ScopeJson(scope: Scope): J.Json {
    J.JString(if scope == Exact then Ascii("exact") else Ascii("descendants"))
  }

  function EntryJson(e: ResourceReach): J.Json {
    J.JObject([
      J.Entry(Ascii("namespace"), J.JString(e.namespace)),
      J.Entry(Ascii("path"), TextsJson(e.path)),
      J.Entry(Ascii("actions"), TextsJson(e.actions)),
      J.Entry(Ascii("scope"), ScopeJson(e.scope))])
  }

  function KeyOf(before: CanonicalJson.Collation, e: ResourceReach): Text {
    CanonicalJson.CanonicalJson(before, EntryJson(e))
  }

  function OrderJson(e: ResourceReach): J.Json {
    J.JArray([J.JString(e.namespace), TextsJson(e.path), ScopeJson(e.scope), TextsJson(e.actions)])
  }

  function OrderOf(before: CanonicalJson.Collation, e: ResourceReach): Text {
    CanonicalJson.CanonicalJson(before, OrderJson(e))
  }

  lemma TextsJsonDetermines(s: seq<Text>, t: seq<Text>)
    ensures J.IsJson(TextsJson(s))
    ensures CanonicalJson.EqualModuloKeyOrder(TextsJson(s), TextsJson(t)) ==> s == t
  {
    var v, w := TextsJson(s), TextsJson(t);
    forall i | 0 <= i < |s| ensures J.IsJson(v.items[i]) {}
    if CanonicalJson.EqualModuloKeyOrder(v, w) {
      forall i | 0 <= i < |s| ensures s[i] == t[i] {
        assert CanonicalJson.EqualModuloKeyOrder(v.items[i], w.items[i]);
      }
    }
  }

  lemma ScopeJsonDetermines(s: Scope, t: Scope)
    ensures CanonicalJson.EqualModuloKeyOrder(ScopeJson(s), ScopeJson(t)) ==> s == t
  {
    assert |Ascii("exact")| != |Ascii("descendants")|;
  }

  /** Filed under one text only if they are one entry: neither text confuses two. */
  lemma TextsDetermineEntries(before: CanonicalJson.Collation, e: ResourceReach, f: ResourceReach)
    ensures KeyOf(before, e) == KeyOf(before, f) ==> e == f
    ensures OrderOf(before, e) == OrderOf(before, f) ==> e == f
  {
    TextsJsonDetermines(e.path, f.path);
    TextsJsonDetermines(f.path, e.path);
    TextsJsonDetermines(e.actions, f.actions);
    TextsJsonDetermines(f.actions, e.actions);
    ScopeJsonDetermines(e.scope, f.scope);
    KeyDetermines(before, e, f);
    OrderDetermines(before, e, f);
  }

  lemma KeyDetermines(before: CanonicalJson.Collation, e: ResourceReach, f: ResourceReach)
    requires J.IsJson(TextsJson(e.path)) && J.IsJson(TextsJson(f.path))
    requires J.IsJson(TextsJson(e.actions)) && J.IsJson(TextsJson(f.actions))
    requires CanonicalJson.EqualModuloKeyOrder(TextsJson(e.path), TextsJson(f.path)) ==> e.path == f.path
    requires CanonicalJson.EqualModuloKeyOrder(TextsJson(e.actions), TextsJson(f.actions)) ==> e.actions == f.actions
    requires CanonicalJson.EqualModuloKeyOrder(ScopeJson(e.scope), ScopeJson(f.scope)) ==> e.scope == f.scope
    ensures KeyOf(before, e) == KeyOf(before, f) ==> e == f
  {
    hide TextsJson, ScopeJson, CanonicalJson.CanonicalJson;
    var v, w := EntryJson(e), EntryJson(f);
    EntryJsonIsJson(e);
    EntryJsonIsJson(f);
    CanonicalJson.EqualTextsMeanEqualValues(before, v, w);
    if KeyOf(before, e) == KeyOf(before, f) {
      CanonicalJson.EqualObjectsAgreeByKey(v.entries, w.entries);
      assert CanonicalJson.EqualModuloKeyOrder(v.entries[0].value, w.entries[0].value);
      assert CanonicalJson.EqualModuloKeyOrder(v.entries[1].value, w.entries[1].value);
      assert CanonicalJson.EqualModuloKeyOrder(v.entries[2].value, w.entries[2].value);
      assert CanonicalJson.EqualModuloKeyOrder(v.entries[3].value, w.entries[3].value);
    }
  }

  lemma FourKeysDiffer()
    ensures |Ascii("namespace")| == 9 && |Ascii("path")| == 4 && |Ascii("actions")| == 7 && |Ascii("scope")| == 5
  {
  }

  lemma EntryJsonIsJson(e: ResourceReach)
    requires J.IsJson(TextsJson(e.path)) && J.IsJson(TextsJson(e.actions))
    ensures J.IsJson(EntryJson(e))
  {
    FourKeysDiffer();
  }

  lemma OrderDetermines(before: CanonicalJson.Collation, e: ResourceReach, f: ResourceReach)
    requires J.IsJson(TextsJson(e.path)) && J.IsJson(TextsJson(f.path))
    requires J.IsJson(TextsJson(e.actions)) && J.IsJson(TextsJson(f.actions))
    requires CanonicalJson.EqualModuloKeyOrder(TextsJson(e.path), TextsJson(f.path)) ==> e.path == f.path
    requires CanonicalJson.EqualModuloKeyOrder(TextsJson(e.actions), TextsJson(f.actions)) ==> e.actions == f.actions
    requires CanonicalJson.EqualModuloKeyOrder(ScopeJson(e.scope), ScopeJson(f.scope)) ==> e.scope == f.scope
    ensures OrderOf(before, e) == OrderOf(before, f) ==> e == f
  {
    hide TextsJson, CanonicalJson.CanonicalJson;
    var v, w := OrderJson(e), OrderJson(f);
    CanonicalJson.EqualTextsMeanEqualValues(before, v, w);
    if OrderOf(before, e) == OrderOf(before, f) {
      assert CanonicalJson.EqualModuloKeyOrder(v.items[0], w.items[0]);
      assert CanonicalJson.EqualModuloKeyOrder(v.items[1], w.items[1]);
      assert CanonicalJson.EqualModuloKeyOrder(v.items[2], w.items[2]);
      assert CanonicalJson.EqualModuloKeyOrder(v.items[3], w.items[3]);
    }
  }

  // ----- What the reach of an authority is

  /** Live, and with a use left. */
  predicate Contributes(ports: Ports, store: Option<StoreView>, context: Context, at: Instants, grant: Grant) {
    IsLive(ports, context, grant, at) && BudgetLeft(store, context, grant) == Available
  }

  predicate IsUnreadable(ports: Ports, store: Option<StoreView>, context: Context, at: Instants, grant: Grant) {
    IsLive(ports, context, grant, at) && BudgetLeft(store, context, grant) == BudgetUnavailable
  }

  /** A capability of this context's world, which is the only one a reach describes. */
  predicate IsOfThisWorld(capability: Capability, context: Context) {
    OwnerIn(capability.resource, context.owner) == context.owner
  }

  predicate Offers(ports: Ports, store: Option<StoreView>, context: Context, at: Instants, grants: seq<Grant>, e: ResourceReach) {
    exists g, c :: g in grants && c in g.capabilities && Contributes(ports, store, context, at, g)
      && IsOfThisWorld(c, context) && e == EntryOf(c)
  }

  /** In the order its texts put them, none twice. */
  ghost predicate IsOrdered(before: CanonicalJson.Collation, reach: seq<ResourceReach>) {
    forall i, j :: 0 <= i < j < |reach| ==> TextBefore(OrderOf(before, reach[i]), OrderOf(before, reach[j]))
  }

  function ReachInstants(authority: ResolvedAuthority, now: Option<Timestamp>): Option<Instants> {
    InstantsOf(Query(authority, Requirement(Resource([], [], None), []), Invoke, now))
  }

  ghost predicate IsReach(ports: Ports, store: Option<StoreView>, authority: ResolvedAuthority, now: Option<Timestamp>,
                          before: CanonicalJson.Collation, result: ReachResult)
  {
    var at := ReachInstants(authority, now);
    if at.None? then result == Computed([])
    else if exists g :: g in authority.grants && IsUnreadable(ports, store, authority.context, at.value, g)
      then result == ReachUnavailable
    else
      && result.Computed?
      && IsOrdered(before, result.reach)
      && forall e :: e in result.reach <==> Offers(ports, store, authority.context, at.value, authority.grants, e)
  }

  // ----- Collecting and ordering entries

  /** One entry of the collecting map: its key, the text it sorts by, and itself. */
  datatype Filed = Filed(key: Text, order: Text, entry: ResourceReach)

  function File(before: CanonicalJson.Collation, e: ResourceReach): Filed {
    Filed(KeyOf(before, e), OrderOf(before, e), e)
  }

  /** `Map.set`: an existing key keeps its place. */
  function Put(files: seq<Filed>, file: Filed): seq<Filed> {
    var i := FirstIndex((f: Filed) => f.key == file.key, files);
    if i < |files| then files[i := file] else files + [file]
  }

  ghost predicate AreFiled(before: CanonicalJson.Collation, files: seq<Filed>) {
    NoneTwice(files) && forall i :: 0 <= i < |files| ==> files[i] == File(before, files[i].entry)
  }

  lemma PutAdds(before: CanonicalJson.Collation, files: seq<Filed>, e: ResourceReach)
    requires AreFiled(before, files)
    ensures AreFiled(before, Put(files, File(before, e)))
    ensures forall f :: File(before, f) in Put(files, File(before, e)) <==> File(before, f) in files || f == e
  {
    hide KeyOf, OrderOf;
    var file := File(before, e);
    var i := FirstIndex((f: Filed) => f.key == file.key, files);
    if i < |files| {
      TextsDetermineEntries(before, files[i].entry, e);
      assert files[i := file] == files;
    }
  }

  predicate FiledBefore(l: Filed, r: Filed) { TextBefore(l.order, r.order) }

  function EntriesOf(files: seq<Filed>): seq<ResourceReach> {
    seq(|files|, i requires 0 <= i < |files| => files[i].entry)
  }

  lemma FilesSortIntoReach(before: CanonicalJson.Collation, files: seq<Filed>)
    requires AreFiled(before, files)
    ensures IsOrdered(before, EntriesOf(Sort(FiledBefore, files)))
    ensures forall e :: e in EntriesOf(Sort(FiledBefore, files)) <==> File(before, e) in files
  {
    hide KeyOf, OrderOf, Sort;
    var sorted := Sort(FiledBefore, files);
    var reach := EntriesOf(sorted);
    TextBeforeIsTotalOrder();
    assert IsWeakOrder(FiledBefore);
    SortSorts(FiledBefore, files);
    forall i | 0 <= i < |sorted| ensures sorted[i] in files { SameMembers(sorted, files, sorted[i]); }
    forall i, j | 0 <= i < j < |sorted|
      ensures TextBefore(OrderOf(before, reach[i]), OrderOf(before, reach[j]))
    {
      assert sorted[i] == File(before, reach[i]) && sorted[j] == File(before, reach[j]);
      OccursTwice(sorted, i, j);
      CountedOnce(files, sorted[i]);
      TextsDetermineEntries(before, reach[i], reach[j]);
    }
    forall e ensures e in reach <==> File(before, e) in files {
      SameMembers(sorted, files, File(before, e));
      if e in reach {
        var i :| 0 <= i < |reach| && reach[i] == e;
        assert sorted[i] == File(before, e);
      }
      if File(before, e) in sorted {
        var i :| 0 <= i < |sorted| && sorted[i] == File(before, e);
        assert reach[i] == e;
      }
    }
  }

  // ----- What the order groups

  /** What starts alike stays together in any order of text. */
  lemma {:induction false} StartsStayTogether(start: Text, a: Text, b: Text, c: Text)
    requires start <= a && start <= c && TextBefore(a, b) && TextBefore(b, c)
    ensures start <= b
  {
    if start != [] {
      TextBeforeAsymmetric(a, b);
      TextBeforeAsymmetric(b, c);
      assert a[0] == start[0] == c[0];
      assert b[0] == start[0];
      StartsStayTogether(start[1..], a[1..], b[1..], c[1..]);
      assert b == [b[0]] + b[1..] && start == [start[0]] + start[1..];
    }
  }

  function Heads(e: ResourceReach): seq<J.Json> { [J.JString(e.namespace), TextsJson(e.path), ScopeJson(e.scope)] }

  /** The text of an entry's first `k` fields, each with the comma after it. */
  function StartOf(e: ResourceReach, k: nat): Text
    requires k <= 3
  {
    if k == 0 then [J.OPEN_BRACKET] else StartOf(e, k - 1) + J.Render(Heads(e)[k - 1]) + [J.COMMA]
  }

  lemma OrderIsWrittenInFull(before: CanonicalJson.Collation, e: ResourceReach)
    ensures OrderOf(before, e) == StartOf(e, 3) + J.Render(TextsJson(e.actions)) + [J.CLOSE_BRACKET]
  {
    hide J.Render, J.RenderItems, TextsJson, ScopeJson;
    var fields := [J.JString(e.namespace), TextsJson(e.path), ScopeJson(e.scope), TextsJson(e.actions)];
    NothingToSort(before, e);
    FourFields(fields);
    assert StartOf(e, 1) == [J.OPEN_BRACKET] + J.Render(fields[0]) + [J.COMMA];
    assert StartOf(e, 2) == StartOf(e, 1) + J.Render(fields[1]) + [J.COMMA];
    assert StartOf(e, 3) == StartOf(e, 2) + J.Render(fields[2]) + [J.COMMA];
  }

  lemma FourFields(fields: seq<J.Json>)
    requires |fields| == 4
    ensures J.Render(J.JArray(fields))
      == [J.OPEN_BRACKET] + J.Render(fields[0]) + [J.COMMA] + J.Render(fields[1]) + [J.COMMA]
         + J.Render(fields[2]) + [J.COMMA] + J.Render(fields[3]) + [J.CLOSE_BRACKET]
  {
    hide J.Quote, J.RenderItems;
    var (a, b, c) := (fields[1..], fields[2..], fields[3..]);
    assert a[1..] == b && b[1..] == c && a[0] == fields[1] && b[0] == fields[2] && c[0] == fields[3];
    ItemsUnfold(fields);
    ItemsUnfold(a);
    ItemsUnfold(b);
    ItemsUnfold(c);
    FourTexts(J.Render(fields[0]), J.Render(fields[1]), J.Render(fields[2]), J.Render(fields[3]));
  }

  lemma FourTexts(a: Text, b: Text, c: Text, d: Text)
    ensures [J.OPEN_BRACKET] + (a + [J.COMMA] + (b + [J.COMMA] + (c + [J.COMMA] + d))) + [J.CLOSE_BRACKET]
      == [J.OPEN_BRACKET] + a + [J.COMMA] + b + [J.COMMA] + c + [J.COMMA] + d + [J.CLOSE_BRACKET]
  {
  }

  lemma ItemsUnfold(items: seq<J.Json>)
    requires items != []
    ensures J.RenderItems(items)
      == if |items| == 1 then J.Render(items[0]) else J.Render(items[0]) + [J.COMMA] + J.RenderItems(items[1..])
  {
    hide J.Render;
  }

  lemma NothingToSort(before: CanonicalJson.Collation, e: ResourceReach)
    ensures CanonicalJson.Normal(before, OrderJson(e)) == OrderJson(e)
  {
    TextsAreNormal(before, e.path);
    TextsAreNormal(before, e.actions);
    hide TextsJson, CanonicalJson.NormalItems;
    var items := OrderJson(e).items;
    var written := CanonicalJson.NormalItems(before, items);
    assert CanonicalJson.Normal(before, OrderJson(e)) == J.JArray(written);
    assert written[0] == items[0] && written[1] == items[1] && written[2] == items[2] && written[3] == items[3];
  }

  lemma TextsAreNormal(before: CanonicalJson.Collation, texts: seq<Text>)
    ensures CanonicalJson.Normal(before, TextsJson(texts)) == TextsJson(texts)
  {
  }

  /** Two texts that begin with a value and a comma begin with the same value if they are the same. */
  lemma SameValueFirst(v: J.Json, w: J.Json, rest: Text, other: Text)
    requires J.IsJson(v) && J.IsJson(w)
    requires J.Render(v) + [J.COMMA] + rest == J.Render(w) + [J.COMMA] + other
    ensures v == w && rest == other
  {
    hide J.Render, J.IsJson, J.Parse;
    assert J.Render(v) + ([J.COMMA] + rest) == J.Render(v) + [J.COMMA] + rest;
    assert J.Render(w) + ([J.COMMA] + other) == J.Render(w) + [J.COMMA] + other;
    J.RenderReadsBack(v, [J.COMMA] + rest);
    J.RenderReadsBack(w, [J.COMMA] + other);
    assert ([J.COMMA] + rest)[1..] == rest && ([J.COMMA] + other)[1..] == other;
  }

  /** Two entries' texts start alike through field `k` only if those fields are the same. */
  lemma {:induction false} SameStartSameFields(e: ResourceReach, f: ResourceReach, k: nat, rest: Text, other: Text)
    requires k <= 3 && StartOf(e, k) + rest == StartOf(f, k) + other
    ensures rest == other && forall i :: 0 <= i < k ==> Heads(e)[i] == Heads(f)[i]
  {
    hide J.Render, Heads, J.IsJson;
    if k == 0 {
      assert ([J.OPEN_BRACKET] + rest)[1..] == rest && ([J.OPEN_BRACKET] + other)[1..] == other;
    } else {
      HeadsAreJson(e);
      HeadsAreJson(f);
      var (v, w) := (Heads(e)[k - 1], Heads(f)[k - 1]);
      var (tail, tail') := (J.Render(v) + [J.COMMA] + rest, J.Render(w) + [J.COMMA] + other);
      assert StartOf(e, k) + rest == StartOf(e, k - 1) + tail;
      assert StartOf(f, k) + other == StartOf(f, k - 1) + tail';
      SameStartSameFields(e, f, k - 1, tail, tail');
      SameValueFirst(v, w, rest, other);
    }
  }

  lemma HeadsAreJson(e: ResourceReach)
    ensures |Heads(e)| == 3 && forall i :: 0 <= i < 3 ==> J.IsJson(Heads(e)[i])
  {
    TextsJsonDetermines(e.path, e.path);
  }

  lemma StartsItsText(before: CanonicalJson.Collation, e: ResourceReach, k: nat)
    requires k <= 3
    ensures StartOf(e, k) <= OrderOf(before, e)
  {
    hide J.Render, OrderOf, StartOf;
    OrderIsWrittenInFull(before, e);
    StartGrows(e, k, 3);
  }

  lemma {:induction false} StartGrows(e: ResourceReach, k: nat, m: nat)
    requires k <= m <= 3
    ensures StartOf(e, k) <= StartOf(e, m)
  {
    hide J.Render, Heads;
    if k < m { StartGrows(e, k, m - 1); }
  }

  ghost predicate AgreeOn(e: ResourceReach, f: ResourceReach, k: nat) {
    && (k >= 1 ==> e.namespace == f.namespace)
    && (k >= 2 ==> e.path == f.path)
    && (k >= 3 ==> e.scope == f.scope)
  }

  lemma AgreeingMeansStartingAlike(before: CanonicalJson.Collation, e: ResourceReach, f: ResourceReach, k: nat)
    requires k <= 3
    ensures AgreeOn(e, f, k) <==> StartOf(e, k) <= OrderOf(before, f)
  {
    hide J.Render, OrderOf, ScopeJson, TextsJson;
    StartsItsText(before, f, k);
    if StartOf(e, k) <= OrderOf(before, f) {
      var rest, other := OrderOf(before, f)[|StartOf(e, k)|..], OrderOf(before, f)[|StartOf(f, k)|..];
      assert StartOf(e, k) + rest == OrderOf(before, f) == StartOf(f, k) + other;
      SameStartSameFields(e, f, k, rest, other);
      HeadsDetermine(e, f, k);
    }
    if AgreeOn(e, f, k) {
      assert k >= 1 ==> StartOf(e, 1) == StartOf(f, 1);
      assert k >= 2 ==> StartOf(e, 2) == StartOf(f, 2);
      assert k >= 3 ==> StartOf(e, 3) == StartOf(f, 3);
    }
  }

  lemma HeadsDetermine(e: ResourceReach, f: ResourceReach, k: nat)
    requires k <= 3 && forall i :: 0 <= i < k ==> Heads(e)[i] == Heads(f)[i]
    ensures AgreeOn(e, f, k)
  {
    hide CanonicalJson.EqualModuloKeyOrder, TextsJson, ScopeJson;
    assert k >= 1 ==> Heads(e)[0] == Heads(f)[0];
    assert k >= 2 ==> Heads(e)[1] == Heads(f)[1];
    assert k >= 3 ==> Heads(e)[2] == Heads(f)[2];
    SameJsonSameTexts(e.path, f.path);
    SameJsonSameScope(e.scope, f.scope);
  }

  lemma SameJsonSameTexts(s: seq<Text>, t: seq<Text>)
    ensures TextsJson(s) == TextsJson(t) ==> s == t
  {
    if TextsJson(s) == TextsJson(t) {
      forall i | 0 <= i < |s| && i < |t| ensures s[i] == t[i] { assert TextsJson(s).items[i] == TextsJson(t).items[i]; }
      assert |TextsJson(s).items| == |s| && |TextsJson(t).items| == |t|;
    }
  }

  lemma SameJsonSameScope(s: Scope, t: Scope)
    ensures ScopeJson(s) == ScopeJson(t) ==> s == t
  {
    assert |Ascii("exact")| != |Ascii("descendants")|;
  }

  /**
   * A reach is grouped as a reader would group it: entries of one namespace sit together, among them
   * those of one path, among those again those of one scope.
   */
  lemma EntriesSitTogether(before: CanonicalJson.Collation, reach: seq<ResourceReach>, i: nat, j: nat, k: nat)
    requires IsOrdered(before, reach) && i < j < k < |reach|
    ensures reach[i].namespace == reach[k].namespace ==>
      && reach[j].namespace == reach[i].namespace
      && (reach[i].path == reach[k].path ==>
        && reach[j].path == reach[i].path
        && (reach[i].scope == reach[k].scope ==> reach[j].scope == reach[i].scope))
  {
    hide OrderOf, StartOf, TextBefore;
    forall fields | 0 <= fields <= 3 && AgreeOn(reach[i], reach[k], fields) ensures AgreeOn(reach[i], reach[j], fields) {
      AgreeingMeansStartingAlike(before, reach[i], reach[k], fields);
      AgreeingMeansStartingAlike(before, reach[i], reach[j], fields);
      StartsItsText(before, reach[i], fields);
      StartsStayTogether(StartOf(reach[i], fields), OrderOf(before, reach[i]), OrderOf(before, reach[j]), OrderOf(before, reach[k]));
    }
    assert AgreeOn(reach[i], reach[k], 1) ==> AgreeOn(reach[i], reach[j], 1);
    assert AgreeOn(reach[i], reach[k], 2) ==> AgreeOn(reach[i], reach[j], 2);
    assert AgreeOn(reach[i], reach[k], 3) ==> AgreeOn(reach[i], reach[j], 3);
  }

  // ----- The same authority, the same reach

  ghost predicate SameEntries(r: seq<ResourceReach>, s: seq<ResourceReach>) {
    forall e :: e in r <==> e in s
  }

  lemma OrderedSetsAgree(before: CanonicalJson.Collation, r: seq<ResourceReach>, s: seq<ResourceReach>)
    requires IsOrdered(before, r) && IsOrdered(before, s) && SameEntries(r, s)
    ensures r == s
  {
    hide OrderOf;
    TextBeforeIsTotalOrder();
    SameSetSameMultiset(r, s);
    var order := (e: ResourceReach, f: ResourceReach) => TextBefore(OrderOf(before, e), OrderOf(before, f));
    SortedArrangementsAgree(order, r, s);
  }

  function Arranged(c: Capability): Capability { c.(actions := Sort(TextBefore, c.actions)) }

  function ArrangedAll(cs: seq<Capability>): (r: seq<Capability>)
    ensures |r| == |cs| && forall i :: 0 <= i < |cs| ==> r[i] == Arranged(cs[i])
  {
    if cs == [] then [] else ArrangedAll(cs[..|cs| - 1]) + [Arranged(cs[|cs| - 1])]
  }

  /** A grant up to the order of its capabilities and of the actions in each. */
  ghost function Shape(g: Grant): (Grant, multiset<Capability>) {
    (g.(capabilities := []), multiset(ArrangedAll(g.capabilities)))
  }

  ghost function Shapes(grants: seq<Grant>): (shapes: seq<(Grant, multiset<Capability>)>)
    ensures |shapes| == |grants| && forall i :: 0 <= i < |grants| ==> shapes[i] == Shape(grants[i])
  {
    seq(|grants|, i requires 0 <= i < |grants| => Shape(grants[i]))
  }

  /** Every grant that counts on one side has a rearrangement that counts on the other. */
  ghost predicate IsEchoedBy(ports: Ports, store: Option<StoreView>, context: Context, at: Instants, grants: seq<Grant>, others: seq<Grant>) {
    forall g :: g in grants ==>
      && (Contributes(ports, store, context, at, g) ==>
            exists h :: h in others && Contributes(ports, store, context, at, h) && Shape(g) == Shape(h))
      && (IsUnreadable(ports, store, context, at, g) ==>
            exists h :: h in others && IsUnreadable(ports, store, context, at, h))
  }

  lemma OffersCarryOver(ports: Ports, store: Option<StoreView>, context: Context, at: Instants,
                        grants: seq<Grant>, others: seq<Grant>, e: ResourceReach)
    requires IsEchoedBy(ports, store, context, at, grants, others)
    requires Offers(ports, store, context, at, grants, e)
    ensures Offers(ports, store, context, at, others, e)
  {
    hide Contributes, IsUnreadable, EntryOf, Shape, Arranged;
    var g, c :| g in grants && c in g.capabilities && Contributes(ports, store, context, at, g)
      && IsOfThisWorld(c, context) && e == EntryOf(c);
    var h :| h in others && Contributes(ports, store, context, at, h) && Shape(g) == Shape(h);
    var d := Rearranged(g, h, c);
    ArrangedMeans(c, d, context);
  }

  lemma Rearranged(g: Grant, h: Grant, c: Capability) returns (d: Capability)
    requires Shape(g) == Shape(h) && c in g.capabilities
    ensures d in h.capabilities && Arranged(c) == Arranged(d)
  {
    hide Arranged;
    var gs, hs := ArrangedAll(g.capabilities), ArrangedAll(h.capabilities);
    var i :| 0 <= i < |g.capabilities| && g.capabilities[i] == c;
    assert gs[i] == Arranged(c);
    SameMembers(gs, hs, Arranged(c));
    var j :| 0 <= j < |hs| && hs[j] == Arranged(c);
    d := h.capabilities[j];
  }

  lemma ArrangedMeans(c: Capability, d: Capability, context: Context)
    requires Arranged(c) == Arranged(d)
    ensures EntryOf(c) == EntryOf(d)
    ensures IsOfThisWorld(c, context) <==> IsOfThisWorld(d, context)
    ensures multiset(c.actions) == multiset(d.actions)
  {
    hide Sort;
  }

  lemma UnreadableCarriesOver(ports: Ports, store: Option<StoreView>, context: Context, at: Instants, grants: seq<Grant>, others: seq<Grant>)
    requires IsEchoedBy(ports, store, context, at, grants, others)
    ensures (exists g :: g in grants && IsUnreadable(ports, store, context, at, g))
      ==> exists g :: g in others && IsUnreadable(ports, store, context, at, g)
  {
    hide Contributes, IsUnreadable, Shape;
  }

  lemma EchoesReachAlike(ports: Ports, store: Option<StoreView>, authority: ResolvedAuthority, others: seq<Grant>,
                                now: Option<Timestamp>, before: CanonicalJson.Collation, result: ReachResult, again: ReachResult)
    requires IsReach(ports, store, authority, now, before, result)
    requires IsReach(ports, store, authority.(grants := others), now, before, again)
    requires ReachInstants(authority, now).Some? ==>
      && IsEchoedBy(ports, store, authority.context, ReachInstants(authority, now).value, authority.grants, others)
      && IsEchoedBy(ports, store, authority.context, ReachInstants(authority, now).value, others, authority.grants)
    ensures result == again
  {
    hide Contributes, IsUnreadable, EntryOf, IsOrdered, Shape, Offers, IsEchoedBy;
    if ReachInstants(authority, now).Some? {
      UnreadableCarriesOver(ports, store, authority.context, ReachInstants(authority, now).value, authority.grants, others);
      UnreadableCarriesOver(ports, store, authority.context, ReachInstants(authority, now).value, others, authority.grants);
    }
    if ReachInstants(authority, now).Some? && result.Computed? {
      var at := ReachInstants(authority, now).value;
      forall e ensures e in result.reach <==> e in again.reach {
        if e in result.reach { OffersCarryOver(ports, store, authority.context, at, authority.grants, others, e); }
        if e in again.reach { OffersCarryOver(ports, store, authority.context, at, others, authority.grants, e); }
      }
      OrderedSetsAgree(before, result.reach, again.reach);
    }
  }

  /** Permuting the grants alone needs no proviso. */
  lemma ReachForgetsGrantOrder(ports: Ports, store: Option<StoreView>, authority: ResolvedAuthority, others: seq<Grant>,
                               now: Option<Timestamp>, before: CanonicalJson.Collation, result: ReachResult, again: ReachResult)
    requires IsReach(ports, store, authority, now, before, result)
    requires IsReach(ports, store, authority.(grants := others), now, before, again)
    requires multiset(authority.grants) == multiset(others)
    ensures result == again
  {
    hide Contributes, IsUnreadable;
    forall g ensures g in authority.grants <==> g in others { SameMembers(authority.grants, others, g); }
    EchoesReachAlike(ports, store, authority, others, now, before, result, again);
  }

  predicate IsVouchedFor(ports: Ports, context: Context, grant: Grant) {
    ports.verifier.None? || ports.verifier.value(grant, context) == Some(true)
  }

  /** The verifier's answer does not turn on the order of a grant's capabilities or actions. */
  ghost predicate JudgesAlike(ports: Ports, context: Context, grants: seq<Grant>, others: seq<Grant>) {
    forall g, h :: g in grants && h in others && Shape(h) == Shape(g) ==>
      (IsVouchedFor(ports, context, g) <==> IsVouchedFor(ports, context, h))
  }

  /**
   * The identical sequence however the grants, their capabilities and the actions in them are
   * ordered, provided the verifier -- the one port that sees a whole grant -- does not look at that.
   */
  lemma ReachForgetsArrangement(ports: Ports, store: Option<StoreView>, authority: ResolvedAuthority, others: seq<Grant>,
                                now: Option<Timestamp>, before: CanonicalJson.Collation, result: ReachResult, again: ReachResult)
    requires IsReach(ports, store, authority, now, before, result)
    requires IsReach(ports, store, authority.(grants := others), now, before, again)
    requires multiset(Shapes(authority.grants)) == multiset(Shapes(others))
    requires JudgesAlike(ports, authority.context, authority.grants, others)
    ensures result == again
  {
    hide IsReach, IsEchoedBy, JudgesAlike, Shape, Shapes;
    TurnedRound(ports, authority.context, authority.grants, others);
    if ReachInstants(authority, now).Some? {
      var at := ReachInstants(authority, now).value;
      RearrangedGrantsEcho(ports, store, authority.context, at, authority.grants, others);
      RearrangedGrantsEcho(ports, store, authority.context, at, others, authority.grants);
    }
    EchoesReachAlike(ports, store, authority, others, now, before, result, again);
  }

  /** What the ports would be with every grant vouched for. */
  function Unverified(ports: Ports): Ports { ports.(verifier := None) }

  /** The grant leaves a mark on the reach of an authority that holds it alone. */
  ghost predicate Shows(ports: Ports, store: Option<StoreView>, context: Context, at: Instants, grant: Grant) {
    || IsUnreadable(ports, store, context, at, grant)
    || (Contributes(ports, store, context, at, grant) && exists c :: c in grant.capabilities && IsOfThisWorld(c, context))
  }

  /**
   * Exactly when arrangement matters: a grant and its rearrangement reach alike unless the verifier
   * vouches for just one of the two, and that one would show.
   */
  lemma ArrangementMattersIffTheVerifierLooks(
    ports: Ports, store: Option<StoreView>, authority: ResolvedAuthority, g: Grant, h: Grant,
    now: Option<Timestamp>, before: CanonicalJson.Collation, result: ReachResult, again: ReachResult)
    requires Shape(h) == Shape(g) && ReachInstants(authority, now).Some?
    requires IsReach(ports, store, authority.(grants := [g]), now, before, result)
    requires IsReach(ports, store, authority.(grants := [h]), now, before, again)
    ensures result != again <==>
      && (IsVouchedFor(ports, authority.context, g) != IsVouchedFor(ports, authority.context, h))
      && Shows(Unverified(ports), store, authority.context, ReachInstants(authority, now).value, g)
  {
    hide IsReach, Shape, Shows, IsVouchedFor;
    var context, at := authority.context, ReachInstants(authority, now).value;
    if IsVouchedFor(ports, context, g) == IsVouchedFor(ports, context, h) {
      ReachForgetsArrangement(ports, store, authority.(grants := [g]), [h], now, before, result, again);
    } else {
      ShowsMeans(ports, store, authority, g, now, before, result);
      ShowsMeans(ports, store, authority, h, now, before, again);
      ShowsIfVouchedFor(ports, store, context, at, g);
      ShowsIfVouchedFor(ports, store, context, at, h);
      ShowsForgetsArrangement(Unverified(ports), store, context, at, g, h);
    }
  }

  /** It happens: a verifier that vouches for one order of two actions and not for the other. */
  lemma AVerifierCanLook(before: CanonicalJson.Collation)
    returns (ports: Ports, authority: ResolvedAuthority, g: Grant, h: Grant, result: ReachResult, again: ReachResult)
    ensures Shape(h) == Shape(g)
    ensures IsReach(ports, None, authority.(grants := [g]), None, before, result)
    ensures IsReach(ports, None, authority.(grants := [h]), None, before, again)
    ensures result != again
  {
    hide IsReach, Shape, EntryOf, BudgetLeft;
    var me := Human([1]);
    var c := Capability(Resource([1], [], None), [[1], [2]], Exact);
    var d := c.(actions := [[2], [1]]);
    g := Grant([7], [9], me, me, [c], Constraints(None, None, None, None, None), Readable([], 0), None, None);
    h := g.(capabilities := [d]);
    ports := Ports(Some((grant: Grant, context) => Some(grant.capabilities == [c])), None, None, None);
    authority := ResolvedAuthority(Context([9], None, me, me, me, [1], [1], [], Readable([], 0)), [], None);
    SameArrangement(g, h, c, d);
    result, again := Computed([EntryOf(c)]), Computed([]);
    LoneReach(ports, authority, g, c, before);
    assert h.capabilities[0] == d != c;
    UnvouchedReach(ports, authority, h, before);
  }

  lemma UnvouchedReach(ports: Ports, authority: ResolvedAuthority, h: Grant, before: CanonicalJson.Collation)
    requires ReachInstants(authority, None).Some? && !IsVouchedFor(ports, authority.context, h)
    ensures IsReach(ports, None, authority.(grants := [h]), None, before, Computed([]))
  {
    hide Validate, GrantInactiveReason, EntryOf;
  }

  lemma SameArrangement(g: Grant, h: Grant, c: Capability, d: Capability)
    requires c.actions == [[1], [2]] && d == c.(actions := [[2], [1]])
    requires g.capabilities == [c] && h == g.(capabilities := [d])
    ensures Shape(h) == Shape(g)
  {
    TextBeforeIsTotalOrder();
    SortForgetsOrder(TextBefore, c.actions, d.actions);
    assert ArrangedAll(g.capabilities) == [Arranged(c)] && ArrangedAll(h.capabilities) == [Arranged(d)];
  }

  lemma LoneReach(ports: Ports, authority: ResolvedAuthority, g: Grant, c: Capability, before: CanonicalJson.Collation)
    requires ReachInstants(authority, None).Some? && g.capabilities == [c] && g.constraints.maxUses.None?
    requires IsLive(ports, authority.context, g, ReachInstants(authority, None).value) && IsOfThisWorld(c, authority.context)
    ensures IsReach(ports, None, authority.(grants := [g]), None, before, Computed([EntryOf(c)]))
  {
    hide IsLive, EntryOf, IsOfThisWorld;
    assert c in g.capabilities && g in [g];
  }

  lemma ShowsMeans(ports: Ports, store: Option<StoreView>, authority: ResolvedAuthority, g: Grant, now: Option<Timestamp>,
                   before: CanonicalJson.Collation, result: ReachResult)
    requires ReachInstants(authority, now).Some?
    requires IsReach(ports, store, authority.(grants := [g]), now, before, result)
    ensures Shows(ports, store, authority.context, ReachInstants(authority, now).value, g) <==> result != Computed([])
  {
    hide Contributes, IsUnreadable, IsOfThisWorld, IsOrdered, EntryOf;
    var context, at := authority.context, ReachInstants(authority, now).value;
    if result.Computed? {
      if result.reach != [] {
        assert Offers(ports, store, context, at, [g], result.reach[0]);
      }
      forall c | c in g.capabilities && IsOfThisWorld(c, context) && Contributes(ports, store, context, at, g)
        ensures EntryOf(c) in result.reach
      {
        assert g in [g];
        assert Offers(ports, store, context, at, [g], EntryOf(c));
      }
    }
  }

  lemma ShowsIfVouchedFor(ports: Ports, store: Option<StoreView>, context: Context, at: Instants, g: Grant)
    ensures Shows(ports, store, context, at, g)
      <==> IsVouchedFor(ports, context, g) && Shows(Unverified(ports), store, context, at, g)
  {
    hide Validate, GrantInactiveReason, BudgetLeft, IsOfThisWorld;
  }

  lemma ShowsForgetsArrangement(ports: Ports, store: Option<StoreView>, context: Context, at: Instants, g: Grant, h: Grant)
    requires Shape(h) == Shape(g) && ports.verifier.None?
    ensures Shows(ports, store, context, at, g) <==> Shows(ports, store, context, at, h)
  {
    hide Shape, Shapes, IsLive, BudgetLeft, IsOfThisWorld, Arranged;
    LiveForgetsArrangement(ports, store, context, at, g, h);
    forall c | c in g.capabilities && IsOfThisWorld(c, context)
      ensures exists d :: d in h.capabilities && IsOfThisWorld(d, context)
    {
      var d := Rearranged(g, h, c);
      ArrangedMeans(c, d, context);
    }
    forall d | d in h.capabilities && IsOfThisWorld(d, context)
      ensures exists c :: c in g.capabilities && IsOfThisWorld(c, context)
    {
      var c := Rearranged(h, g, d);
      ArrangedMeans(d, c, context);
    }
  }

  lemma TurnedRound(ports: Ports, context: Context, grants: seq<Grant>, others: seq<Grant>)
    requires JudgesAlike(ports, context, grants, others)
    ensures JudgesAlike(ports, context, others, grants)
  {
    hide Shape, IsVouchedFor;
  }

  lemma RearrangedGrantsEcho(ports: Ports, store: Option<StoreView>, context: Context, at: Instants, grants: seq<Grant>, others: seq<Grant>)
    requires multiset(Shapes(grants)) == multiset(Shapes(others)) && JudgesAlike(ports, context, grants, others)
    ensures IsEchoedBy(ports, store, context, at, grants, others)
  {
    hide Shape, Shapes, IsLive, BudgetLeft, IsVouchedFor;
    forall g | g in grants
      ensures Contributes(ports, store, context, at, g) ==>
        exists h :: h in others && Contributes(ports, store, context, at, h) && Shape(g) == Shape(h)
      ensures IsUnreadable(ports, store, context, at, g) ==>
        exists h :: h in others && IsUnreadable(ports, store, context, at, h)
    {
      var i :| 0 <= i < |grants| && grants[i] == g;
      SameMembers(Shapes(grants), Shapes(others), Shape(g));
      var j :| 0 <= j < |others| && Shapes(others)[j] == Shape(g);
      var h := others[j];
      assert h in others;
        LiveForgetsArrangement(ports, store, context, at, g, h);
    }
  }

  lemma LiveForgetsArrangement(ports: Ports, store: Option<StoreView>, context: Context, at: Instants, g: Grant, h: Grant)
    requires Shape(h) == Shape(g)
    requires IsVouchedFor(ports, context, g) <==> IsVouchedFor(ports, context, h)
    ensures IsLive(ports, context, g, at) <==> IsLive(ports, context, h, at)
    ensures BudgetLeft(store, context, g) == BudgetLeft(store, context, h)
  {
    hide LinkViolation, GrantInactiveReason, Shape;
    SameButForCapabilities(g, h, context.purpose, at);
    forall parent ensures LinkViolation(g, parent, context, at) == LinkViolation(h, parent, context, at) {
      LinkForgetsArrangement(g, h, parent, context, at);
    }
  }

  lemma SameButForCapabilities(g: Grant, h: Grant, purpose: Text, at: Instants)
    requires Shape(h) == Shape(g)
    ensures h == g.(capabilities := h.capabilities)
    ensures GrantInactiveReason(g, purpose, at) == GrantInactiveReason(h, purpose, at)
  {
    assert g.(capabilities := []) == h.(capabilities := []);
  }

  lemma LinkForgetsArrangement(g: Grant, h: Grant, parent: Grant, context: Context, at: Instants)
    requires Shape(h) == Shape(g)
    ensures LinkViolation(g, parent, context, at) == LinkViolation(h, parent, context, at)
  {
    hide GrantIsActive, Capabilities.IsCovered, Shape;
    SameButForCapabilities(g, h, context.purpose, at);
    assert ConstraintsAreAttenuated(g, parent) == ConstraintsAreAttenuated(h, parent);
    CoverageForgetsArrangement(g, h, parent.capabilities, context);
    CoverageForgetsArrangement(h, g, parent.capabilities, context);
  }

  lemma CoverageForgetsArrangement(g: Grant, h: Grant, parents: seq<Capability>, context: Context)
    requires Shape(h) == Shape(g)
    ensures (exists c :: c in g.capabilities && !Capabilities.IsCovered(c, parents, context.owner))
      ==> exists d :: d in h.capabilities && !Capabilities.IsCovered(d, parents, context.owner)
  {
    hide CapabilityIsWithin, Shape, Arranged;
    if c :| c in g.capabilities && !Capabilities.IsCovered(c, parents, context.owner) {
      var d := Rearranged(g, h, c);
      forall p | p in parents ensures CapabilityIsWithin(d, p, context.owner) ==> CapabilityIsWithin(c, p, context.owner) {
        WithinForgetsActionOrder(c, d, p, context);
      }
      assert !Capabilities.IsCovered(d, parents, context.owner);
    }
  }

  lemma WithinForgetsActionOrder(c: Capability, d: Capability, parent: Capability, context: Context)
    requires Arranged(c) == Arranged(d)
    ensures CapabilityIsWithin(d, parent, context.owner) ==> CapabilityIsWithin(c, parent, context.owner)
  {
    ArrangedMeans(c, d, context);
    forall action ensures action in c.actions <==> action in d.actions { SameMembers(c.actions, d.actions, action); }
  }

  // ----- Reach is exactly authority

  predicate Covers(e: ResourceReach, request: Requirement) {
    && e.namespace == request.resource.namespace
    && GrantsAction(e.actions, request.action)
    && (if e.scope == Exact then PathsEqual(e.path, request.resource.path)
        else PathIsWithin(e.path, request.resource.path))
  }

  predicate IsCovered(reach: seq<ResourceReach>, request: Requirement) {
    exists e :: e in reach && Covers(e, request)
  }

  lemma EntryCoversWhatTheCapabilityAnswers(c: Capability, request: Requirement, context: Context)
    requires ResourceBelongsToContext(request.resource, context)
    ensures CapabilityMatches(c, request, context.owner) <==> IsOfThisWorld(c, context) && Covers(EntryOf(c), request)
  {
    SameMembers(c.actions, Sort(TextBefore, c.actions), request.action);
    SameMembers(c.actions, Sort(TextBefore, c.actions), WILDCARD);
  }

  /** Whatever ceiling is installed, what is allowed was on the map. */
  lemma AllowedIsCovered(ports: Ports, store: Option<StoreView>, authority: ResolvedAuthority, now: Option<Timestamp>,
                         before: CanonicalJson.Collation, result: ReachResult, request: Requirement)
    requires IsReach(ports, store, authority, now, before, result) && result.Computed?
    requires Decide(ports, store, Query(authority, request, Invoke, now)).Allow?
    ensures IsCovered(result.reach, request)
  {
    hide Judge, IsLive, BudgetLeft, ApplyCeiling, Covers, EntryOf, Decide;
    var query := Query(authority, request, Invoke, now);
    var i := AllowNamesACandidate(ports, store, query);
    var g := authority.grants[i];
    var c :| c in g.capabilities && Matches(Invoke, c, request, authority.context.owner);
    EntryCoversWhatTheCapabilityAnswers(c, request, authority.context);
    assert g in authority.grants && Contributes(ports, store, authority.context, InstantsOf(query).value, g);
    assert Offers(ports, store, authority.context, InstantsOf(query).value, authority.grants, EntryOf(c));
    assert EntryOf(c) in result.reach;
  }

  /**
   * With no ceiling, a computed reach and the decisions agree on every request of this world:
   * it is allowed exactly when some entry covers it.
   */
  lemma ReachIsExactlyAuthority(ports: Ports, store: Option<StoreView>, authority: ResolvedAuthority, now: Option<Timestamp>,
                                before: CanonicalJson.Collation, result: ReachResult, request: Requirement)
    requires ports.ceiling.None?
    requires IsReach(ports, store, authority, now, before, result) && result.Computed?
    requires IsWellFormed(Query(authority, request, Invoke, now))
    ensures Decide(ports, store, Query(authority, request, Invoke, now)).Allow? <==> IsCovered(result.reach, request)
  {
    hide Judge, IsLive, BudgetLeft, Covers, EntryOf, Validate;
    var query := Query(authority, request, Invoke, now);
    if Decide(ports, store, query).Allow? {
      AllowedIsCovered(ports, store, authority, now, before, result, request);
    }
    if IsCovered(result.reach, request) {
      var e :| e in result.reach && Covers(e, request);
      var at := InstantsOf(query).value;
      var g, c :| g in authority.grants && c in g.capabilities && Contributes(ports, store, authority.context, at, g)
        && IsOfThisWorld(c, authority.context) && e == EntryOf(c);
      EntryCoversWhatTheCapabilityAnswers(c, request, authority.context);
      assert Matches(Invoke, c, request, authority.context.owner);
      OnlyBudgetsStop(ports, store, query, at);
      AllowsIffSomeGrantAllows(authority.grants, Verdicts(ports, store, query, at));
    }
  }
}
