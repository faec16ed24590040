/** `canonicalJson`: one text per value, whatever order object keys arrive in, and when exactly. */
module CanonicalJson {
  import opened Foundations
  import opened Contracts
  import opened Json

  /** `left.localeCompare(right) < 0`. Distinct keys may tie: collation ignores some characters. */
  type Collation = (Text, Text) -> bool

  function ByKey(before: Collation): (Entry, Entry) -> bool {
    (l: Entry, r: Entry) => before(l.key, r.key)
  }

  /** The value with every object's entries put in collation order, stably, at every depth. */
  function Normal(before: Collation, v: Json): Json
    decreases v
  {
    match v
    case JArray(items) => JArray(NormalItems(before, items))
    case JObject(entries) => JObject(Sort(ByKey(before), NormalEntries(before, entries)))
    case _ => v
  }

  function NormalItems(before: Collation, items: seq<Json>): (r: seq<Json>)
    ensures |r| == |items| && forall i :: 0 <= i < |r| ==> r[i] == Normal(before, items[i])
    decreases items
  {
    if items == [] then [] else [Normal(before, items[0])] + NormalItems(before, items[1..])
  }

  function NormalEntries(before: Collation, entries: seq<Entry>): (r: seq<Entry>)
    ensures |r| == |entries|
    ensures forall i :: 0 <= i < |r| ==> r[i] == Entry(entries[i].key, Normal(before, entries[i].value))
    decreases entries
  {
    if entries == [] then []
    else [Entry(entries[0].key, Normal(before, entries[0].value))] + NormalEntries(before, entries[1..])
  }

  function CanonicalJson(before: Collation, v: Json): Text {
    Render(Normal(before, v))
  }

  // ----- The code's one pass: sort an object's entries, then join what each becomes

  function Join(parts: seq<Text>): Text {
    if parts == [] then [] else if |parts| == 1 then parts[0] else parts[0] + [COMMA] + Join(parts[1..])
  }

  function ItemTexts(before: Collation, items: seq<Json>): seq<Text> {
    seq(|items|, i requires 0 <= i < |items| => CanonicalJson(before, items[i]))
  }

  function EntryTexts(before: Collation, entries: seq<Entry>): seq<Text> {
    seq(|entries|, i requires 0 <= i < |entries| =>
      Quote(entries[i].key) + [COLON] + CanonicalJson(before, entries[i].value))
  }

  /** Normalizing first and sorting at each level as it is written are the same encoding. */
  lemma CanonicalJsonInOnePass(before: Collation, items: seq<Json>, entries: seq<Entry>)
    ensures CanonicalJson(before, JArray(items)) == [OPEN_BRACKET] + Join(ItemTexts(before, items)) + [CLOSE_BRACKET]
    ensures CanonicalJson(before, JObject(entries))
      == [OPEN_BRACE] + Join(EntryTexts(before, Sort(ByKey(before), entries))) + [CLOSE_BRACE]
  {
    hide Sort, Join, RenderItems, RenderEntries, NormalItems, NormalEntries;
    ItemsRenderJoined(before, items);
    NormalizingCommutesWithSorting(before, entries);
    EntriesRenderJoined(before, Sort(ByKey(before), entries));
  }

  lemma {:induction false} ItemsRenderJoined(before: Collation, items: seq<Json>)
    ensures RenderItems(NormalItems(before, items)) == Join(ItemTexts(before, items))
  {
    hide Normal, Render;
    if items != [] {
      assert ItemTexts(before, items) == [CanonicalJson(before, items[0])] + ItemTexts(before, items[1..]);
      ItemsRenderJoined(before, items[1..]);
    }
  }

  lemma {:induction false} EntriesRenderJoined(before: Collation, entries: seq<Entry>)
    ensures RenderEntries(NormalEntries(before, entries)) == Join(EntryTexts(before, entries))
  {
    hide Normal, Render;
    if entries != [] {
      var first := Quote(entries[0].key) + [COLON] + CanonicalJson(before, entries[0].value);
      assert EntryTexts(before, entries) == [first] + EntryTexts(before, entries[1..]);
      EntriesRenderJoined(before, entries[1..]);
    }
  }

  lemma {:induction false} NormalizingCommutesWithSorting(before: Collation, entries: seq<Entry>)
    ensures Sort(ByKey(before), NormalEntries(before, entries)) == NormalEntries(before, Sort(ByKey(before), entries))
  {
    hide Normal;
    if entries != [] {
      NormalizingCommutesWithSorting(before, entries[1..]);
      NormalizingCommutesWithInserting(before, entries[0], Sort(ByKey(before), entries[1..]));
      assert NormalEntries(before, entries)[1..] == NormalEntries(before, entries[1..]);
    }
  }

  lemma {:induction false} NormalizingCommutesWithInserting(before: Collation, e: Entry, s: seq<Entry>)
    ensures Insert(ByKey(before), Entry(e.key, Normal(before, e.value)), NormalEntries(before, s))
      == NormalEntries(before, Insert(ByKey(before), e, s))
  {
    hide Normal;
    if s != [] && ByKey(before)(s[0], e) {
      NormalizingCommutesWithInserting(before, e, s[1..]);
      assert NormalEntries(before, s)[1..] == NormalEntries(before, s[1..]);
    }
  }

  // ----- Equality modulo key order

  predicate EqualModuloKeyOrder(v: Json, w: Json)
    decreases v
  {
    match (v, w)
    case (JArray(items), JArray(others)) =>
      |items| == |others| && forall i :: 0 <= i < |items| ==> EqualModuloKeyOrder(items[i], others[i])
    case (JObject(entries), JObject(others)) =>
      |entries| == |others| && forall i :: 0 <= i < |entries| ==> HasEqualEntry(entries[i], others)
    case _ => v == w
  }

  /** The same key is there, with an equal value. */
  predicate HasEqualEntry(e: Entry, others: seq<Entry>)
    decreases e
  {
    exists j :: 0 <= j < |others| && others[j].key == e.key && EqualModuloKeyOrder(e.value, others[j].value)
  }

  /** The collation tells apart the keys of every object in the value. */
  predicate KeysSeparate(before: Collation, v: Json)
    decreases v
  {
    match v
    case JArray(items) => forall i :: 0 <= i < |items| ==> KeysSeparate(before, items[i])
    case JObject(entries) =>
      && (forall i :: 0 <= i < |entries| ==> KeysSeparate(before, entries[i].value))
      && forall i, j :: 0 <= i < |entries| && 0 <= j < |entries| && entries[i].key != entries[j].key ==>
           before(entries[i].key, entries[j].key) || before(entries[j].key, entries[i].key)
    case _ => true
  }

  lemma {:induction false} NormalIsJson(before: Collation, v: Json)
    requires IsJson(v)
    ensures IsJson(Normal(before, v))
    decreases v
  {
    match v
    case JArray(items) =>
      forall i | 0 <= i < |items| ensures IsJson(Normal(before, items[i])) { NormalIsJson(before, items[i]); }
    case JObject(entries) =>
      var children := NormalEntries(before, entries);
      var sorted := Sort(ByKey(before), children);
      forall i | 0 <= i < |entries| ensures IsJson(children[i].value) { NormalIsJson(before, entries[i].value); }
      forall i | 0 <= i < |sorted| ensures IsJson(sorted[i].value) {
        SameMembers(sorted, children, sorted[i]);
      }
      SortKeepsKeysDistinct(ByKey(before), children);
    case _ =>
  }

  lemma SortKeepsKeysDistinct(order: (Entry, Entry) -> bool, entries: seq<Entry>)
    requires KeysAreDistinct(entries)
    ensures KeysAreDistinct(Sort(order, entries))
  {
    hide Sort;
    var sorted := Sort(order, entries);
    forall i, j | 0 <= i < j < |sorted| ensures sorted[i].key != sorted[j].key {
      SameMembers(sorted, entries, sorted[i]);
      SameMembers(sorted, entries, sorted[j]);
      OccursTwice(sorted, i, j);
      CountedOnce(entries, sorted[i]);
    }
  }

  // ----- The encoding has an inverse, and says exactly the value modulo key order

  /** A parser over the text gives back the value, its keys in collation order. */
  lemma CanonicalJsonHasAnInverse(before: Collation, v: Json)
    requires IsJson(v)
    ensures Parse(CanonicalJson(before, v)) == Read(Normal(before, v), [])
    ensures EqualModuloKeyOrder(v, Normal(before, v))
  {
    NormalIsJson(before, v);
    RenderIsInjective(Normal(before, v), Normal(before, v));
    NormalIsTheSameValue(before, v);
  }

  lemma {:induction false} NormalIsTheSameValue(before: Collation, v: Json)
    ensures EqualModuloKeyOrder(v, Normal(before, v))
    decreases v
  {
    match v
    case JArray(items) =>
      forall i | 0 <= i < |items| ensures EqualModuloKeyOrder(items[i], Normal(before, items[i])) {
        NormalIsTheSameValue(before, items[i]);
      }
    case JObject(entries) =>
      forall i | 0 <= i < |entries| ensures EqualModuloKeyOrder(entries[i].value, Normal(before, entries[i].value)) {
        NormalIsTheSameValue(before, entries[i].value);
      }
      NormalEntriesAreTheSame(before, entries);
    case _ =>
  }

  lemma NormalEntriesAreTheSame(before: Collation, entries: seq<Entry>)
    requires forall i :: 0 <= i < |entries| ==> EqualModuloKeyOrder(entries[i].value, Normal(before, entries[i].value))
    ensures EqualModuloKeyOrder(JObject(entries), Normal(before, JObject(entries)))
  {
    hide Sort;
    var children := NormalEntries(before, entries);
    var sorted := Sort(ByKey(before), children);
    forall i | 0 <= i < |entries| ensures HasEqualEntry(entries[i], sorted) {
      SameMembers(children, sorted, children[i]);
      var j :| 0 <= j < |sorted| && sorted[j] == children[i];
      assert sorted[j].key == entries[i].key;
    }
  }

  /** Equal texts mean equal values, under any collation at all. */
  lemma EqualTextsMeanEqualValues(before: Collation, v: Json, w: Json)
    requires IsJson(v) && IsJson(w)
    ensures CanonicalJson(before, v) == CanonicalJson(before, w) ==> EqualModuloKeyOrder(v, w)
  {
    NormalIsJson(before, v);
    NormalIsJson(before, w);
    RenderIsInjective(Normal(before, v), Normal(before, w));
    if Normal(before, v) == Normal(before, w) { SameNormalMeansEqual(before, v, w); }
  }

  lemma {:induction false} SameNormalMeansEqual(before: Collation, v: Json, w: Json)
    requires Normal(before, v) == Normal(before, w)
    ensures EqualModuloKeyOrder(v, w)
    decreases v
  {
    match (v, w)
    case (JArray(items), JArray(others)) =>
      var n := NormalItems(before, items);
      assert n == NormalItems(before, others);
      forall i | 0 <= i < |items| ensures EqualModuloKeyOrder(items[i], others[i]) {
        assert n[i] == Normal(before, items[i]) == Normal(before, others[i]);
        SameNormalMeansEqual(before, items[i], others[i]);
      }
    case (JObject(entries), JObject(others)) =>
      SortedTogether(ByKey(before), NormalEntries(before, entries), NormalEntries(before, others));
      forall i | 0 <= i < |entries| ensures HasEqualEntry(entries[i], others) {
        var j := Partner(before, entries, others, i);
        SameNormalMeansEqual(before, entries[i].value, others[j].value);
      }
    case _ =>
  }

  lemma SortedTogether(order: (Entry, Entry) -> bool, s: seq<Entry>, t: seq<Entry>)
    requires Sort(order, s) == Sort(order, t)
    ensures multiset(s) == multiset(t) && |s| == |t|
  {
    assert |s| == |Sort(order, s)| == |Sort(order, t)| == |t|;
  }

  lemma Partner(before: Collation, entries: seq<Entry>, others: seq<Entry>, i: nat) returns (j: nat)
    requires i < |entries|
    requires multiset(NormalEntries(before, entries)) == multiset(NormalEntries(before, others))
    ensures j < |others| && others[j].key == entries[i].key
    ensures Normal(before, entries[i].value) == Normal(before, others[j].value)
  {
    hide Normal;
    var children, otherChildren := NormalEntries(before, entries), NormalEntries(before, others);
    SameMembers(children, otherChildren, children[i]);
    j :| 0 <= j < |otherChildren| && otherChildren[j] == children[i];
  }

  /** Equal values have equal texts wherever the collation tells an object's keys apart. */
  lemma {:induction false} EqualValuesHaveEqualTexts(before: Collation, v: Json, w: Json)
    requires IsWeakOrder(before) && KeysSeparate(before, v)
    requires IsJson(v) && IsJson(w) && EqualModuloKeyOrder(v, w)
    ensures Normal(before, v) == Normal(before, w)
    ensures CanonicalJson(before, v) == CanonicalJson(before, w)
    decreases v
  {
    match (v, w)
    case (JArray(items), JArray(others)) =>
      forall i | 0 <= i < |items| ensures Normal(before, items[i]) == Normal(before, others[i]) {
        EqualValuesHaveEqualTexts(before, items[i], others[i]);
      }
      assert NormalItems(before, items) == NormalItems(before, others);
    case (JObject(entries), JObject(others)) =>
      forall i | 0 <= i < |entries| ensures HasEqualNormal(before, entries[i], others) {
        assert HasEqualEntry(entries[i], others);
        var j :| 0 <= j < |others| && others[j].key == entries[i].key && EqualModuloKeyOrder(entries[i].value, others[j].value);
        EqualValuesHaveEqualTexts(before, entries[i].value, others[j].value);
      }
      EqualEntriesSortAlike(before, entries, others);
    case _ =>
  }

  ghost predicate HasEqualNormal(before: Collation, e: Entry, others: seq<Entry>) {
    exists j :: 0 <= j < |others| && others[j].key == e.key && Normal(before, others[j].value) == Normal(before, e.value)
  }

  lemma EqualEntriesSortAlike(before: Collation, entries: seq<Entry>, others: seq<Entry>)
    requires IsWeakOrder(before) && KeysSeparate(before, JObject(entries))
    requires |entries| == |others| && KeysAreDistinct(entries)
    requires forall i :: 0 <= i < |entries| ==> HasEqualNormal(before, entries[i], others)
    ensures Normal(before, JObject(entries)) == Normal(before, JObject(others))
  {
    hide Sort, KeysSeparate, Separates, IsWeakOrder;
    var children, otherChildren := NormalEntries(before, entries), NormalEntries(before, others);
    ChildrenSeparate(before, entries);
    forall i | 0 <= i < |children| ensures children[i] in otherChildren {
      assert HasEqualNormal(before, entries[i], others);
      var j :| 0 <= j < |others| && others[j].key == entries[i].key && Normal(before, others[j].value) == Normal(before, entries[i].value);
      assert otherChildren[j] == children[i];
    }
    ContainedKeysAgree(children, otherChildren);
    ByKeyIsWeakOrder(before);
    SortForgetsOrder(ByKey(before), children, otherChildren);
  }

  lemma ChildrenSeparate(before: Collation, entries: seq<Entry>)
    requires KeysSeparate(before, JObject(entries)) && KeysAreDistinct(entries)
    ensures Separates(ByKey(before), NormalEntries(before, entries))
  {
    hide Normal;
    var children := NormalEntries(before, entries);
    forall x, y | x in children && y in children && x != y ensures before(x.key, y.key) || before(y.key, x.key) {
      var i :| 0 <= i < |children| && children[i] == x;
      var j :| 0 <= j < |children| && children[j] == y;
    }
  }

  lemma ByKeyIsWeakOrder(before: Collation)
    requires IsWeakOrder(before)
    ensures IsWeakOrder(ByKey(before))
  {
    var order := ByKey(before);
    forall x, y ensures order(x, y) ==> !order(y, x) {
      assert before(x.key, y.key) ==> !before(y.key, x.key);
    }
    forall x, y, z ensures order(x, z) ==> order(x, y) || order(y, z) {
      assert before(x.key, z.key) ==> before(x.key, y.key) || before(y.key, z.key);
    }
  }

  /** Lists of equal length without repeated keys, one within the other, hold the same entries. */
  lemma {:induction false} ContainedKeysAgree(s: seq<Entry>, t: seq<Entry>)
    requires |s| == |t| && KeysAreDistinct(s)
    requires forall i :: 0 <= i < |s| ==> s[i] in t
    ensures multiset(s) == multiset(t)
  {
    if s != [] {
      var j :| 0 <= j < |t| && t[j] == s[0];
      var others := t[..j] + t[j + 1..];
      TakenOut(t, j);
      forall i | 0 <= i < |s| - 1 ensures s[1..][i] in others {
        assert s[i + 1] in t && s[i + 1] != s[0];
      }
      ContainedKeysAgree(s[1..], others);
      assert s == [s[0]] + s[1..];
    }
  }

  lemma TakenOut(t: seq<Entry>, j: nat)
    requires j < |t|
    ensures multiset(t) == multiset{t[j]} + multiset(t[..j] + t[j + 1..])
    ensures forall e :: e in t && e != t[j] ==> e in t[..j] + t[j + 1..]
  {
    assert t == t[..j] + [t[j]] + t[j + 1..];
    forall e | e in t && e != t[j] ensures e in t[..j] + t[j + 1..] {
      assert e in t[..j] || e in t[j + 1..];
    }
  }

  /** The encoding is equality modulo key order, on values whose keys the collation tells apart. */
  lemma EncodingIsEqualityModuloKeyOrder(before: Collation, v: Json, w: Json)
    requires IsWeakOrder(before) && KeysSeparate(before, v)
    requires IsJson(v) && IsJson(w)
    ensures CanonicalJson(before, v) == CanonicalJson(before, w) <==> EqualModuloKeyOrder(v, w)
  {
    EqualTextsMeanEqualValues(before, v, w);
    if EqualModuloKeyOrder(v, w) { EqualValuesHaveEqualTexts(before, v, w); }
  }

  ghost predicate ForgetsKeyOrder(before: Collation) {
    forall v, w :: IsJson(v) && IsJson(w) && EqualModuloKeyOrder(v, w) ==>
      CanonicalJson(before, v) == CanonicalJson(before, w)
  }

  /** Key order never changes the text exactly when the collation never ties two different keys. */
  lemma KeyOrderIsForgottenIffCollationIsTotal(before: Collation)
    requires IsWeakOrder(before)
    ensures ForgetsKeyOrder(before) <==> IsTotalOrder(before)
  {
    if IsTotalOrder(before) {
      forall v, w | IsJson(v) && IsJson(w) && EqualModuloKeyOrder(v, w)
        ensures CanonicalJson(before, v) == CanonicalJson(before, w)
      {
        TotalOrderSeparates(before, v);
        EqualValuesHaveEqualTexts(before, v, w);
      }
    }
    if ForgetsKeyOrder(before) {
      forall a, b | a != b ensures before(a, b) || before(b, a) {
        var v, w := JObject([Entry(a, JNull), Entry(b, JNull)]), JObject([Entry(b, JNull), Entry(a, JNull)]);
        TwoKeysEitherWay(before, a, b);
        RenderIsInjective(Normal(before, v), Normal(before, w));
      }
    }
  }

  lemma {:induction false} TotalOrderSeparates(before: Collation, v: Json)
    requires IsTotalOrder(before)
    ensures KeysSeparate(before, v)
    decreases v
  {
    match v
    case JArray(items) =>
      forall i | 0 <= i < |items| ensures KeysSeparate(before, items[i]) { TotalOrderSeparates(before, items[i]); }
    case JObject(entries) =>
      forall i | 0 <= i < |entries| ensures KeysSeparate(before, entries[i].value) {
        TotalOrderSeparates(before, entries[i].value);
      }
    case _ =>
  }

  /** Two tied keys stay in whichever order they came. */
  lemma TwoKeysEitherWay(before: Collation, a: Text, b: Text)
    requires a != b
    ensures
      var v, w := JObject([Entry(a, JNull), Entry(b, JNull)]), JObject([Entry(b, JNull), Entry(a, JNull)]);
      && EqualModuloKeyOrder(v, w)
      && IsJson(Normal(before, v)) && IsJson(Normal(before, w)) && IsJson(v) && IsJson(w)
      && (!before(a, b) && !before(b, a) ==> Normal(before, v) == v && Normal(before, w) == w)
  {
    hide Sort, EqualModuloKeyOrder, IsJson;
    var x, y := Entry(a, JNull), Entry(b, JNull);
    var v, w := JObject([x, y]), JObject([y, x]);
    TwoKeysAreEqual(x, y);
    NormalIsJson(before, v);
    NormalIsJson(before, w);
    NormalOfTwo(before, x, y);
    NormalOfTwo(before, y, x);
  }

  lemma NormalOfTwo(before: Collation, x: Entry, y: Entry)
    requires x.value == y.value == JNull
    ensures !before(y.key, x.key) ==> Normal(before, JObject([x, y])) == JObject([x, y])
  {
    hide Sort;
    assert NormalEntries(before, [x, y]) == [x, y];
    SortOfTwo(ByKey(before), x, y);
  }

  /**
   * It happens under any collation that ties two keys -- as a locale's may tie a composed character
   * with its decomposition: two equal objects with two texts.
   */
  lemma TiedKeysKeepTheirOrder(before: Collation, a: Text, b: Text) returns (v: Json, w: Json)
    requires a != b && !before(a, b) && !before(b, a)
    ensures IsJson(v) && IsJson(w) && EqualModuloKeyOrder(v, w)
    ensures CanonicalJson(before, v) != CanonicalJson(before, w)
  {
    hide Normal, EqualModuloKeyOrder, IsJson;
    v, w := JObject([Entry(a, JNull), Entry(b, JNull)]), JObject([Entry(b, JNull), Entry(a, JNull)]);
    TwoKeysEitherWay(before, a, b);
    RenderIsInjective(v, w);
    assert v.entries[0] != w.entries[0];
  }

  lemma TwoKeysAreEqual(x: Entry, y: Entry)
    requires x.key != y.key && x.value == y.value == JNull
    ensures EqualModuloKeyOrder(JObject([x, y]), JObject([y, x]))
    ensures IsJson(JObject([x, y])) && IsJson(JObject([y, x]))
  {
    assert HasEqualEntry(x, [y, x]) by { assert [y, x][1] == x; }
    assert HasEqualEntry(y, [y, x]) by { assert [y, x][0] == y; }
  }

  lemma SortOfTwo(order: (Entry, Entry) -> bool, x: Entry, y: Entry)
    ensures !order(y, x) ==> Sort(order, [x, y]) == [x, y]
  {
    assert [x, y][1..] == [y] && [y][1..] == [];
    assert Insert(order, y, []) == [y];
    assert Sort(order, [y]) == [y];
    assert [x] + [y] == [x, y];
  }

  /** Objects that list the same keys in the same order agree value by value. */
  lemma EqualObjectsAgreeByKey(entries: seq<Entry>, others: seq<Entry>)
    requires EqualModuloKeyOrder(JObject(entries), JObject(others)) && KeysAreDistinct(others)
    requires forall i :: 0 <= i < |entries| && i < |others| ==> entries[i].key == others[i].key
    ensures |entries| == |others|
    ensures forall i :: 0 <= i < |entries| ==> EqualModuloKeyOrder(entries[i].value, others[i].value)
  {
    forall i | 0 <= i < |entries| ensures EqualModuloKeyOrder(entries[i].value, others[i].value) {
      assert HasEqualEntry(entries[i], others);
    }
  }

  // ----- Addresses

  function KindAndId(kind: Text, idKey: Text, id: Text): Json {
    JObject([Entry(Ascii("kind"), JString(kind)), Entry(idKey, JString(id))])
  }

  function AddressJson(address: Address): Json {
    match address
    case Human(id) => KindAndId(Ascii("human"), Ascii("userId"), id)
    case Agent(id) => KindAndId(Ascii("agent"), Ascii("agentId"), id)
    case Group(id) => KindAndId(Ascii("group"), Ascii("conversationId"), id)
    case Service(id) => KindAndId(Ascii("service"), Ascii("serviceId"), id)
  }

  /** An address is written as its kind and the one id that kind has, each under its own name. */
  lemma AddressIsItsKindAndId(id: Text)
    ensures AddressJson(Human(id)).entries == [Entry(Ascii("kind"), JString(Ascii("human"))), Entry(Ascii("userId"), JString(id))]
    ensures AddressJson(Agent(id)).entries == [Entry(Ascii("kind"), JString(Ascii("agent"))), Entry(Ascii("agentId"), JString(id))]
    ensures AddressJson(Group(id)).entries
      == [Entry(Ascii("kind"), JString(Ascii("group"))), Entry(Ascii("conversationId"), JString(id))]
    ensures AddressJson(Service(id)).entries
      == [Entry(Ascii("kind"), JString(Ascii("service"))), Entry(Ascii("serviceId"), JString(id))]
  {
  }

  lemma KindAndIdDetermine(kind: Text, idKey: Text, id: Text, kind': Text, idKey': Text, id': Text)
    requires |idKey| != |Ascii("kind")| && |idKey'| != |Ascii("kind")|
    ensures IsJson(KindAndId(kind, idKey, id))
    ensures EqualModuloKeyOrder(KindAndId(kind, idKey, id), KindAndId(kind', idKey', id'))
      ==> kind == kind' && idKey == idKey' && id == id'
  {
    var v, w := KindAndId(kind, idKey, id), KindAndId(kind', idKey', id');
    if EqualModuloKeyOrder(v, w) {
      assert HasEqualEntry(v.entries[0], w.entries) && HasEqualEntry(v.entries[1], w.entries);
      var i :| 0 <= i < 2 && w.entries[i].key == Ascii("kind") && EqualModuloKeyOrder(JString(kind), w.entries[i].value);
      var j :| 0 <= j < 2 && w.entries[j].key == idKey && EqualModuloKeyOrder(JString(id), w.entries[j].value);
      assert i == 0 && j == 1;
    }
  }

  lemma AddressJsonDetermines(left: Address, right: Address)
    ensures IsJson(AddressJson(left))
    ensures EqualModuloKeyOrder(AddressJson(left), AddressJson(right)) ==> left == right
  {
    hide EqualModuloKeyOrder, IsJson;
    var v, w := AddressJson(left), AddressJson(right);
    KindAndIdDetermine(v.entries[0].value.text, v.entries[1].key, v.entries[1].value.text,
                       w.entries[0].value.text, w.entries[1].key, w.entries[1].value.text);
    assert Ascii("human")[0] != Ascii("agent")[0] && Ascii("human")[0] != Ascii("group")[0];
    assert Ascii("agent")[0] != Ascii("group")[0];
  }

  /** Comparing two addresses by their canonical text is comparing them, whatever the locale. */
  lemma AddressesEqualIsStructural(before: Collation, left: Address, right: Address)
    ensures CanonicalJson(before, AddressJson(left)) == CanonicalJson(before, AddressJson(right)) <==> left == right
  {
    hide CanonicalJson, EqualModuloKeyOrder, IsJson, AddressJson;
    AddressJsonDetermines(left, right);
    AddressJsonDetermines(right, left);
    EqualTextsMeanEqualValues(before, AddressJson(left), AddressJson(right));
  }

  // ----- The order keys come in

  ghost predicate IsOrderedThroughout(before: Collation, v: Json)
    decreases v
  {
    match v
    case JArray(items) => forall i :: 0 <= i < |items| ==> IsOrderedThroughout(before, items[i])
    case JObject(entries) =>
      && (forall i, j :: 0 <= i < j < |entries| ==> !before(entries[j].key, entries[i].key))
      && forall i :: 0 <= i < |entries| ==> IsOrderedThroughout(before, entries[i].value)
    case _ => true
  }

  /** What is written holds every object's keys in collation order, at every depth, first to last. */
  lemma {:induction false} KeysComeInCollationOrder(before: Collation, v: Json)
    requires IsWeakOrder(before)
    ensures IsOrderedThroughout(before, Normal(before, v))
    ensures CanonicalJson(before, v) == Render(Normal(before, v))
    decreases v
  {
    hide Render, Sort;
    match v
    case JArray(items) =>
      forall i | 0 <= i < |items| ensures IsOrderedThroughout(before, Normal(before, items[i])) {
        KeysComeInCollationOrder(before, items[i]);
      }
    case JObject(entries) =>
      forall i | 0 <= i < |entries| ensures IsOrderedThroughout(before, Normal(before, entries[i].value)) {
        KeysComeInCollationOrder(before, entries[i].value);
      }
      var written := NormalEntries(before, entries);
      var sorted := Sort(ByKey(before), written);
      ByKeyIsWeakOrder(before);
      SortSorts(ByKey(before), written);
      forall i | 0 <= i < |sorted| ensures IsOrderedThroughout(before, sorted[i].value) {
        SameMembers(written, sorted, sorted[i]);
      }
    case _ =>
  }
}
