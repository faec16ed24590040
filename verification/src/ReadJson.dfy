/** Reading an untrusted value as JSON: one walk, two modes, one specification (`readJsonValue`). */
module ReadJson {
  import opened Foundations

  /** Which object a container is: one the caller handed in, or a copy made while reading. */
  datatype Identity = Given(address: nat) | Copied

  /**
   * A value as `typeof` and enumeration see it. `own` are an object's own enumerable entries and
   * `inherited` the further ones `for...in` reaches. `ROther` is anything the switch refuses:
   * undefined, a function, a bigint, a symbol; `RForeign` an object that is not record-like:
   * a Map, a Set, a Date, a thenable.
   */
  datatype Raw =
    | RNull
    | RBool(value: bool)
    | RString(text: Text)
    | RNumber(digits: Text)
    | RNotFinite
    | ROther
    | RForeign
    | RArray(identity: Identity, items: seq<Raw>)
    | RRecord(identity: Identity, own: seq<Field>, inherited: seq<Field>)

  datatype Field = Field(key: Text, value: Raw)

  /** `None` is `REFUSED`. */
  type Verdict = Option<Raw>

  const PROTO: Text := [0x5F, 0x5F, 0x70, 0x72, 0x6F, 0x74, 0x6F, 0x5F, 0x5F]

  function Fields(v: Raw, parsed: bool): seq<Field>
    requires v.RRecord?
  {
    if parsed then v.own else v.own + v.inherited
  }

  // ----- The specification

  /** Refuse what JSON cannot hold, at any depth, under any key; drop `__proto__` keys; copy the rest. */
  predicate IsReadable(v: Raw, parsed: bool)
    decreases v, 1
  {
    match v
    case RNotFinite => false
    case ROther => false
    case RForeign => false
    case RArray(_, items) => forall i :: 0 <= i < |items| ==> IsReadable(items[i], parsed)
    case RRecord(_, own, inherited) =>
      && (forall i :: 0 <= i < |own| ==> IsReadable(own[i].value, parsed))
      && (!parsed ==> forall i :: 0 <= i < |inherited| ==> IsReadable(inherited[i].value, parsed))
    case _ => true
  }

  /** The value that comes back, every container a copy. */
  function Cleaned(v: Raw, parsed: bool): Raw
    decreases v, 1
  {
    match v
    case RArray(_, items) => RArray(Copied, CleanedItems(items, parsed))
    case RRecord(_, own, inherited) =>
      RRecord(Copied, CleanedFields(own, parsed) + (if parsed then [] else CleanedFields(inherited, parsed)), [])
    case _ => v
  }

  function CleanedItems(items: seq<Raw>, parsed: bool): (r: seq<Raw>)
    ensures |r| == |items| && forall i :: 0 <= i < |r| ==> r[i] == Cleaned(items[i], parsed)
    decreases items, 0
  {
    if items == [] then []
    else CleanedItems(items[..|items| - 1], parsed) + [Cleaned(items[|items| - 1], parsed)]
  }

  function CleanedFields(fields: seq<Field>, parsed: bool): seq<Field>
    decreases fields, 0
  {
    if fields == [] then []
    else
      var last := fields[|fields| - 1];
      CleanedFields(fields[..|fields| - 1], parsed)
      + if last.key == PROTO then [] else [Field(last.key, Cleaned(last.value, parsed))]
  }

  /** Equality of contents: which objects hold them aside. */
  function Contents(v: Raw): Raw
    decreases v
  {
    match v
    case RArray(_, items) => RArray(Copied, ContentsOfItems(items))
    case RRecord(_, own, inherited) => RRecord(Copied, ContentsOfFields(own), ContentsOfFields(inherited))
    case _ => v
  }

  function ContentsOfItems(items: seq<Raw>): (r: seq<Raw>)
    ensures |r| == |items| && forall i :: 0 <= i < |r| ==> r[i] == Contents(items[i])
    decreases items
  {
    if items == [] then [] else ContentsOfItems(items[..|items| - 1]) + [Contents(items[|items| - 1])]
  }

  function ContentsOfFields(fields: seq<Field>): (r: seq<Field>)
    ensures |r| == |fields| && forall i :: 0 <= i < |r| ==> r[i] == Field(fields[i].key, Contents(fields[i].value))
    decreases fields
  {
    if fields == [] then []
    else ContentsOfFields(fields[..|fields| - 1])
         + [Field(fields[|fields| - 1].key, Contents(fields[|fields| - 1].value))]
  }

  // ----- What `JSON.parse` hands over, and when it is handed back

  /** A `__proto__` key somewhere in the value. */
  predicate HoldsProto(v: Raw)
    decreases v
  {
    match v
    case RArray(_, items) => exists i :: 0 <= i < |items| && HoldsProto(items[i])
    case RRecord(_, own, inherited) =>
      || (exists i :: 0 <= i < |own| && HoldsProtoField(own[i]))
      || (exists i :: 0 <= i < |inherited| && HoldsProtoField(inherited[i]))
    case _ => false
  }

  predicate HoldsProtoField(field: Field)
    decreases field
  {
    field.key == PROTO || HoldsProto(field.value)
  }

  /**
   * Plain containers with own keys only, each a distinct object; numbers may have overflowed.
   * A copy made by an earlier read is as good, since it holds no `__proto__` key.
   */
  predicate IsParserOutput(v: Raw)
    decreases v
  {
    match v
    case ROther => false
    case RForeign => false
    case RArray(identity, items) =>
      (HoldsProto(v) ==> identity.Given?) && forall i :: 0 <= i < |items| ==> IsParserOutput(items[i])
    case RRecord(identity, own, inherited) =>
      && (HoldsProto(v) ==> identity.Given?) && inherited == []
      && forall i :: 0 <= i < |own| ==> IsParserOutput(own[i].value)
    case _ => true
  }

  /** The value itself where nothing beneath it has to go, a copy of each container on the way to what does. */
  function CopyOnWrite(v: Raw): Raw
    decreases v, 1
  {
    if !HoldsProto(v) then v
    else
      match v
      case RArray(_, items) => RArray(Copied, WrittenItems(items))
      case RRecord(_, own, _) => RRecord(Copied, WrittenFields(own), [])
      case _ => v
  }

  function WrittenItems(items: seq<Raw>): (r: seq<Raw>)
    ensures |r| == |items| && forall i :: 0 <= i < |r| ==> r[i] == CopyOnWrite(items[i])
    decreases items, 0
  {
    if items == [] then []
    else WrittenItems(items[..|items| - 1]) + [CopyOnWrite(items[|items| - 1])]
  }

  function WrittenFields(fields: seq<Field>): seq<Field>
    decreases fields, 0
  {
    if fields == [] then []
    else
      var last := fields[|fields| - 1];
      WrittenFields(fields[..|fields| - 1]) + if last.key == PROTO then [] else [Field(last.key, CopyOnWrite(last.value))]
  }

  /** `item === other`: containers by identity, everything else by value. */
  predicate IsSame(item: Raw, other: Raw) {
    match (item, other)
    case (RArray(a, _), RArray(b, _)) => a == b
    case (RRecord(a, _, _), RRecord(b, _, _)) => a == b
    case _ => item == other
  }

  lemma WrittenIsSameIffNothingDropped(v: Raw)
    requires IsParserOutput(v)
    ensures IsSame(CopyOnWrite(v), v) <==> !HoldsProto(v)
    ensures CopyOnWrite(v) == v <==> !HoldsProto(v)
  {
  }

  // ----- The walk

  /** What a read of one value gives, in either mode. */
  function Out(v: Raw, parsed: bool): Raw { if parsed then CopyOnWrite(v) else Cleaned(v, false) }

  function OutItems(items: seq<Raw>, parsed: bool): seq<Raw> {
    if parsed then WrittenItems(items) else CleanedItems(items, false)
  }

  function OutFields(fields: seq<Field>, parsed: bool): seq<Field> {
    if parsed then WrittenFields(fields) else CleanedFields(fields, false)
  }

  /** A record's untouched beginning, copied when the first field has to change. */
  method CopyKeys(fields: seq<Field>, count: nat) returns (copy: seq<Field>)
    requires count <= |fields|
    ensures copy == fields[..count]
  {
    copy := [];
    for index := 0 to count
      invariant copy == fields[..index]
    {
      copy := copy + [fields[index]];
    }
  }

  method ReadJsonValue(value: Raw, parsed: bool) returns (read: Verdict)
    requires parsed ==> IsParserOutput(value)
    ensures read == if IsReadable(value, parsed) then Some(Out(value, parsed)) else None
    decreases value, 1
  {
    match value {
      case RNull => return Some(value);
      case RBool(_) => return Some(value);
      case RString(_) => return Some(value);
      case RNumber(_) => return Some(value);
      case RNotFinite => return None;
      case ROther => return None;
      case RForeign => return None;
      case RArray(_, items) => read := ReadArray(value, parsed);
      case RRecord(_, _, _) => read := ReadRecord(value, parsed);
    }
  }

  method ReadArray(value: Raw, parsed: bool) returns (read: Verdict)
    requires value.RArray? && (parsed ==> IsParserOutput(value))
    ensures read == if IsReadable(value, parsed) then Some(Out(value, parsed)) else None
    decreases value, 0
  {
    hide IsReadable, CopyOnWrite, Cleaned, HoldsProto, IsParserOutput, IsSame, OutItems, Out;
    var items := value.items;
    ArrayMeans(value, parsed);
    NoItems(parsed);
    var copy: Option<seq<Raw>> := if parsed then None else Some([]);
    for index := 0 to |items|
      invariant forall i :: 0 <= i < index ==> IsReadable(items[i], parsed)
      invariant copy.Some? ==> copy.value == OutItems(items[..index], parsed)
      invariant copy.None? <==> parsed && forall i :: 0 <= i < index ==> !HoldsProto(items[i])
    {
      var item := ReadJsonValue(items[index], parsed);
      if item.None? { return None; }
      if parsed { WrittenIsSameIffNothingDropped(items[index]); }
      OneMoreItem(items, index, parsed);
      if copy.Some? {
        copy := Some(copy.value + [item.value]);
      } else if !IsSame(item.value, items[index]) {
        copy := Some(items[..index] + [item.value]);
      }
    }
    assert items[..|items|] == items;
    return Some(if copy.Some? then RArray(Copied, copy.value) else value);
  }

  method ReadRecord(value: Raw, parsed: bool) returns (read: Verdict)
    requires value.RRecord? && (parsed ==> IsParserOutput(value))
    ensures read == if IsReadable(value, parsed) then Some(Out(value, parsed)) else None
    decreases value, 0
  {
    hide IsReadable, CopyOnWrite, Cleaned, HoldsProto, HoldsProtoField, IsParserOutput, IsSame, OutFields, Out;
    var fields := Fields(value, parsed);
    RecordMeans(value, parsed);
    NoFields(parsed);
    var copy: Option<seq<Field>> := if parsed then None else Some([]);
    for index := 0 to |fields|
      invariant forall i :: 0 <= i < index ==> IsReadable(fields[i].value, parsed)
      invariant copy.Some? ==> copy.value == OutFields(fields[..index], parsed)
      invariant copy.None? <==> parsed && forall i :: 0 <= i < index ==> !HoldsProtoField(fields[i])
    {
      var field := fields[index];
      assert field in fields && (field in value.own || field in value.inherited);
      var item := ReadJsonValue(field.value, parsed);
      if item.None? { return None; }
      FieldMeans(field, parsed);
      OneMoreField(fields, index, parsed);
      if field.key == PROTO {
        if copy.None? {
          var untouched := CopyKeys(fields, index);
          copy := Some(untouched);
        }
        assert copy.value + [] == copy.value;
      } else if copy.Some? {
        copy := Some(copy.value + [Field(field.key, item.value)]);
      } else if !IsSame(item.value, field.value) {
        var untouched := CopyKeys(fields, index);
        copy := Some(untouched + [Field(field.key, item.value)]);
      }
    }
    assert fields[..|fields|] == fields;
    return Some(if copy.Some? then RRecord(Copied, copy.value, []) else value);
  }

  lemma NoItems(parsed: bool)
    ensures OutItems([], parsed) == []
  {
  }

  lemma OneMoreItem(items: seq<Raw>, index: nat, parsed: bool)
    requires index < |items|
    ensures OutItems(items[..index + 1], parsed) == OutItems(items[..index], parsed) + [Out(items[index], parsed)]
    ensures parsed && (forall i :: 0 <= i < index ==> !HoldsProto(items[i])) ==>
      OutItems(items[..index], parsed) == items[..index]
    ensures parsed ==> Out(items[index], parsed) == CopyOnWrite(items[index])
  {
    hide CopyOnWrite, Cleaned, HoldsProto;
    assert items[..index + 1][..index] == items[..index];
    if parsed && forall i :: 0 <= i < index ==> !HoldsProto(items[i]) { UntouchedItems(items[..index]); }
  }

  lemma NoFields(parsed: bool)
    ensures OutFields([], parsed) == []
  {
  }

  lemma OneMoreField(fields: seq<Field>, index: nat, parsed: bool)
    requires index < |fields|
    ensures
      var last := fields[index];
      OutFields(fields[..index + 1], parsed)
      == OutFields(fields[..index], parsed) + if last.key == PROTO then [] else [Field(last.key, Out(last.value, parsed))]
    ensures parsed && (forall i :: 0 <= i < index ==> !HoldsProtoField(fields[i])) ==>
      OutFields(fields[..index], parsed) == fields[..index]
  {
    hide CopyOnWrite, Cleaned, HoldsProtoField;
    assert fields[..index + 1][..index] == fields[..index];
    if parsed && forall i :: 0 <= i < index ==> !HoldsProtoField(fields[i]) { UntouchedFields(fields[..index]); }
  }

  lemma ArrayMeans(value: Raw, parsed: bool)
    requires value.RArray?
    ensures IsReadable(value, parsed) <==> forall i :: 0 <= i < |value.items| ==> IsReadable(value.items[i], parsed)
    ensures HoldsProto(value) <==> exists i :: 0 <= i < |value.items| && HoldsProto(value.items[i])
    ensures Out(value, parsed)
      == if parsed && !HoldsProto(value) then value else RArray(Copied, OutItems(value.items, parsed))
    ensures IsParserOutput(value) ==> forall i :: 0 <= i < |value.items| ==> IsParserOutput(value.items[i])
  {
  }

  lemma RecordMeans(value: Raw, parsed: bool)
    requires value.RRecord? && (parsed ==> IsParserOutput(value))
    ensures
      var fields := Fields(value, parsed);
      && (IsReadable(value, parsed) <==> forall i :: 0 <= i < |fields| ==> IsReadable(fields[i].value, parsed))
      && (parsed ==> (HoldsProto(value) <==> exists i :: 0 <= i < |fields| && HoldsProtoField(fields[i])))
      && Out(value, parsed) == (if parsed && !HoldsProto(value) then value else RRecord(Copied, OutFields(fields, parsed), []))
      && (parsed ==> forall i :: 0 <= i < |fields| ==> IsParserOutput(fields[i].value))
  {
    hide IsReadable, CopyOnWrite, Cleaned, HoldsProto, HoldsProtoField, IsParserOutput, WrittenFields, CleanedFields;
    if parsed {
      ParsedRecordMeans(value);
    } else {
      ForeignRecordMeans(value);
      assert Fields(value, false) == value.own + value.inherited;
      assert Out(value, false) == Cleaned(value, false);
      assert OutFields(Fields(value, false), false) == CleanedFields(value.own + value.inherited, false);
    }
  }

  lemma ParsedRecordMeans(value: Raw)
    requires value.RRecord? && IsParserOutput(value)
    ensures IsReadable(value, true) <==> forall i :: 0 <= i < |value.own| ==> IsReadable(value.own[i].value, true)
    ensures HoldsProto(value) <==> exists i :: 0 <= i < |value.own| && HoldsProtoField(value.own[i])
    ensures CopyOnWrite(value) == if !HoldsProto(value) then value else RRecord(Copied, WrittenFields(value.own), [])
    ensures forall i :: 0 <= i < |value.own| ==> IsParserOutput(value.own[i].value)
  {
    hide HoldsProtoField, WrittenFields;
  }

  lemma ForeignRecordMeans(value: Raw)
    requires value.RRecord?
    ensures
      var fields := value.own + value.inherited;
      && (IsReadable(value, false) <==> forall i :: 0 <= i < |fields| ==> IsReadable(fields[i].value, false))
      && Cleaned(value, false) == RRecord(Copied, CleanedFields(fields, false), [])
  {
    hide CleanedFields;
    CleanedFieldsOfBoth(value.own, value.inherited);
    ReadableBoth(value.own, value.inherited);
  }

  ghost predicate AreReadable(fields: seq<Field>) { forall i :: 0 <= i < |fields| ==> IsReadable(fields[i].value, false) }

  lemma ReadableBoth(own: seq<Field>, inherited: seq<Field>)
    ensures AreReadable(own + inherited) <==> AreReadable(own) && AreReadable(inherited)
  {
    hide IsReadable;
    var fields := own + inherited;
    if AreReadable(fields) {
      forall i | 0 <= i < |own| ensures IsReadable(own[i].value, false) { assert fields[i] == own[i]; }
      forall i | 0 <= i < |inherited| ensures IsReadable(inherited[i].value, false) {
        assert fields[|own| + i] == inherited[i];
      }
    }
  }

  lemma {:induction false} CleanedFieldsOfBoth(own: seq<Field>, inherited: seq<Field>)
    ensures CleanedFields(own + inherited, false) == CleanedFields(own, false) + CleanedFields(inherited, false)
  {
    if inherited == [] {
      assert own + inherited == own;
    } else {
      var n := |inherited| - 1;
      assert (own + inherited)[..|own + inherited| - 1] == own + inherited[..n];
      CleanedFieldsOfBoth(own, inherited[..n]);
    }
  }

  lemma FieldMeans(field: Field, parsed: bool)
    requires parsed ==> IsParserOutput(field.value)
    ensures HoldsProtoField(field) <==> field.key == PROTO || HoldsProto(field.value)
    ensures parsed ==> (IsSame(CopyOnWrite(field.value), field.value) <==> !HoldsProto(field.value))
    ensures parsed && !HoldsProto(field.value) ==> Out(field.value, parsed) == field.value
    ensures parsed ==> Out(field.value, parsed) == CopyOnWrite(field.value)
  {
    if parsed { WrittenIsSameIffNothingDropped(field.value); }
  }

  lemma UntouchedItems(items: seq<Raw>)
    requires forall i :: 0 <= i < |items| ==> !HoldsProto(items[i])
    ensures WrittenItems(items) == items
  {
  }

  lemma {:induction false} UntouchedFields(fields: seq<Field>)
    requires forall i :: 0 <= i < |fields| ==> !HoldsProtoField(fields[i])
    ensures WrittenFields(fields) == fields
  {
    if fields != [] {
      var n := |fields| - 1;
      UntouchedFields(fields[..n]);
      assert fields == fields[..n] + [fields[n]];
      assert !HoldsProtoField(fields[n]);
    }
  }

  // ----- One specification for both modes

  /** The three things the two modes agree on at one value. */
  ghost predicate ModesAgree(v: Raw) {
    && Contents(CopyOnWrite(v)) == Contents(Cleaned(v, true))
    && Cleaned(v, true) == Cleaned(v, false)
    && (IsReadable(v, true) <==> IsReadable(v, false))
  }

  /** Reading drops every `__proto__` and nothing else, in either mode. */
  lemma {:induction false} BothModesGiveTheSameContents(v: Raw)
    requires IsParserOutput(v)
    ensures ModesAgree(v)
    decreases v
  {
    hide Cleaned, CopyOnWrite, ModesAgree, Contents, IsReadable;
    match v
    case RArray(_, items) =>
      forall i | 0 <= i < |items| ensures ModesAgree(items[i]) { BothModesGiveTheSameContents(items[i]); }
      ModesAgreeOnArray(v);
    case RRecord(_, own, _) =>
      forall i | 0 <= i < |own| ensures ModesAgree(own[i].value) { BothModesGiveTheSameContents(own[i].value); }
      ModesAgreeOnRecord(v);
    case _ => ModesAgreeOnLeaf(v);
  }

  lemma ModesAgreeOnLeaf(v: Raw)
    requires !v.RArray? && !v.RRecord?
    ensures ModesAgree(v)
  {
  }

  lemma OneLevelOfArray(v: Raw, parsed: bool)
    requires v.RArray?
    ensures Contents(Cleaned(v, parsed)) == RArray(Copied, ContentsOfItems(CleanedItems(v.items, parsed)))
    ensures Cleaned(v, parsed) == RArray(Copied, CleanedItems(v.items, parsed))
    ensures IsReadable(v, parsed) <==> forall i :: 0 <= i < |v.items| ==> IsReadable(v.items[i], parsed)
  {
    hide CleanedItems, ContentsOfItems;
  }

  lemma ModesAgreeOnArray(v: Raw)
    requires v.RArray? && IsParserOutput(v)
    requires forall i :: 0 <= i < |v.items| ==> ModesAgree(v.items[i])
    ensures ModesAgree(v)
  {
    UntouchedOr(v);
    OneLevelOfArray(v, true);
    OneLevelOfArray(v, false);
    SameItemContents(v.items);
    hide CopyOnWrite, Cleaned, Contents, IsReadable, IsParserOutput;
  }

  lemma SameItemContents(items: seq<Raw>)
    requires forall i :: 0 <= i < |items| ==> ModesAgree(items[i])
    ensures ContentsOfItems(WrittenItems(items)) == ContentsOfItems(CleanedItems(items, true))
    ensures CleanedItems(items, true) == CleanedItems(items, false)
  {
    hide CopyOnWrite, Cleaned, Contents, IsReadable, WrittenItems, CleanedItems, ContentsOfItems;
  }

  lemma OneLevelOfRecord(v: Raw, parsed: bool)
    requires v.RRecord? && v.inherited == []
    ensures Cleaned(v, parsed) == RRecord(Copied, CleanedFields(v.own, parsed), [])
    ensures Contents(Cleaned(v, parsed)) == RRecord(Copied, ContentsOfFields(CleanedFields(v.own, parsed)), [])
    ensures IsReadable(v, parsed) <==> forall i :: 0 <= i < |v.own| ==> IsReadable(v.own[i].value, parsed)
  {
    hide ContentsOfFields, Contents;
    assert CleanedFields(v.own, parsed) + [] == CleanedFields(v.own, parsed) && CleanedFields([], parsed) == [];
    ContentsOfCopy(CleanedFields(v.own, parsed));
  }

  lemma ContentsOfCopy(fields: seq<Field>)
    ensures Contents(RRecord(Copied, fields, [])) == RRecord(Copied, ContentsOfFields(fields), [])
  {
    assert ContentsOfFields([]) == [];
  }

  lemma ModesAgreeOnRecord(v: Raw)
    requires v.RRecord? && IsParserOutput(v)
    requires forall i :: 0 <= i < |v.own| ==> ModesAgree(v.own[i].value)
    ensures ModesAgree(v)
  {
    UntouchedOr(v);
    OneLevelOfRecord(v, true);
    OneLevelOfRecord(v, false);
    SameFieldContents(v.own);
    hide CopyOnWrite, Cleaned, Contents, IsReadable, IsParserOutput;
  }

  /** Both branches of the copy-on-write mode in one form. */
  lemma UntouchedOr(v: Raw)
    requires IsParserOutput(v)
    ensures v.RArray? ==> Contents(CopyOnWrite(v)) == RArray(Copied, ContentsOfItems(WrittenItems(v.items)))
    ensures v.RRecord? ==> Contents(CopyOnWrite(v)) == RRecord(Copied, ContentsOfFields(WrittenFields(v.own)), [])
  {
    if !HoldsProto(v) {
      if v.RArray? { UntouchedItems(v.items); }
      if v.RRecord? {
        forall i | 0 <= i < |v.own| ensures !HoldsProtoField(v.own[i]) {}
        UntouchedFields(v.own);
      }
    }
  }

  lemma {:induction false} SameFieldContents(fields: seq<Field>)
    requires forall i :: 0 <= i < |fields| ==> ModesAgree(fields[i].value)
    ensures ContentsOfFields(WrittenFields(fields)) == ContentsOfFields(CleanedFields(fields, true))
    ensures CleanedFields(fields, true) == CleanedFields(fields, false)
  {
    hide Contents, CopyOnWrite, Cleaned, IsReadable, ContentsOfFields;
    if fields != [] {
      var n := |fields| - 1;
      SameFieldContents(fields[..n]);
      var written, cleaned := WrittenFields(fields[..n]), CleanedFields(fields[..n], true);
      assert ModesAgree(fields[n].value);
      if fields[n].key == PROTO {
        assert written + [] == written && cleaned + [] == cleaned;
      } else {
        ContentsOfMore(written, Field(fields[n].key, CopyOnWrite(fields[n].value)));
        ContentsOfMore(cleaned, Field(fields[n].key, Cleaned(fields[n].value, true)));
      }
    }
  }

  lemma ContentsOfMore(fields: seq<Field>, field: Field)
    ensures ContentsOfFields(fields + [field]) == ContentsOfFields(fields) + [Field(field.key, Contents(field.value))]
  {
    hide Contents;
    assert (fields + [field])[..|fields|] == fields;
  }

  /** What has been read, in either mode, holds nothing more to drop or refuse, and reads back as itself. */
  lemma ReadingIsIdempotent(v: Raw, parsed: bool)
    requires parsed ==> IsParserOutput(v)
    requires IsReadable(v, parsed)
    ensures IsClean(Out(v, parsed)) && IsReadable(Out(v, parsed), parsed)
    ensures Out(Out(v, parsed), parsed) == Out(v, parsed)
    ensures CopyOnWrite(Out(v, parsed)) == Out(v, parsed)
  {
    hide IsReadable, CopyOnWrite, Cleaned, HoldsProto, IsParserOutput;
    if parsed { WrittenIsClean(v); } else { CopiedIsClean(v); CopyingAgainCopies(v); }
    var read := Out(v, parsed);
    BothModesGiveTheSameContents(read);
    CleanReadsAsItself(read);
  }

  lemma CleanReadsAsItself(v: Raw)
    requires IsClean(v)
    ensures CopyOnWrite(v) == v
  {
  }

  lemma {:induction false} WrittenIsClean(v: Raw)
    requires IsParserOutput(v) && IsReadable(v, true)
    ensures IsClean(CopyOnWrite(v))
    decreases v
  {
    if HoldsProto(v) {
      match v
      case RArray(_, items) =>
        forall i | 0 <= i < |items| ensures IsClean(CopyOnWrite(items[i])) { WrittenIsClean(items[i]); }
        CleanArray(WrittenItems(items));
      case RRecord(_, own, _) =>
        forall i | 0 <= i < |own| ensures IsClean(CopyOnWrite(own[i].value)) { WrittenIsClean(own[i].value); }
        WrittenFieldsAreClean(own);
        CleanRecord(WrittenFields(own));
      case _ =>
    }
  }

  /** The copying mode on any value at all, whatever a tool's parser handed over. */
  lemma {:induction false} CopiedIsClean(v: Raw)
    requires IsReadable(v, false)
    ensures IsClean(Cleaned(v, false))
    decreases v
  {
    hide IsClean;
    match v
    case RArray(_, items) =>
      forall i | 0 <= i < |items| ensures IsClean(Cleaned(items[i], false)) { CopiedIsClean(items[i]); }
      CleanArray(CleanedItems(items, false));
    case RRecord(_, own, inherited) =>
      forall i | 0 <= i < |own| ensures IsClean(Cleaned(own[i].value, false)) { CopiedIsClean(own[i].value); }
      forall i | 0 <= i < |inherited| ensures IsClean(Cleaned(inherited[i].value, false)) {
        CopiedIsClean(inherited[i].value);
      }
      CleanedFieldsAreClean(own);
      CleanedFieldsAreClean(inherited);
      CleanRecord(CleanedFields(own, false) + CleanedFields(inherited, false));
    case _ => CleanLeaf(v);
  }

  lemma CleanLeaf(v: Raw)
    requires IsReadable(v, false) && !v.RArray? && !v.RRecord?
    ensures IsClean(v)
  {
  }

  lemma {:induction false} CleanedFieldsAreClean(fields: seq<Field>)
    requires forall i :: 0 <= i < |fields| ==> IsClean(Cleaned(fields[i].value, false))
    ensures forall f :: f in CleanedFields(fields, false) ==> f.key != PROTO && IsClean(f.value)
  {
    hide Cleaned, IsClean;
    if fields != [] { CleanedFieldsAreClean(fields[..|fields| - 1]); }
  }

  /** Copying a copy changes nothing, readable or not. */
  lemma {:induction false} CopyingAgainCopies(v: Raw)
    ensures Cleaned(Cleaned(v, false), false) == Cleaned(v, false)
    decreases v
  {
    match v
    case RArray(_, items) =>
      forall i | 0 <= i < |items| ensures Cleaned(Cleaned(items[i], false), false) == Cleaned(items[i], false) {
        CopyingAgainCopies(items[i]);
      }
    case RRecord(_, own, inherited) =>
      forall i | 0 <= i < |own| ensures IsCopied(Cleaned(own[i].value, false)) { CopyingAgainCopies(own[i].value); }
      forall i | 0 <= i < |inherited| ensures IsCopied(Cleaned(inherited[i].value, false)) {
        CopyingAgainCopies(inherited[i].value);
      }
      CopiedFieldsStay(own);
      CopiedFieldsStay(inherited);
      CleanedFieldsOfBoth(CleanedFields(own, false), CleanedFields(inherited, false));
      CopiedRecordStays(CleanedFields(own, false) + CleanedFields(inherited, false));
    case _ =>
  }

  predicate IsCopied(v: Raw) { Cleaned(v, false) == v }

  lemma CopiedRecordStays(fields: seq<Field>)
    requires CleanedFields(fields, false) == fields
    ensures IsCopied(RRecord(Copied, fields, []))
  {
    hide CleanedFields;
    assert CleanedFields([], false) == [] by { NoFields(false); }
    assert fields + [] == fields;
  }

  lemma {:induction false} CopiedFieldsStay(fields: seq<Field>)
    requires forall i :: 0 <= i < |fields| ==> IsCopied(Cleaned(fields[i].value, false))
    ensures CleanedFields(CleanedFields(fields, false), false) == CleanedFields(fields, false)
  {
    hide Cleaned;
    if fields != [] {
      var shorter, last := fields[..|fields| - 1], fields[|fields| - 1];
      CopiedFieldsStay(shorter);
      var before := CleanedFields(shorter, false);
      if last.key == PROTO {
        assert before + [] == before;
      } else {
        var field := Field(last.key, Cleaned(last.value, false));
        assert (before + [field])[..|before|] == before;
      }
    }
  }

  lemma CleanArray(items: seq<Raw>)
    requires forall i :: 0 <= i < |items| ==> IsClean(items[i])
    ensures IsClean(RArray(Copied, items))
  {
  }

  lemma CleanRecord(fields: seq<Field>)
    requires forall f :: f in fields ==> f.key != PROTO && IsClean(f.value)
    ensures IsClean(RRecord(Copied, fields, []))
  {
    forall i | 0 <= i < |fields|
      ensures !HoldsProtoField(fields[i]) && IsParserOutput(fields[i].value) && IsReadable(fields[i].value, true)
    {
      assert fields[i] in fields;
    }
  }

  /** Nothing to drop, nothing to refuse. */
  ghost predicate IsClean(v: Raw) { !HoldsProto(v) && IsParserOutput(v) && IsReadable(v, true) }

  lemma {:induction false} WrittenFieldsAreClean(fields: seq<Field>)
    requires forall i :: 0 <= i < |fields| ==> IsClean(CopyOnWrite(fields[i].value))
    ensures forall f :: f in WrittenFields(fields) ==> f.key != PROTO && IsClean(f.value)
  {
    hide CopyOnWrite, IsClean;
    if fields != [] { WrittenFieldsAreClean(fields[..|fields| - 1]); }
  }

  // ----- The two entry points

  method ReadJsonObject(value: Raw) returns (read: Verdict)
    ensures read == if value.RRecord? && IsReadable(value, false) then Some(Cleaned(value, false)) else None
  {
    if !value.RRecord? { return None; }
    read := ReadJsonValue(value, false);
  }

  /** `document` is what `JSON.parse` made of the text, absent when it threw. */
  method ParseJsonObject(document: Option<Raw>) returns (read: Verdict)
    requires document.Some? ==> IsParserOutput(document.value)
    ensures read == if document.Some? && document.value.RRecord? && IsReadable(document.value, true)
                    then Some(CopyOnWrite(document.value)) else None
  {
    if document.None? || !document.value.RRecord? { return None; }
    read := ReadJsonValue(document.value, true);
  }

  // ----- What is refused, and what is kept, place by place

  /** `w` is `v`, or stands somewhere beneath it where the walk goes. */
  ghost predicate Holds(v: Raw, w: Raw, parsed: bool)
    decreases v
  {
    || v == w
    || match v
       case RArray(_, items) => exists i :: 0 <= i < |items| && Holds(items[i], w, parsed)
       case RRecord(_, own, inherited) =>
         || (exists i :: 0 <= i < |own| && Holds(own[i].value, w, parsed))
         || (!parsed && exists i :: 0 <= i < |inherited| && Holds(inherited[i].value, w, parsed))
       case _ => false
  }

  /** Refused exactly for an infinite number, a leaf that is no JSON, or an object that is no record, at any depth. */
  lemma {:induction false} RefusedForWhatIsBeneath(v: Raw, parsed: bool)
    ensures IsReadable(v, parsed)
      <==> !Holds(v, RNotFinite, parsed) && !Holds(v, ROther, parsed) && !Holds(v, RForeign, parsed)
    decreases v
  {
    match v
    case RArray(_, items) =>
      forall i | 0 <= i < |items|
        ensures IsReadable(items[i], parsed) <==> HoldsNone(items[i], parsed)
      {
        RefusedForWhatIsBeneath(items[i], parsed);
      }
    case RRecord(_, own, inherited) =>
      forall i | 0 <= i < |own|
        ensures IsReadable(own[i].value, parsed) <==> HoldsNone(own[i].value, parsed)
      {
        RefusedForWhatIsBeneath(own[i].value, parsed);
      }
      forall i | 0 <= i < |inherited|
        ensures IsReadable(inherited[i].value, parsed) <==> HoldsNone(inherited[i].value, parsed)
      {
        RefusedForWhatIsBeneath(inherited[i].value, parsed);
      }
    case _ =>
  }

  ghost predicate HoldsNone(v: Raw, parsed: bool) {
    !Holds(v, RNotFinite, parsed) && !Holds(v, ROther, parsed) && !Holds(v, RForeign, parsed)
  }

  datatype Hop = AtIndex(index: nat) | AtKey(key: Text)

  /** The first field of that key. */
  function LookUp(fields: seq<Field>, key: Text): Option<Raw> {
    if fields == [] then None
    else
      var last := fields[|fields| - 1];
      var earlier := LookUp(fields[..|fields| - 1], key);
      if earlier.Some? then earlier else if last.key == key then Some(last.value) else None
  }

  /** What stands at the end of a path, if anything does. */
  function Find(v: Raw, path: seq<Hop>, parsed: bool): Option<Raw>
    decreases |path|
  {
    if path == [] then Some(v)
    else
      match (v, path[0])
      case (RArray(_, items), AtIndex(index)) => if index < |items| then Find(items[index], path[1..], parsed) else None
      case (RRecord(_, _, _), AtKey(key)) =>
        var found := LookUp(Fields(v, parsed), key);
        if found.Some? then Find(found.value, path[1..], parsed) else None
      case _ => None
  }

  /** The same leaf, an array as long, or a record. */
  ghost predicate IsLike(read: Raw, v: Raw) {
    match v
    case RArray(_, items) => read.RArray? && |read.items| == |items|
    case RRecord(_, _, _) => read.RRecord?
    case _ => read == v
  }

  /** Reading drops `__proto__` and nothing else: every other path leads where it led, to what was there. */
  lemma {:induction false} NothingElseIsDropped(v: Raw, path: seq<Hop>, parsed: bool)
    requires parsed ==> IsParserOutput(v)
    requires AtKey(Ascii("__proto__")) !in path
    ensures
      var (found, read) := (Find(v, path, parsed), Find(Out(v, parsed), path, parsed));
      && (found.Some? <==> read.Some?)
      && (found.Some? ==> IsLike(read.value, found.value))
    decreases |path|
  {
    hide CopyOnWrite, Cleaned, IsParserOutput, HoldsProto;
    OutIsLike(v, parsed);
    if path != [] {
      assert path[0] in path && forall hop :: hop in path[1..] ==> hop in path;
      assert PROTO == Ascii("__proto__");
      match (v, path[0])
      case (RArray(_, items), AtIndex(index)) =>
        OutOfArray(v, parsed);
        if index < |items| { NothingElseIsDropped(items[index], path[1..], parsed); }
      case (RRecord(_, _, _), AtKey(key)) =>
        OutOfRecord(v, parsed, key);
        var found := LookUp(Fields(v, parsed), key);
        if found.Some? { NothingElseIsDropped(found.value, path[1..], parsed); }
      case _ =>
    }
  }

  lemma OutIsLike(v: Raw, parsed: bool)
    requires parsed ==> IsParserOutput(v)
    ensures IsLike(Out(v, parsed), v)
  {
  }

  lemma OutOfArray(v: Raw, parsed: bool)
    requires v.RArray? && (parsed ==> IsParserOutput(v))
    ensures parsed ==> forall i :: 0 <= i < |v.items| ==> IsParserOutput(v.items[i])
    ensures
      var read := Out(v, parsed);
      read.RArray? && |read.items| == |v.items| && forall i :: 0 <= i < |v.items| ==> read.items[i] == Out(v.items[i], parsed)
  {
    hide IsParserOutput;
    ArrayMeans(v, parsed);
    if parsed { forall i | 0 <= i < |v.items| { WrittenIsSameIffNothingDropped(v.items[i]); } }
  }

  lemma OutOfRecord(v: Raw, parsed: bool, key: Text)
    requires v.RRecord? && (parsed ==> IsParserOutput(v)) && key != PROTO
    ensures
      var (found, read) := (LookUp(Fields(v, parsed), key), Out(v, parsed));
      && read.RRecord?
      && (parsed && found.Some? ==> IsParserOutput(found.value))
      && LookUp(Fields(read, parsed), key) == if found.Some? then Some(Out(found.value, parsed)) else None
  {
    hide CopyOnWrite, Cleaned, IsParserOutput, HoldsProto, HoldsProtoField, Out, OutFields;
    var fields := Fields(v, parsed);
    RecordMeans(v, parsed);
    LookUpFinds(fields, key);
    LookUpOut(fields, key, parsed);
    FieldsOfOut(v, parsed);
  }

  /** The fields of what is read are the fields as written, or all of them when nothing had to go. */
  lemma FieldsOfOut(v: Raw, parsed: bool)
    requires v.RRecord? && (parsed ==> IsParserOutput(v))
    ensures Out(v, parsed).RRecord? && Fields(Out(v, parsed), parsed) == OutFields(Fields(v, parsed), parsed)
  {
    hide CopyOnWrite, Cleaned, IsParserOutput, HoldsProto, HoldsProtoField, OutFields, Out;
    RecordMeans(v, parsed);
    var fields := Fields(v, parsed);
    if parsed && !HoldsProto(v) {
      OneMoreFieldUntouched(fields);
    }
    assert OutFields(fields, parsed) + [] == OutFields(fields, parsed);
  }

  lemma OneMoreFieldUntouched(fields: seq<Field>)
    requires forall i :: 0 <= i < |fields| ==> !HoldsProtoField(fields[i])
    ensures OutFields(fields, true) == fields
  {
    hide HoldsProtoField;
    UntouchedFields(fields);
  }

  lemma {:induction false} LookUpFinds(fields: seq<Field>, key: Text)
    ensures LookUp(fields, key).Some? ==> exists i :: 0 <= i < |fields| && LookUp(fields, key) == Some(fields[i].value)
  {
    if fields != [] { LookUpFinds(fields[..|fields| - 1], key); }
  }

  lemma {:induction false} LookUpOut(fields: seq<Field>, key: Text, parsed: bool)
    requires key != PROTO
    ensures
      var found := LookUp(fields, key);
      LookUp(OutFields(fields, parsed), key) == if found.Some? then Some(Out(found.value, parsed)) else None
  {
    hide Out, OutFields;
    if fields == [] {
      NoFields(parsed);
    } else {
      var n := |fields| - 1;
      LookUpOut(fields[..n], key, parsed);
      assert fields[..n + 1] == fields;
      OneMoreField(fields, n, parsed);
      var before := OutFields(fields[..n], parsed);
      if fields[n].key == PROTO {
        assert before + [] == before;
      } else {
        assert (before + [Field(fields[n].key, Out(fields[n].value, parsed))])[..|before|] == before;
      }
    }
  }
}
