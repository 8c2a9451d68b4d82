/** `io.spine.code.js.Fields`: how the JavaScript generator classifies a proto field as a
    message, an enum, a repeated field or a map.

    A map field follows the Protocol Buffers map convention: a repeated field whose type is
    a message named after the field in CamelCase with the suffix `Entry`, with fields `key`
    and `value`. `io.spine.code.js.FieldName`, which produces the CamelCase name, is not part
    of this model; `CamelCase` below follows that convention. */
module JsFields {
  import opened Wrappers
  import opened Protos

  const EntrySuffix: string := "Entry"
  const MapEntryKey: string := "key"
  const MapEntryValue: string := "value"

  /** A `FieldDescriptor`: the field's proto and, for a message field, its message type. */
  datatype FieldDescriptor = FieldDescriptor(proto: FieldProto, messageType: Option<MessageProto>)

  /** `Character.toUpperCase` on ASCII letters. */
  function ToUpper(c: char): (r: char)
    ensures 'a' <= c <= 'z' ==> 'A' <= r <= 'Z'
    ensures !('a' <= c <= 'z') ==> r == c
  {
    if 'a' <= c <= 'z' then (c as int - 'a' as int + 'A' as int) as char else c
  }

  /** The CamelCase form of a field name: underscores dropped, and the first letter and
      every letter after an underscore upper-cased. */
  function CamelCase(name: string): (r: string)
    ensures |r| <= |name|
  {
    CamelCaseFrom(name, true)
  }

  function CamelCaseFrom(s: string, capitalize: bool): (r: string)
    ensures |r| <= |s|
    ensures forall k :: 0 <= k < |r| ==> r[k] != '_'
  {
    if |s| == 0 then ""
    else if s[0] == '_' then CamelCaseFrom(s[1..], true)
    else [if capitalize then ToUpper(s[0]) else s[0]] + CamelCaseFrom(s[1..], false)
  }

  /** The CamelCase name of the field `primitive_field` is `PrimitiveField`. */
  lemma CamelCaseExample()
    ensures CamelCase("primitive_field") == "PrimitiveField"
  {
    assert "primitive_field"[1..] == "rimitive_field";
    assert CamelCaseFrom("primitive_field", true) == "P" + CamelCaseFrom("rimitive_field", false);
    CamelCaseAfterPrimitive();
    PrimitiveFieldSpelling();
  }

  /** The two parts spell the expected name; kept apart so that the character-by-character
      comparison does not meet the unfoldings of `CamelCaseFrom`. */
  lemma PrimitiveFieldSpelling()
    ensures "P" + ("rimitive" + "Field") == "PrimitiveField"
  {
    assert "rimitive" + "Field" == "rimitiveField";
  }

  lemma CamelCaseAfterPrimitive()
    ensures CamelCaseFrom("rimitive_field", false) == "rimitive" + "Field"
  {
    assert "rimitive_field" == "rimitive" + "_field";
    CamelCaseKeepsPrefix("rimitive", "_field");
    assert "_field"[1..] == "field";
    CamelCaseCapitalField();
  }

  lemma CamelCaseCapitalField()
    ensures CamelCaseFrom("field", true) == "Field"
  {
    assert "field"[1..] == "ield";
    assert CamelCaseFrom("field", true) == "F" + CamelCaseFrom("ield", false);
    CamelCaseOfCamelCase("ield", false);
  }

  /** Without a pending capital, a part without underscores is kept as it is. */
  lemma {:induction false} CamelCaseKeepsPrefix(a: string, s: string)
    requires forall k :: 0 <= k < |a| ==> a[k] != '_'
    ensures CamelCaseFrom(a + s, false) == a + CamelCaseFrom(s, false)
  {
    if |a| > 0 {
      assert (a + s)[1..] == a[1..] + s;
      CamelCaseKeepsPrefix(a[1..], s);
      assert a == [a[0]] + a[1..];
    } else {
      assert a + s == s;
    }
  }

  /** A name without underscores whose first character is an upper-case letter or not a
      letter is its own CamelCase form. */
  lemma {:induction false} CamelCaseOfCamelCase(s: string, capitalize: bool)
    requires forall k :: 0 <= k < |s| ==> s[k] != '_'
    requires capitalize && |s| > 0 ==> !('a' <= s[0] <= 'z')
    ensures CamelCaseFrom(s, capitalize) == s
  {
    if |s| > 0 {
      CamelCaseOfCamelCase(s[1..], false);
      assert s == [s[0]] + s[1..];
    }
  }

  /** `isMessage(field)`. */
  predicate IsMessage(f: FieldDescriptor) {
    f.proto.fieldType == TypeMessage
  }

  /** `isEnum(field)`. */
  predicate IsEnum(f: FieldDescriptor) {
    f.proto.fieldType == TypeEnum
  }

  /** The expected name of a map field's entry type. */
  function EntryTypeName(f: FieldDescriptor): string {
    CamelCase(f.proto.name) + EntrySuffix
  }

  /** `isMap(field)`: repeated, of a message type, and that type is named after the field
      with the `Entry` suffix. */
  function IsMap(f: FieldDescriptor): (r: bool)
    ensures r <==> f.proto.fieldLabel == LabelRepeated && IsMessage(f)
                   && f.messageType.Some? && f.messageType.value.name == EntryTypeName(f)
  {
    if f.proto.fieldLabel != LabelRepeated then false
    else if f.proto.fieldType != TypeMessage then false
    else match f.messageType
      case None => false
      case Some(t) => t.name == EntryTypeName(f)
  }

  /** `isRepeated(field)`: repeated and not a map. */
  function IsRepeated(f: FieldDescriptor): (r: bool)
    ensures r ==> f.proto.fieldLabel == LabelRepeated
    ensures r ==> !IsMap(f)
    ensures f.proto.fieldLabel == LabelRepeated && !IsMap(f) ==> r
  {
    f.proto.fieldLabel == LabelRepeated && !IsMap(f)
  }

  /** Every field is exactly one of: singular, repeated, map. */
  lemma FieldKinds(f: FieldDescriptor)
    ensures f.proto.fieldLabel != LabelRepeated ==> !IsRepeated(f) && !IsMap(f)
    ensures f.proto.fieldLabel == LabelRepeated ==> IsRepeated(f) != IsMap(f)
  {
  }

  /** A message or enum field is never both. */
  lemma MessageAndEnumExclusive(f: FieldDescriptor)
    ensures !(IsMessage(f) && IsEnum(f))
  {
  }

  /** `findFieldByName(name)`: the first field with that name. */
  function FindFieldByName(fields: seq<FieldProto>, name: string): (r: Option<FieldProto>)
    ensures r.Some? ==> r.value in fields && r.value.name == name
    ensures r.None? <==> forall g :: g in fields ==> g.name != name
  {
    if |fields| == 0 then None
    else if fields[0].name == name then Some(fields[0])
    else
      assert forall g :: g in fields ==> g == fields[0] || g in fields[1..];
      FindFieldByName(fields[1..], name)
  }

  function NotMapMessage(kind: string, f: FieldDescriptor): string {
    "Trying to get " + kind + " descriptor for the non-map field " + f.proto.name + "."
  }

  /** `keyDescriptor(field)`: the `key` field of the entry type; an argument error for a
      field that is not a map. */
  function KeyDescriptor(f: FieldDescriptor): (r: Result<Option<FieldProto>, Exception>)
    ensures r.Err? <==> !IsMap(f)
    ensures r.Err? ==> r.error == IllegalArgument(NotMapMessage("key", f))
    ensures r.Ok? && r.value.Some? ==> r.value.value.name == MapEntryKey && r.value.value in f.messageType.value.fields
    ensures r.Ok? && r.value.None? ==> forall g :: g in f.messageType.value.fields ==> g.name != MapEntryKey
  {
    if !IsMap(f) then Err(IllegalArgument(NotMapMessage("key", f)))
    else Ok(FindFieldByName(f.messageType.value.fields, MapEntryKey))
  }

  /** `valueDescriptor(field)`: the `value` field of the entry type; an argument error for
      a field that is not a map. */
  function ValueDescriptor(f: FieldDescriptor): (r: Result<Option<FieldProto>, Exception>)
    ensures r.Err? <==> !IsMap(f)
    ensures r.Err? ==> r.error == IllegalArgument(NotMapMessage("value", f))
    ensures r.Ok? && r.value.Some? ==> r.value.value.name == MapEntryValue && r.value.value in f.messageType.value.fields
    ensures r.Ok? && r.value.None? ==> forall g :: g in f.messageType.value.fields ==> g.name != MapEntryValue
  {
    if !IsMap(f) then Err(IllegalArgument(NotMapMessage("value", f)))
    else Ok(FindFieldByName(f.messageType.value.fields, MapEntryValue))
  }

  /** The entry type protoc generates for `map<K, V> name = n;`: `key` = 1, `value` = 2. */
  function MapEntryType(fieldName: string, key: FieldProto, value: FieldProto): MessageProto {
    MessageProto(CamelCase(fieldName) + EntrySuffix, [key, value], [], true)
  }

  /** A map field declared by the map syntax is recognised as a map, not as repeated, and
      its key and value descriptors are the entry's two fields. */
  lemma MapFieldRecognised(name: string, number: int, typeName: string, key: FieldProto, value: FieldProto)
    requires key.name == MapEntryKey && value.name == MapEntryValue
    ensures var f := FieldDescriptor(FieldProto(name, number, LabelRepeated, TypeMessage, typeName),
                                     Some(MapEntryType(name, key, value)));
      IsMap(f) && !IsRepeated(f) && KeyDescriptor(f) == Ok(Some(key)) && ValueDescriptor(f) == Ok(Some(value))
  {
    var f := FieldDescriptor(FieldProto(name, number, LabelRepeated, TypeMessage, typeName),
                             Some(MapEntryType(name, key, value)));
    assert f.messageType.value.fields == [key, value];
    assert f.messageType.value.fields[1..] == [value];
  }

  /** A repeated message field whose type is named differently is a repeated field, and
      asking it for a key descriptor is an argument error. */
  lemma RepeatedMessageIsNotMap(f: FieldDescriptor)
    requires f.proto.fieldLabel == LabelRepeated && IsMessage(f)
    requires f.messageType.Some? && f.messageType.value.name != EntryTypeName(f)
    ensures IsRepeated(f) && KeyDescriptor(f).Err? && ValueDescriptor(f).Err?
  {
  }
}
