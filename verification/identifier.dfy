/** `io.spine.base.Identifier`: the four kinds of entity identifiers (strings, 32-bit and
    64-bit integers, and messages), packing an identifier into `Any` and back, and rendering
    an identifier as a string.

    Protobuf messages are modelled by `Msg`: the three wrapper types the identifier code
    recognises, `Any`, and every other message type with the fields that are set on it.
    The stringifier registry and `TextFormat.shortDebugString` are parameters. */
module Identifiers {
  import opened Wrappers
  import opened Strs

  type Int32 = x: int | -0x8000_0000 <= x < 0x8000_0000
  type Int64 = x: int | -0x8000_0000_0000_0000 <= x < 0x8000_0000_0000_0000

  /** A protobuf message. */
  datatype Msg =
    | StringValueMsg(stringValue: string)
    | Int32ValueMsg(int32Value: Int32)
    | Int64ValueMsg(int64Value: Int64)
    | AnyMsg(typeUrl: string, content: Msg)
    | Custom(typeName: string, fields: seq<FieldValue>)  // the fields that are set, in field order

  /** The value of a set field: a nested message, or any other value as its `toString()`. */
  datatype FieldValue = Scalar(text: string) | Nested(message: Msg)

  /** An identifier value as the generic methods receive it. */
  datatype Value =
    | StringVal(s: string)
    | IntegerVal(i: Int32)
    | LongVal(l: Int64)
    | MessageVal(m: Msg)
    | Unsupported(description: string)  // an object of any other class, by its `toString()`

  /** A class passed to `getType`, `getDefaultValue` or `checkSupported`. */
  datatype IdClass =
    | StringClass
    | IntegerClass
    | LongClass
    | MessageClass(messageType: string)
    | OtherClass(className: string)

  /** `Identifier.Type`, in declaration order. */
  datatype IdType = STRING | INTEGER | LONG | MESSAGE

  const TypeOrder: seq<IdType> := [STRING, INTEGER, LONG, MESSAGE]

  const NullId: string := "NULL"
  const EmptyId: string := "EMPTY"
  const TypeUrlPrefix: string := "type.googleapis.com/"

  const StringValueName: string := "google.protobuf.StringValue"
  const Int32ValueName: string := "google.protobuf.Int32Value"
  const Int64ValueName: string := "google.protobuf.Int64Value"
  const AnyName: string := "google.protobuf.Any"

  predicate IsWrapper(m: Msg) {
    m.StringValueMsg? || m.Int32ValueMsg? || m.Int64ValueMsg?
  }

  /** The full name of a message's type. */
  function TypeName(m: Msg): string {
    match m
    case StringValueMsg(_) => StringValueName
    case Int32ValueMsg(_) => Int32ValueName
    case Int64ValueMsg(_) => Int64ValueName
    case AnyMsg(_, _) => AnyName
    case Custom(name, _) => name
  }

  /** A message whose own type is represented by the constructor of that type: a `Custom`
      message never carries the name of a wrapper type or of `Any`, since a Java message of
      those types is an instance of the type itself. */
  predicate WellFormed(m: Msg) {
    m.Custom? ==>
      (m.typeName != StringValueName && m.typeName != Int32ValueName
       && m.typeName != Int64ValueName && m.typeName != AnyName)
  }

  /** `getAllFields().values()`: the values of the fields that are set. A wrapper's only
      field is unset when it holds the default value; an `Any` always has its type URL set,
      and its payload only when the packed message has some field set (the payload bytes are
      represented by the message they encode). */
  function AllFields(m: Msg): (r: seq<FieldValue>)
    ensures forall i :: 0 <= i < |r| && r[i].Nested? ==> r[i].message < m
  {
    match m
    case StringValueMsg(s) => if s == "" then [] else [Scalar(s)]
    case Int32ValueMsg(i) => if i == 0 then [] else [Scalar(IntToString(i))]
    case Int64ValueMsg(l) => if l == 0 then [] else [Scalar(IntToString(l))]
    case AnyMsg(url, c) => [Scalar(url)] + (if AllFields(c) == [] then [] else [Nested(c)])
    case Custom(_, fields) => fields
  }

  // ---------------------------------------------------------------------------
  // `Identifier.Type`

  predicate MatchValue(t: IdType, v: Value) {
    match t
    case STRING => v.StringVal?
    case INTEGER => v.IntegerVal?
    case LONG => v.LongVal?
    case MESSAGE => v.MessageVal?
  }

  predicate MatchMessage(t: IdType, m: Msg) {
    match t
    case STRING => m.StringValueMsg?
    case INTEGER => m.Int32ValueMsg?
    case LONG => m.Int64ValueMsg?
    case MESSAGE => !(m.StringValueMsg? || m.Int32ValueMsg? || m.Int64ValueMsg?)
  }

  predicate MatchClass(t: IdType, c: IdClass) {
    match t
    case STRING => c.StringClass?
    case INTEGER => c.IntegerClass?
    case LONG => c.LongClass?
    case MESSAGE => c.MessageClass?
  }

  /** The first of `types` that satisfies `p`: the `for (Type type : values())` loops. */
  function FirstMatch(types: seq<IdType>, p: IdType -> bool): (r: Option<IdType>)
    ensures r.Some? ==> r.value in types && p(r.value)
    ensures r.Some? ==> exists i :: 0 <= i < |types| && types[i] == r.value && forall j :: 0 <= j < i ==> !p(types[j])
    ensures r.None? <==> forall t :: t in types ==> !p(t)
  {
    if |types| == 0 then None
    else if p(types[0]) then Some(types[0])
    else
      var rest := FirstMatch(types[1..], p);
      assert forall t :: t in types[1..] ==> t in types;
      assert forall t :: t in types ==> t == types[0] || t in types[1..];
      if rest.Some? then
        var i :| 0 <= i < |types[1..]| && types[1..][i] == rest.value && forall j :: 0 <= j < i ==> !p(types[1..][j]);
        assert types[i + 1] == rest.value;
        assert forall j :: 1 <= j < i + 1 ==> types[j] == types[1..][j - 1];
        rest
      else rest
  }

  function UnsupportedValueMessage(description: string): string {
    "ID of unsupported type encountered: " + description
  }

  function UnsupportedClassMessage(className: string): string {
    "Unsupported ID class encountered: " + className
  }

  function Describe(v: Value): string {
    match v
    case StringVal(s) => s
    case IntegerVal(i) => IntToString(i)
    case LongVal(l) => IntToString(l)
    case MessageVal(m) => TypeName(m)
    case Unsupported(d) => d
  }

  function ClassName(c: IdClass): string {
    match c
    case StringClass => "java.lang.String"
    case IntegerClass => "java.lang.Integer"
    case LongClass => "java.lang.Long"
    case MessageClass(name) => name
    case OtherClass(name) => name
  }

  /** `Type.getType(id)`: the first type, in declaration order, whose `matchValue` holds. */
  function TypeOfValue(v: Value): (r: Result<IdType, Exception>)
    ensures r.Ok? ==> MatchValue(r.value, v)
    ensures r.Err? <==> forall t :: t in TypeOrder ==> !MatchValue(t, v)
    ensures r.Err? ==> r.error == IllegalArgument(UnsupportedValueMessage(Describe(v)))
  {
    match FirstMatch(TypeOrder, t => MatchValue(t, v))
    case Some(t) => Ok(t)
    case None => Err(IllegalArgument(UnsupportedValueMessage(Describe(v))))
  }

  /** `getType(idClass)`: the first type whose `matchClass` holds. */
  function GetType(c: IdClass): (r: Result<IdType, Exception>)
    ensures r.Ok? ==> MatchClass(r.value, c)
    ensures r.Err? <==> c.OtherClass?
    ensures r.Err? ==> r.error == IllegalArgument(UnsupportedClassMessage(c.className))
  {
    match FirstMatch(TypeOrder, t => MatchClass(t, c))
    case Some(t) => Ok(t)
    case None =>
      assert !MatchClass(STRING, c) && !MatchClass(INTEGER, c) && !MatchClass(LONG, c) && !MatchClass(MESSAGE, c);
      Err(IllegalArgument(UnsupportedClassMessage(ClassName(c))))
  }

  /** `checkSupported(idClass)`. */
  function CheckSupported(c: IdClass): (r: Result<(), Exception>)
    ensures r.Ok? <==> c.StringClass? || c.IntegerClass? || c.LongClass? || c.MessageClass?
  {
    var _ :- GetType(c);
    Ok(())
  }

  /** `getDefaultValue(idClass)`: the empty string, zero, zero, or the message's default
      instance (`Messages.newInstance`), which has no field set and is of the class's own
      type, so the default instance of a wrapper class is that wrapper holding its default
      value. */
  function GetDefaultValue(c: IdClass): (r: Result<Value, Exception>)
    ensures c.StringClass? ==> r == Ok(StringVal(""))
    ensures c.IntegerClass? ==> r == Ok(IntegerVal(0))
    ensures c.LongClass? ==> r == Ok(LongVal(0))
    ensures c.MessageClass? ==> r.Ok? && r.value.MessageVal? && AllFields(r.value.m) == []
    ensures c.MessageClass? ==> TypeName(r.value.m) == c.messageType
    ensures c.MessageClass? && c.messageType != AnyName ==> WellFormed(r.value.m)
    ensures c == MessageClass(StringValueName) ==> r == Ok(MessageVal(StringValueMsg("")))
    ensures c == MessageClass(Int32ValueName) ==> r == Ok(MessageVal(Int32ValueMsg(0)))
    ensures c == MessageClass(Int64ValueName) ==> r == Ok(MessageVal(Int64ValueMsg(0)))
    ensures c.OtherClass? <==> r.Err?
  {
    var t :- GetType(c);
    match t
    case STRING => Ok(StringVal(""))
    case INTEGER => Ok(IntegerVal(0))
    case LONG => Ok(LongVal(0))
    case MESSAGE =>
      if c.messageType == StringValueName then Ok(MessageVal(StringValueMsg("")))
      else if c.messageType == Int32ValueName then Ok(MessageVal(Int32ValueMsg(0)))
      else if c.messageType == Int64ValueName then Ok(MessageVal(Int64ValueMsg(0)))
      else
        CustomFields(c.messageType, []);
        Ok(MessageVal(Custom(c.messageType, [])))
  }

  lemma CustomFields(typeName: string, fields: seq<FieldValue>)
    ensures AllFields(Custom(typeName, fields)) == fields
  {
  }

  /** The default value of a supported class is of the type the class maps to. */
  lemma DefaultValueHasClassType(c: IdClass)
    requires GetType(c).Ok?
    ensures GetDefaultValue(c).Ok? && TypeOfValue(GetDefaultValue(c).value) == GetType(c)
  {
    var t := GetType(c).value;
    assert MatchValue(t, GetDefaultValue(c).value);
    ExactlyOneValueType(GetDefaultValue(c).value, t);
  }

  /** A supported value matches exactly one type, so the search order does not matter. */
  lemma ExactlyOneValueType(v: Value, t: IdType)
    requires MatchValue(t, v)
    ensures TypeOfValue(v) == Ok(t)
  {
  }

  /** `toMessage(id)`: a simple value goes into its wrapper, a message stays itself. */
  function ToMessage(t: IdType, v: Value): (r: Msg)
    requires MatchValue(t, v)
    ensures t != MESSAGE ==> IsWrapper(r) && MatchMessage(t, r)
    ensures !IsWrapper(r) ==> t == MESSAGE && MatchMessage(MESSAGE, r)
  {
    match t
    case STRING => StringValueMsg(v.s)
    case INTEGER => Int32ValueMsg(v.i)
    case LONG => Int64ValueMsg(v.l)
    case MESSAGE => v.m
  }

  /** `fromMessage(message)`, after the type has matched the message. */
  function FromMessage(t: IdType, m: Msg): (r: Value)
    requires MatchMessage(t, m)
    ensures MatchValue(t, r)
  {
    match t
    case STRING => StringVal(m.stringValue)
    case INTEGER => IntegerVal(m.int32Value)
    case LONG => LongVal(m.int64Value)
    case MESSAGE => MessageVal(m)
  }

  /** `AnyPacker.pack(message)`, whose source is not part of this model: taken to wrap the
      message with the default type URL prefix of `Any.pack`. */
  function PackMessage(m: Msg): (r: Msg)
    ensures r.AnyMsg? && r.content == m && StartsWith(r.typeUrl, TypeUrlPrefix)
  {
    AnyMsg(TypeUrlPrefix + TypeName(m), m)
  }

  /** `pack(id)`: the value wrapped into its message type and packed into `Any`; an
      unsupported value is an argument error. */
  function Pack(v: Value): (r: Result<Msg, Exception>)
    ensures r.Ok? <==> !v.Unsupported?
    ensures r.Ok? ==> r.value.AnyMsg?
    ensures v.StringVal? ==> r == Ok(PackMessage(StringValueMsg(v.s)))
    ensures v.IntegerVal? ==> r == Ok(PackMessage(Int32ValueMsg(v.i)))
    ensures v.LongVal? ==> r == Ok(PackMessage(Int64ValueMsg(v.l)))
    ensures v.MessageVal? ==> r == Ok(PackMessage(v.m))
  {
    var t :- TypeOfValue(v);
    assert t == TypeOf(v);
    Ok(PackMessage(ToMessage(t, v)))
  }

  /** `unpack(any)`: the first type whose `matchMessage` accepts the packed message
      converts it back. */
  function Unpack(any: Msg): (r: Result<Value, Exception>)
    requires any.AnyMsg?
    ensures r.Ok?
    ensures r.Ok? ==> MatchMessage(TypeOf(r.value), any.content)
  {
    var m := any.content;
    TypeOrderCovers(m);
    match FirstMatch(TypeOrder, t => MatchMessage(t, m))
    case Some(t) =>
      TypeOfFromMessage(t, m);
      Ok(FromMessage(t, m))
    case None =>
      assert false;
      Err(IllegalArgument(UnsupportedValueMessage(TypeName(m))))
  }

  /** The type of the message's own kind, which is among the types `unpack` tries. */
  function KindOf(m: Msg): IdType {
    if m.StringValueMsg? then STRING else if m.Int32ValueMsg? then INTEGER
    else if m.Int64ValueMsg? then LONG else MESSAGE
  }

  lemma TypeOrderCovers(m: Msg)
    ensures KindOf(m) in TypeOrder && MatchMessage(KindOf(m), m)
  {
  }

  lemma TypeOfFromMessage(t: IdType, m: Msg)
    requires MatchMessage(t, m)
    ensures TypeOf(FromMessage(t, m)) == t
  {
  }

  /** The type a supported value belongs to. */
  function TypeOf(v: Value): IdType {
    match v
    case StringVal(_) => STRING
    case IntegerVal(_) => INTEGER
    case LongVal(_) => LONG
    case MessageVal(_) => MESSAGE
    case Unsupported(_) => MESSAGE
  }

  /** Every message is matched by exactly one type in `unpack`. */
  lemma ExactlyOneMessageType(m: Msg)
    ensures exists t :: MatchMessage(t, m)
    ensures forall t, u :: MatchMessage(t, m) && MatchMessage(u, m) ==> t == u
  {
    TypeOrderCovers(m);
  }

  /** Round trip: a string, integer or long identifier comes back from `Any` unchanged. */
  lemma UnpackPackSimple(v: Value)
    requires v.StringVal? || v.IntegerVal? || v.LongVal?
    ensures Pack(v).Ok? && Unpack(Pack(v).value) == Ok(v)
  {
  }

  /** Round trip: a message identifier comes back unchanged unless it is itself one of the
      wrapper types. */
  lemma UnpackPackMessage(m: Msg)
    requires WellFormed(m) && !IsWrapper(m)
    ensures Pack(MessageVal(m)).Ok? && Unpack(Pack(MessageVal(m)).value) == Ok(MessageVal(m))
  {
  }

  /** The default value of a message class round-trips exactly when the class is not a
      wrapper type; the default wrapper comes back as the empty string or zero. */
  lemma DefaultMessageRoundTrip(name: string)
    requires name != AnyName
    ensures var d := GetDefaultValue(MessageClass(name)).value;
      Pack(d).Ok? && (Unpack(Pack(d).value) == Ok(d)
        <==> name != StringValueName && name != Int32ValueName && name != Int64ValueName)
    ensures name == StringValueName ==>
      Unpack(Pack(GetDefaultValue(MessageClass(name)).value).value) == Ok(StringVal(""))
    ensures name == Int32ValueName ==>
      Unpack(Pack(GetDefaultValue(MessageClass(name)).value).value) == Ok(IntegerVal(0))
    ensures name == Int64ValueName ==>
      Unpack(Pack(GetDefaultValue(MessageClass(name)).value).value) == Ok(LongVal(0))
  {
    var d := GetDefaultValue(MessageClass(name)).value;
    if IsWrapper(d.m) {
      UnpackPackWrapper(d.m);
    } else {
      UnpackPackMessage(d.m);
    }
  }

  /** A message identifier of a wrapper type comes back as the simple value it wraps. */
  lemma UnpackPackWrapper(m: Msg)
    requires IsWrapper(m)
    ensures Pack(MessageVal(m)).Ok?
    ensures Unpack(Pack(MessageVal(m)).value) != Ok(MessageVal(m))
    ensures m.StringValueMsg? ==> Unpack(Pack(MessageVal(m)).value) == Ok(StringVal(m.stringValue))
  {
  }

  // ---------------------------------------------------------------------------
  // Rendering

  /** `PATTERN_COLON_SPACE.matcher(s).replaceAll("=")`: every ": " replaced by "=", left
      to right. */
  function ReplaceColonSpace(s: string): (r: string)
    ensures |r| <= |s|
  {
    if |s| < 2 then s
    else if s[0] == ':' && s[1] == ' ' then "=" + ReplaceColonSpace(s[2..])
    else [s[0]] + ReplaceColonSpace(s[1..])
  }

  predicate HasColonSpace(s: string) {
    exists i :: 0 <= i < |s| - 1 && s[i] == ':' && s[i + 1] == ' '
  }

  /** After the replacement no ": " is left, not even one formed by the replacement. */
  lemma {:induction false} ReplaceColonSpaceRemovesAll(s: string)
    ensures !HasColonSpace(ReplaceColonSpace(s))
  {
    if |s| >= 2 {
      var r := ReplaceColonSpace(s);
      if s[0] == ':' && s[1] == ' ' {
        ReplaceColonSpaceRemovesAll(s[2..]);
        var t := ReplaceColonSpace(s[2..]);
        assert r == "=" + t;
        forall i | 0 <= i < |r| - 1 ensures !(r[i] == ':' && r[i + 1] == ' ') {
          if i > 0 {
            assert r[i] == t[i - 1] && r[i + 1] == t[i];
          }
        }
      } else {
        ReplaceColonSpaceRemovesAll(s[1..]);
        var t := ReplaceColonSpace(s[1..]);
        assert r == [s[0]] + t;
        forall i | 0 <= i < |r| - 1 ensures !(r[i] == ':' && r[i + 1] == ' ') {
          if i > 0 {
            assert r[i] == t[i - 1] && r[i + 1] == t[i];
          } else if s[0] == ':' {
            if |s| >= 3 && s[1] == ':' && s[2] == ' ' {
              assert t[0] == '=';
            } else {
              ReplaceColonSpaceKeepsHead(s[1..]);
            }
          }
        }
      }
    }
  }

  /** The replacement keeps the first character unless the text starts with ": ". */
  lemma ReplaceColonSpaceKeepsHead(s: string)
    requires |s| > 0 && !(|s| >= 2 && s[0] == ':' && s[1] == ' ')
    ensures |ReplaceColonSpace(s)| > 0 && ReplaceColonSpace(s)[0] == s[0]
  {
  }

  /** A text without ": " is left as it is. */
  lemma {:induction false} ReplaceColonSpaceIdentity(s: string)
    requires !HasColonSpace(s)
    ensures ReplaceColonSpace(s) == s
  {
    if |s| >= 2 {
      assert !(s[0] == ':' && s[1] == ' ');
      assert !HasColonSpace(s[1..]) by {
        forall i | 0 <= i < |s[1..]| - 1 ensures !(s[1..][i] == ':' && s[1..][i + 1] == ' ') {
          assert s[1..][i] == s[i + 1] && s[1..][i + 1] == s[i + 2];
        }
      }
      ReplaceColonSpaceIdentity(s[1..]);
      assert s == [s[0]] + s[1..];
    }
  }

  /** `idMessageToString(message)`: the registered stringifier for the message's type if
      there is one, otherwise `convert`. */
  function IdMessageToString(m: Msg, registry: Msg -> Option<string>, debugString: Msg -> string): (r: string)
    ensures registry(m).None? && AllFields(m) == [] ==> r == EmptyId
    ensures registry(m).None? && |AllFields(m)| > 1 ==> !HasColonSpace(r)
    decreases m, 1
  {
    match registry(m)
    case Some(s) => s
    case None => Convert(m, registry, debugString)
  }

  /** `convert(message)`: no field set gives "EMPTY", exactly one gives that field's value
      (a nested message rendered in turn), several give the short debug string with every
      ": " replaced by "=". */
  function Convert(m: Msg, registry: Msg -> Option<string>, debugString: Msg -> string): (r: string)
    ensures AllFields(m) == [] ==> r == EmptyId
    ensures |AllFields(m)| == 1 && AllFields(m)[0].Scalar? ==> r == AllFields(m)[0].text
    ensures |AllFields(m)| > 1 ==> !HasColonSpace(r)
    decreases m, 0
  {
    var values := AllFields(m);
    if |values| == 0 then EmptyId
    else if |values| == 1 then
      match values[0]
      case Nested(n) => IdMessageToString(n, registry, debugString)
      case Scalar(text) => text
    else
      ReplaceColonSpaceRemovesAll(debugString(m));
      ReplaceColonSpace(debugString(m))
  }

  /** An identifier: a value together with the type it matched. */
  datatype Identifier = Identifier(idType: IdType, value: Value)

  /** `Identifier.from(value)`. */
  function From(v: Value): (r: Result<Identifier, Exception>)
    ensures r.Ok? <==> !v.Unsupported?
    ensures r.Ok? ==> r.value.value == v && MatchValue(r.value.idType, v)
  {
    var t :- TypeOfValue(v);
    Ok(Identifier(t, v))
  }

  /** `Identifier.toString()`: the value's own rendering, a message through
      `idMessageToString`; an empty rendering becomes "EMPTY". */
  function IdentifierToString(id: Identifier, registry: Msg -> Option<string>, debugString: Msg -> string): (r: string)
    requires MatchValue(id.idType, id.value)
    ensures r != ""
    ensures id.value.StringVal? ==> r == (if id.value.s == "" then EmptyId else id.value.s)
    ensures id.value.IntegerVal? ==> r == IntToString(id.value.i)
    ensures id.value.LongVal? ==> r == IntToString(id.value.l)
  {
    var result :=
      match id.idType
      case INTEGER => IntToString(id.value.i)
      case LONG => IntToString(id.value.l)
      case STRING => id.value.s
      case MESSAGE => IdMessageToString(id.value.m, registry, debugString);
    if result == "" then EmptyId else result
  }

  /** `Identifier.toString(id)`: "NULL" for a missing identifier; an `Any` is unpacked and
      rendered as a message; any other supported value through its identifier; an
      unsupported value is an argument error. */
  function ToString(id: Option<Value>, registry: Msg -> Option<string>, debugString: Msg -> string)
    : (r: Result<string, Exception>)
    ensures id.None? ==> r == Ok(NullId)
    ensures r.Err? <==> id.Some? && id.value.Unsupported?
    ensures r.Ok? ==> r.value != ""
    ensures id == Some(StringVal("")) ==> r == Ok(EmptyId)
    ensures id.Some? && id.value.StringVal? && id.value.s != "" ==> r == Ok(id.value.s)
    ensures id.Some? && id.value.IntegerVal? ==> r == Ok(IntToString(id.value.i))
    ensures id.Some? && id.value.LongVal? ==> r == Ok(IntToString(id.value.l))
  {
    match id
    case None => Ok(NullId)
    case Some(v) =>
      if v.MessageVal? && v.m.AnyMsg? then
        Ok(IdentifierToString(Identifier(MESSAGE, MessageVal(v.m.content)), registry, debugString))
      else
        var identifier :- From(v);
        Ok(IdentifierToString(identifier, registry, debugString))
  }

  /** A message identifier with no field set, and no registered stringifier, renders as
      "EMPTY"; one with a single non-empty scalar field renders as that field's value. */
  lemma MessageIdRendering(m: Msg, registry: Msg -> Option<string>, debugString: Msg -> string)
    requires !m.AnyMsg? && registry(m).None?
    ensures AllFields(m) == [] ==> ToString(Some(MessageVal(m)), registry, debugString) == Ok(EmptyId)
    ensures |AllFields(m)| == 1 && AllFields(m)[0].Scalar? && AllFields(m)[0].text != "" ==>
      ToString(Some(MessageVal(m)), registry, debugString) == Ok(AllFields(m)[0].text)
  {
  }

  /** An identifier packed into `Any` renders like the message it packs. */
  lemma PackedRendersAsMessage(m: Msg, registry: Msg -> Option<string>, debugString: Msg -> string)
    requires !m.AnyMsg?
    ensures ToString(Some(MessageVal(PackMessage(m))), registry, debugString)
         == ToString(Some(MessageVal(m)), registry, debugString)
  {
  }
}
