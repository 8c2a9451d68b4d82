/** `io.spine.validate.FieldValidator` and `EnumFieldValidator`: the general flow of
    validating one field: the required check, the entity-ID check for the first field of a
    command message, and the type-specific rules.

    The field options arrive already resolved (`getFieldOption`, which prefers an external
    rule over the field's own option, is outside this model). The type-specific parts of a
    subclass, `isNotSet` and `validateOwnRules`, are parameters: a predicate on values and
    the violations the own rules report. */
module FieldValidation {

  /** A raw field value as `toValueList` receives it: a list, a map (its entries in
      iteration order), or a single value. */
  datatype RawValue<V> =
    | ListValue(items: seq<V>)
    | MapValue(entries: seq<(string, V)>)
    | Single(value: V)

  /** `toValueList(fieldValue)`. */
  function ToValueList<V>(raw: RawValue<V>): (r: seq<V>)
    ensures raw.ListValue? ==> r == raw.items
    ensures raw.MapValue? ==> |r| == |raw.entries| && forall i :: 0 <= i < |r| ==> r[i] == raw.entries[i].1
    ensures raw.Single? ==> r == [raw.value]
  {
    match raw
    case ListValue(items) => items
    case MapValue(entries) => seq(|entries|, i requires 0 <= i < |entries| => entries[i].1)
    case Single(value) => [value]
  }

  /** `ConstraintViolation`, with the field path as the names along it. */
  datatype Violation = Violation(msgFormat: string, fieldPath: seq<string>)

  /** The descriptor facts the validator reads. */
  datatype Field = Field(
    isRepeated: bool,
    isMap: bool,
    index: int,
    inCommandsFile: bool,  // `CommandMessage.File.predicate()` holds for the declaring file
    path: seq<string>)

  /** The `(if_missing)` option: a custom message format, empty when not given, and the
      default message declared on the option type. */
  datatype IfMissing = IfMissing(msgFormat: string, defaultMessage: string)

  datatype Validator<V> = Validator(
    field: Field,
    values: seq<V>,
    strict: bool,
    required: bool,     // `(required)`
    ifMissing: IfMissing,
    validate: bool)     // `(valid)`

  const EntityIdRepeatedFieldMessage: string := "Entity ID must not be a repeated field."

  predicate IsNotRepeatedOrMap(f: Field) {
    !f.isRepeated && !f.isMap
  }

  /** `fieldValueNotSet()`. */
  predicate FieldValueNotSet<V>(v: Validator<V>, isNotSet: V -> bool) {
    |v.values| == 0 || (IsNotRepeatedOrMap(v.field) && isNotSet(v.values[0]))
  }

  /** `isRequiredField()`. */
  predicate IsRequiredField<V>(v: Validator<V>) {
    v.required || v.strict
  }

  /** `isRequiredEntityIdField()`: the first field of a message in a commands file. */
  predicate IsRequiredEntityIdField<V>(v: Validator<V>) {
    v.field.inCommandsFile && v.field.index == 0
  }

  /** `shouldValidate()`. */
  predicate ShouldValidate<V>(v: Validator<V>) {
    IsNotRepeatedOrMap(v.field) || v.validate
  }

  /** `getErrorMsgFormat(option, customMsg)`. */
  function ErrorMsgFormat(defaultMsg: string, customMsg: string): (r: string)
    ensures r == customMsg || r == defaultMsg
    ensures r == customMsg <==> customMsg != "" || defaultMsg == ""
  {
    if customMsg == "" then defaultMsg else customMsg
  }

  /** `newViolation(ifMissingOption)`. */
  function MissingViolation<V>(v: Validator<V>): (r: Violation)
    ensures r.fieldPath == v.field.path
    ensures r.msgFormat == (if v.ifMissing.msgFormat != "" then v.ifMissing.msgFormat else v.ifMissing.defaultMessage)
  {
    Violation(ErrorMsgFormat(v.ifMissing.defaultMessage, v.ifMissing.msgFormat), v.field.path)
  }

  function EntityIdRepeatedViolation<V>(v: Validator<V>): Violation {
    Violation(EntityIdRepeatedFieldMessage, v.field.path)
  }

  /** `checkIfRequiredAndNotSet()`: the violations it adds. */
  function CheckIfRequiredAndNotSet<V>(v: Validator<V>, isNotSet: V -> bool): (r: seq<Violation>)
    ensures |r| <= 1
    ensures |r| == 1 <==> IsRequiredField(v) && FieldValueNotSet(v, isNotSet)
    ensures |r| == 1 ==> r[0] == MissingViolation(v)
  {
    if !IsRequiredField(v) then []
    else if FieldValueNotSet(v, isNotSet) then [MissingViolation(v)]
    else []
  }

  /** `validateEntityId()`: the violations it adds. */
  function ValidateEntityId<V>(v: Validator<V>, isNotSet: V -> bool): (r: seq<Violation>)
    ensures |r| <= 1
    ensures |r| == 1 <==> v.field.isRepeated || FieldValueNotSet(v, isNotSet)
    ensures v.field.isRepeated ==> r == [EntityIdRepeatedViolation(v)]
    ensures !v.field.isRepeated && |r| == 1 ==> r[0] == MissingViolation(v)
  {
    if v.field.isRepeated then [EntityIdRepeatedViolation(v)]
    else if FieldValueNotSet(v, isNotSet) then [MissingViolation(v)]
    else []
  }

  /** A field passes validation when it is set whenever it is required, is a singular set
      field whenever it is the entity ID of a command message, and its type-specific rules,
      when they run, report nothing. */
  predicate Passes<V>(v: Validator<V>, isNotSet: V -> bool, ownRules: seq<Violation>) {
    && (IsRequiredField(v) ==> !FieldValueNotSet(v, isNotSet))
    && (IsRequiredEntityIdField(v) ==> !v.field.isRepeated && !FieldValueNotSet(v, isNotSet))
    && (ShouldValidate(v) ==> ownRules == [])
  }

  /** `validate()`: the required check, then the entity-ID check when the field is the
      first one of a command message, then the own rules when the field is singular or
      `(valid)` is set; violations in the order they were added. */
  method Validate<V>(v: Validator<V>, isNotSet: V -> bool, ownRules: seq<Violation>) returns (r: seq<Violation>)
    ensures |r| == (if IsRequiredField(v) && FieldValueNotSet(v, isNotSet) then 1 else 0)
      + (if IsRequiredEntityIdField(v) && (v.field.isRepeated || FieldValueNotSet(v, isNotSet)) then 1 else 0)
      + (if ShouldValidate(v) then |ownRules| else 0)
    ensures IsRequiredField(v) && FieldValueNotSet(v, isNotSet) ==> r[0] == MissingViolation(v)
    ensures IsRequiredEntityIdField(v) && v.field.isRepeated ==>
      r[if IsRequiredField(v) && FieldValueNotSet(v, isNotSet) then 1 else 0] == EntityIdRepeatedViolation(v)
    ensures ShouldValidate(v) ==> r[|r| - |ownRules|..] == ownRules
    ensures forall x :: x in r ==> x in ownRules || x == MissingViolation(v) || x == EntityIdRepeatedViolation(v)
    ensures !v.field.isRepeated ==> forall x :: x in r ==> x in ownRules || x == MissingViolation(v)
    ensures r == [] <==> Passes(v, isNotSet, ownRules)
  {
    var violations := CheckIfRequiredAndNotSet(v, isNotSet);
    if IsRequiredEntityIdField(v) {
      violations := violations + ValidateEntityId(v, isNotSet);
    }
    if ShouldValidate(v) {
      violations := violations + ownRules;
    }
    r := violations;
  }

  // ---------------------------------------------------------------------------
  // `EnumFieldValidator`

  /** An enum value, by its number. */
  datatype EnumValue = EnumValue(name: string, number: int)

  /** `EnumFieldValidator.isValueNotSet`: the zero value and negative numbers count as
      unset. */
  predicate EnumNotSet(e: EnumValue) {
    e.number <= 0
  }

  /** The constructor `EnumFieldValidator(fieldContext, fieldValues)`: never strict. */
  function NewEnumValidator(field: Field, raw: RawValue<EnumValue>, required: bool, ifMissing: IfMissing, validate: bool)
    : (v: Validator<EnumValue>)
    ensures !v.strict && v.values == ToValueList(raw)
    ensures IsRequiredField(v) <==> required
  {
    Validator(field, ToValueList(raw), false, required, ifMissing, validate)
  }

  /** `validate()` of an enum field: the own rules add nothing, so only the required and
      entity-ID checks report, and the required check only under `(required)`. */
  method ValidateEnum(field: Field, raw: RawValue<EnumValue>, required: bool, ifMissing: IfMissing, validate: bool)
    returns (r: seq<Violation>)
    ensures var v := NewEnumValidator(field, raw, required, ifMissing, validate);
      forall x :: x in r ==> x == MissingViolation(v) || x == EntityIdRepeatedViolation(v)
    ensures var v := NewEnumValidator(field, raw, required, ifMissing, validate);
      !required && !IsRequiredEntityIdField(v) ==> r == []
    ensures var values := ToValueList(raw);
      required && !IsRequiredEntityIdField(NewEnumValidator(field, raw, required, ifMissing, validate)) ==>
        (|r| == 1 <==> |values| == 0 || (IsNotRepeatedOrMap(field) && values[0].number <= 0))
    ensures var v := NewEnumValidator(field, raw, required, ifMissing, validate);
      IsNotRepeatedOrMap(field) && raw.Single? ==>
        r == (if raw.value.number <= 0
              then (if required then [MissingViolation(v)] else [])
                   + (if IsRequiredEntityIdField(v) then [MissingViolation(v)] else [])
              else [])
  {
    var v := NewEnumValidator(field, raw, required, ifMissing, validate);
    r := Validate(v, EnumNotSet, []);
    if IsNotRepeatedOrMap(field) && raw.Single? {
      assert v.values == [raw.value];
      var m := MissingViolation(v);
      if |r| == 2 {
        assert r == [m, m] by { assert r[0] in r && r[1] in r; }
      } else if |r| == 1 {
        assert r == [m] by { assert r[0] in r; }
      }
    }
  }
}
