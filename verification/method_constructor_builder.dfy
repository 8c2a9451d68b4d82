/** `io.spine.tools.compiler.validation.AbstractMethodConstructorBuilder`: the state a
    method-constructor builder collects before `build()`, its setters' argument checks, and
    the final `checkFields()` check.

    A Java `null` is `None`. The type cache, the JavaPoet class name and the field type are
    opaque to this code and are type parameters. A failed Guava precondition is an error
    value carrying an empty message, since the checks give none. */
module MethodConstructorBuilders {
  import opened Wrappers
  import opened Protos

  /** The builder's fields; a freshly created builder has index 0 and every reference null. */
  datatype Builder<Cache, ClassName, Kind> = Builder(
    fieldIndex: int,
    javaClass: Option<string>,
    javaPackage: Option<string>,
    genericClassName: Option<ClassName>,
    typeCache: Option<Cache>,
    field: Option<FieldProto>,
    fieldType: Option<Kind>)

  /** A builder as the constructor leaves it. */
  function NewBuilder<Cache, ClassName, Kind>(): (b: Builder<Cache, ClassName, Kind>)
    ensures b.fieldIndex == 0
    ensures b.javaClass.None? && b.javaPackage.None? && b.genericClassName.None?
    ensures b.typeCache.None? && b.field.None? && b.fieldType.None?
  {
    Builder(0, None, None, None, None, None, None)
  }

  /** `checkNotNull(x)`. */
  function CheckNotNull<T>(x: Option<T>): (r: Result<T, Exception>)
    ensures r.Ok? <==> x.Some?
    ensures r.Ok? ==> r.value == x.value
    ensures r.Err? ==> r.error == NullPointer("")
  {
    match x
    case None => Err(NullPointer(""))
    case Some(v) => Ok(v)
  }

  /** `setFieldIndex(index)`: a negative index is an argument error. */
  function SetFieldIndex<C, N, K>(b: Builder<C, N, K>, index: int): (r: Result<Builder<C, N, K>, Exception>)
    ensures r.Ok? <==> index >= 0
    ensures r.Err? ==> r.error == IllegalArgument("")
    ensures r.Ok? ==> r.value.fieldIndex == index && r.value == b.(fieldIndex := r.value.fieldIndex)
  {
    if index < 0 then Err(IllegalArgument("")) else Ok(b.(fieldIndex := index))
  }

  /** `setJavaPackage(javaPackage)`. */
  function SetJavaPackage<C, N, K>(b: Builder<C, N, K>, javaPackage: Option<string>): (r: Result<Builder<C, N, K>, Exception>)
    ensures r.Ok? <==> javaPackage.Some?
    ensures r.Err? ==> r.error == NullPointer("")
    ensures r.Ok? ==> r.value.javaPackage == javaPackage && r.value == b.(javaPackage := r.value.javaPackage)
  {
    var v :- CheckNotNull(javaPackage);
    Ok(b.(javaPackage := Some(v)))
  }

  /** `setJavaClass(javaClass)`. */
  function SetJavaClass<C, N, K>(b: Builder<C, N, K>, javaClass: Option<string>): (r: Result<Builder<C, N, K>, Exception>)
    ensures r.Ok? <==> javaClass.Some?
    ensures r.Err? ==> r.error == NullPointer("")
    ensures r.Ok? ==> r.value.javaClass == javaClass && r.value == b.(javaClass := r.value.javaClass)
  {
    var v :- CheckNotNull(javaClass);
    Ok(b.(javaClass := Some(v)))
  }

  /** `setTypeCache(typeCache)`. */
  function SetTypeCache<C, N, K>(b: Builder<C, N, K>, typeCache: Option<C>): (r: Result<Builder<C, N, K>, Exception>)
    ensures r.Ok? <==> typeCache.Some?
    ensures r.Err? ==> r.error == NullPointer("")
    ensures r.Ok? ==> r.value.typeCache == typeCache && r.value == b.(typeCache := r.value.typeCache)
  {
    var v :- CheckNotNull(typeCache);
    Ok(b.(typeCache := Some(v)))
  }

  /** `setField(field)`. */
  function SetField<C, N, K>(b: Builder<C, N, K>, field: Option<FieldProto>): (r: Result<Builder<C, N, K>, Exception>)
    ensures r.Ok? <==> field.Some?
    ensures r.Err? ==> r.error == NullPointer("")
    ensures r.Ok? ==> r.value.field == field && r.value == b.(field := r.value.field)
  {
    var v :- CheckNotNull(field);
    Ok(b.(field := Some(v)))
  }

  /** `setBuilderGenericClassName(genericClassName)`. */
  function SetBuilderGenericClassName<C, N, K>(b: Builder<C, N, K>, name: Option<N>): (r: Result<Builder<C, N, K>, Exception>)
    ensures r.Ok? <==> name.Some?
    ensures r.Err? ==> r.error == NullPointer("")
    ensures r.Ok? ==> r.value.genericClassName == name && r.value == b.(genericClassName := r.value.genericClassName)
  {
    var v :- CheckNotNull(name);
    Ok(b.(genericClassName := Some(v)))
  }

  /** `setFieldType(fieldType)`. */
  function SetFieldType<C, N, K>(b: Builder<C, N, K>, fieldType: Option<K>): (r: Result<Builder<C, N, K>, Exception>)
    ensures r.Ok? <==> fieldType.Some?
    ensures r.Err? ==> r.error == NullPointer("")
    ensures r.Ok? ==> r.value.fieldType == fieldType && r.value == b.(fieldType := r.value.fieldType)
  {
    var v :- CheckNotNull(fieldType);
    Ok(b.(fieldType := Some(v)))
  }

  /** Every reference of the builder is set. */
  predicate AllSet<C, N, K>(b: Builder<C, N, K>) {
    b.javaClass.Some? && b.javaPackage.Some? && b.typeCache.Some?
    && b.field.Some? && b.genericClassName.Some? && b.fieldType.Some?
  }

  /** `checkFields()`: a null reference is a null-pointer error, checked in the order of the
      code; then a negative index is a state error. A fresh builder therefore fails it with
      a null-pointer error. */
  function CheckFields<C, N, K>(b: Builder<C, N, K>): (r: Result<(), Exception>)
    ensures r.Ok? <==> AllSet(b) && b.fieldIndex >= 0
    ensures !AllSet(b) ==> r == Err(NullPointer(""))
    ensures AllSet(b) && b.fieldIndex < 0 ==> r == Err(IllegalState(""))
  {
    var _ :- CheckNotNull(b.javaClass);
    var _ :- CheckNotNull(b.javaPackage);
    var _ :- CheckNotNull(b.typeCache);
    var _ :- CheckNotNull(b.field);
    var _ :- CheckNotNull(b.genericClassName);
    var _ :- CheckNotNull(b.fieldType);
    if b.fieldIndex >= 0 then Ok(()) else Err(IllegalState(""))
  }

  /** The setters of the builder, as one step of a call sequence. */
  datatype Setter<C, N, K> =
    | FieldIndex(index: int)
    | JavaPackage(javaPackage: Option<string>)
    | JavaClass(javaClass: Option<string>)
    | TypeCache(typeCache: Option<C>)
    | Field(field: Option<FieldProto>)
    | GenericClassName(name: Option<N>)
    | FieldType(fieldType: Option<K>)

  function Apply<C, N, K>(b: Builder<C, N, K>, s: Setter<C, N, K>): Result<Builder<C, N, K>, Exception> {
    match s
    case FieldIndex(i) => SetFieldIndex(b, i)
    case JavaPackage(p) => SetJavaPackage(b, p)
    case JavaClass(c) => SetJavaClass(b, c)
    case TypeCache(t) => SetTypeCache(b, t)
    case Field(f) => SetField(b, f)
    case GenericClassName(n) => SetBuilderGenericClassName(b, n)
    case FieldType(k) => SetFieldType(b, k)
  }

  /** The setters called in turn on a fresh builder; the first failing one ends the chain. */
  function ApplyAll<C, N, K>(b: Builder<C, N, K>, setters: seq<Setter<C, N, K>>): Result<Builder<C, N, K>, Exception>
    decreases |setters|
  {
    if |setters| == 0 then Ok(b)
    else
      var next :- Apply(b, setters[0]);
      ApplyAll(next, setters[1..])
  }

  /** The index is never negative: the constructor starts at 0 and the setter rejects a
      negative index, so `checkFields` can only fail on a null reference. */
  lemma {:induction false} IndexNeverNegative<C, N, K>(b: Builder<C, N, K>, setters: seq<Setter<C, N, K>>)
    requires b.fieldIndex >= 0
    ensures ApplyAll(b, setters).Ok? ==> ApplyAll(b, setters).value.fieldIndex >= 0
    ensures ApplyAll(b, setters).Ok? ==> (CheckFields(ApplyAll(b, setters).value).Ok? <==> AllSet(ApplyAll(b, setters).value))
    decreases |setters|
  {
    if |setters| > 0 && Apply(b, setters[0]).Ok? {
      IndexNeverNegative(Apply(b, setters[0]).value, setters[1..]);
    }
  }

  /** Which reference a setter sets: 0 to 5 in the order `checkFields` checks them; -1 for
      the index. */
  function RefOf<C, N, K>(s: Setter<C, N, K>): int {
    match s
    case JavaClass(_) => 0
    case JavaPackage(_) => 1
    case TypeCache(_) => 2
    case Field(_) => 3
    case GenericClassName(_) => 4
    case FieldType(_) => 5
    case FieldIndex(_) => -1
  }

  /** Reference `k` of the builder is set. */
  predicate RefSet<C, N, K>(b: Builder<C, N, K>, k: int) {
    match k
    case 0 => b.javaClass.Some?
    case 1 => b.javaPackage.Some?
    case 2 => b.typeCache.Some?
    case 3 => b.field.Some?
    case 4 => b.genericClassName.Some?
    case 5 => b.fieldType.Some?
    case _ => true
  }

  /** Once set, a reference stays set: no setter accepts a null. */
  lemma {:induction false} RefStaysSet<C, N, K>(b: Builder<C, N, K>, setters: seq<Setter<C, N, K>>, k: int)
    requires RefSet(b, k) && ApplyAll(b, setters).Ok?
    ensures RefSet(ApplyAll(b, setters).value, k)
    decreases |setters|
  {
    if |setters| > 0 {
      RefStaysSet(Apply(b, setters[0]).value, setters[1..], k);
    }
  }

  /** A reference some successful call sets is set at the end. */
  lemma {:induction false} RefSetByCall<C, N, K>(b: Builder<C, N, K>, setters: seq<Setter<C, N, K>>, i: nat)
    requires i < |setters| && ApplyAll(b, setters).Ok?
    ensures RefSet(ApplyAll(b, setters).value, RefOf(setters[i]))
    decreases |setters|
  {
    var next := Apply(b, setters[0]).value;
    if i > 0 {
      RefSetByCall(next, setters[1..], i - 1);
    } else {
      RefStaysSet(next, setters[1..], RefOf(setters[0]));
    }
  }

  /** Some call of the sequence sets reference `k`. */
  predicate Calls<C, N, K>(setters: seq<Setter<C, N, K>>, k: int) {
    exists i :: 0 <= i < |setters| && RefOf(setters[i]) == k
  }

  /** A successful call sequence that sets each of the six references, in any order and
      with the index never set, or set more than once, passes `checkFields`. */
  lemma SettersCoverAll<C, N, K>(setters: seq<Setter<C, N, K>>)
    requires ApplyAll(NewBuilder(), setters).Ok?
    requires forall k :: 0 <= k < 6 ==> Calls(setters, k)
    ensures CheckFields(ApplyAll(NewBuilder(), setters).value) == Ok(())
  {
    var b := ApplyAll(NewBuilder(), setters).value;
    forall k | 0 <= k < 6 ensures RefSet(b, k) {
      assert Calls(setters, k);
      var i :| 0 <= i < |setters| && RefOf(setters[i]) == k;
      RefSetByCall(NewBuilder(), setters, i);
    }
    assert RefSet(b, 0) && RefSet(b, 1) && RefSet(b, 2) && RefSet(b, 3) && RefSet(b, 4) && RefSet(b, 5);
    IndexNeverNegative(NewBuilder(), setters);
  }

  /** Each getter returns the value of the last call of its setter, and a setter changes no
      other field. */
  lemma LastValueWins<C, N, K>(b: Builder<C, N, K>, first: string, second: string, index: nat)
    ensures var r := ApplyAll(b, [JavaClass(Some(first)), FieldIndex(index), JavaClass(Some(second))]);
      r == Ok(b.(javaClass := Some(second), fieldIndex := index))
  {
    var s: seq<Setter<C, N, K>> := [JavaClass(Some(first)), FieldIndex(index), JavaClass(Some(second))];
    var b1 := b.(javaClass := Some(first));
    var b2 := b1.(fieldIndex := index);
    var b3 := b2.(javaClass := Some(second));
    assert Apply(b, s[0]) == Ok(b1);
    assert Apply(b1, s[1]) == Ok(b2);
    assert Apply(b2, s[2]) == Ok(b3);
    assert s[1..][1..][1..] == [];
    assert ApplyAll(b2, s[1..][1..]) == ApplyAll(b3, []);
    assert ApplyAll(b1, s[1..]) == ApplyAll(b2, s[1..][1..]);
    assert ApplyAll(b, s) == ApplyAll(b1, s[1..]);
    assert b3 == b.(javaClass := Some(second), fieldIndex := index);
  }

  /** A setter call the rest of the sequence does not repeat decides what the getter
      returns at the end; shown for the Java class. */
  lemma {:induction false} LastJavaClassWins<C, N, K>(b: Builder<C, N, K>, setters: seq<Setter<C, N, K>>, i: nat)
    requires i < |setters| && setters[i].JavaClass?
    requires forall j :: i < j < |setters| ==> !setters[j].JavaClass?
    requires ApplyAll(b, setters).Ok?
    ensures ApplyAll(b, setters).value.javaClass == setters[i].javaClass
    decreases |setters|
  {
    var next := Apply(b, setters[0]).value;
    if i > 0 {
      LastJavaClassWins(next, setters[1..], i - 1);
    } else {
      KeepsJavaClass(next, setters[1..]);
    }
  }

  /** Calls of the other setters leave the Java class alone. */
  lemma {:induction false} KeepsJavaClass<C, N, K>(b: Builder<C, N, K>, setters: seq<Setter<C, N, K>>)
    requires forall j :: 0 <= j < |setters| ==> !setters[j].JavaClass?
    requires ApplyAll(b, setters).Ok?
    ensures ApplyAll(b, setters).value.javaClass == b.javaClass
    decreases |setters|
  {
    if |setters| > 0 {
      KeepsJavaClass(Apply(b, setters[0]).value, setters[1..]);
    }
  }
}
