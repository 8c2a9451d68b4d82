/** `io.spine.tools.compiler.enrichment.ByOption`: reading the `(by)` field option of an
    enrichment message into the entry "enrichment type name → target event type names".

    The option value is a list of field references separated by `|`, each of the form
    `<event type>.<field>`; `*.<field>` stands for any event type. Reading the raw option
    value from the descriptor is outside this model: the value is a parameter, and so is the
    value separator of `RawListParser`, whose source is not part of this model. The type
    separator `EnrichmentFinder.PROTO_TYPE_SEPARATOR` is not shown either; it is taken to be
    the protobuf type-name separator `.`. */
module ByOptions {
  import opened Wrappers
  import opened Strs

  const AnyTarget: string := "*"
  const PipeSeparator: char := '|'
  const TypeSeparator: char := '.'

  // ---------------------------------------------------------------------------
  // `Pattern.split`

  /** Every piece between occurrences of `c`, empty ones included. */
  function SplitAll(s: string, c: char): (r: seq<string>)
    ensures |r| >= 1
    decreases |s|
  {
    var idx := IndexOfChar(s, c);
    if idx < 0 then [s]
    else [s[..idx]] + SplitAll(s[idx + 1..], c)
  }

  /** No piece contains the separator. */
  lemma {:induction false} SplitAllPieces(s: string, c: char)
    ensures forall i :: 0 <= i < |SplitAll(s, c)| ==> c !in SplitAll(s, c)[i]
    decreases |s|
  {
    var idx := IndexOfChar(s, c);
    if idx >= 0 {
      SplitAllPieces(s[idx + 1..], c);
      var r := SplitAll(s, c);
      var rest := SplitAll(s[idx + 1..], c);
      forall i | 0 <= i < |r| ensures c !in r[i] {
        if i > 0 {
          assert r[i] == rest[i - 1];
        }
      }
    }
  }

  /** `Join` of a first piece and at least one more. */
  lemma JoinCons(a: string, rest: seq<string>, sep: string)
    requires |rest| >= 1
    ensures Join([a] + rest, sep) == a + sep + Join(rest, sep)
  {
    assert ([a] + rest)[1..] == rest;
  }

  /** Splitting and joining back with the same character gives the text back. */
  lemma {:induction false} SplitAllJoin(s: string, c: char)
    ensures Join(SplitAll(s, c), [c]) == s
    decreases |s|
  {
    var idx := IndexOfChar(s, c);
    if idx >= 0 {
      var tail := s[idx + 1..];
      var rest := SplitAll(tail, c);
      SplitAllJoin(tail, c);
      JoinCons(s[..idx], rest, [c]);
      assert s[idx] == c;
      assert s == s[..idx] + [c] + tail;
    }
  }

  /** The pieces without the trailing empty ones. */
  function DropTrailingEmpty(ps: seq<string>): (r: seq<string>)
    ensures |r| <= |ps| && r == ps[..|r|]
    ensures forall k :: |r| <= k < |ps| ==> ps[k] == ""
    ensures |r| > 0 ==> r[|r| - 1] != ""
  {
    if |ps| == 0 then []
    else if ps[|ps| - 1] == "" then DropTrailingEmpty(ps[..|ps| - 1])
    else ps
  }

  /** `fieldReferences(field)`: the option value itself when it has no `|`, otherwise the
      pieces between the `|` characters with the trailing empty ones dropped, as Java's
      `Pattern.split` does. */
  function FieldReferences(byArgument: string): (r: seq<string>)
    ensures PipeSeparator !in byArgument ==> r == [byArgument]
    ensures forall i :: 0 <= i < |r| ==> PipeSeparator !in r[i]
    ensures PipeSeparator in byArgument ==>
      var all := SplitAll(byArgument, PipeSeparator);
      Join(all, [PipeSeparator]) == byArgument && |r| <= |all| && r == all[..|r|]
      && (forall k :: |r| <= k < |all| ==> all[k] == "")
      && (|r| > 0 ==> r[|r| - 1] != "")
  {
    if IndexOfChar(byArgument, PipeSeparator) < 0 then [byArgument]
    else
      SplitAllJoin(byArgument, PipeSeparator);
      SplitAllPieces(byArgument, PipeSeparator);
      DropTrailingEmpty(SplitAll(byArgument, PipeSeparator))
  }

  // ---------------------------------------------------------------------------
  // `parse()`

  predicate IsWildcardRef(ref: string) {
    StartsWith(ref, AnyTarget)
  }

  predicate HasTypeSeparator(ref: string) {
    TypeSeparator in ref
  }

  /** The trimmed text before the last type separator. */
  function TypeFqnOf(ref: string): (r: string)
    requires HasTypeSeparator(ref)
    ensures |r| < |ref|
  {
    var idx := LastIndexOfChar(ref, TypeSeparator);
    Trim(ref[..idx])
  }

  /** A reference `parse` accepts, when there are `count` references in all. */
  predicate RefValid(ref: string, count: nat) {
    !(IsWildcardRef(ref) && count > 1) && (!HasTypeSeparator(ref) || TypeFqnOf(ref) != "")
  }

  predicate AllValid(refs: seq<string>, count: nat) {
    forall i :: 0 <= i < |refs| ==> RefValid(refs[i], count)
  }

  /** `x` is the type name of one of `refs`. */
  predicate IsTypeOf(refs: seq<string>, x: string) {
    exists i :: 0 <= i < |refs| && HasTypeSeparator(refs[i]) && TypeFqnOf(refs[i]) == x
  }

  function InvalidUsage(fieldName: string): string {
    "Field of message `" + fieldName + "` has invalid 'by' option value. "
    + "Wildcard type is not allowed with multiple arguments. "
    + "Please, specify the type either with `by` or with `enrichment_for` annotation."
  }

  function InvalidValue(name: string): string {
    "The message field `" + name + "` has invalid 'by' option value, "
    + "which must be a fully-qualified field reference."
  }

  function ParseError(fieldName: string): string {
    "Error parsing `by` annotation for field " + fieldName
  }

  /** The error `parse` raises for an invalid reference. */
  function RefError(ref: string, count: nat, fieldName: string): Exception {
    if IsWildcardRef(ref) && count > 1 then IllegalState(InvalidUsage(fieldName))
    else IllegalState(ParseError(fieldName))
  }

  /** The loop of `parse()` over `refs`, `count` being the number of all references: the
      type name of each reference that has a type separator, in order; references without
      one are skipped. An invalid reference stops it with its error. */
  function ParseRefs(refs: seq<string>, count: nat, fieldName: string): (r: Result<seq<string>, Exception>)
    ensures r.Ok? <==> AllValid(refs, count)
    ensures r.Ok? ==> |r.value| <= |refs|
  {
    if |refs| == 0 then Ok([])
    else if !RefValid(refs[0], count) then Err(RefError(refs[0], count, fieldName))
    else
      RefsShift(refs, count);
      var rest :- ParseRefs(refs[1..], count, fieldName);
      if HasTypeSeparator(refs[0]) then Ok([TypeFqnOf(refs[0])] + rest) else Ok(rest)
  }

  /** Reference `i` is the first invalid one. */
  predicate FirstInvalidAt(refs: seq<string>, count: nat, i: int) {
    0 <= i < |refs| && !RefValid(refs[i], count) && forall j :: 0 <= j < i ==> RefValid(refs[j], count)
  }

  /** The error of `parse` is the one of the first invalid reference. */
  lemma {:induction false} ParseRefsError(refs: seq<string>, count: nat, fieldName: string)
    requires ParseRefs(refs, count, fieldName).Err?
    ensures exists i :: FirstInvalidAt(refs, count, i)
                        && ParseRefs(refs, count, fieldName).error == RefError(refs[i], count, fieldName)
  {
    if RefValid(refs[0], count) {
      ParseRefsErrorTail(refs, count, fieldName);
      ParseRefsError(refs[1..], count, fieldName);
      var i :| FirstInvalidAt(refs[1..], count, i)
               && ParseRefs(refs[1..], count, fieldName).error == RefError(refs[1..][i], count, fieldName);
      FirstInvalidShift(refs, count, i);
    } else {
      assert FirstInvalidAt(refs, count, 0);
    }
  }

  /** After a valid first reference, `parse` fails with the error of the rest. */
  lemma ParseRefsErrorTail(refs: seq<string>, count: nat, fieldName: string)
    requires ParseRefs(refs, count, fieldName).Err? && RefValid(refs[0], count)
    ensures ParseRefs(refs[1..], count, fieldName).Err?
    ensures ParseRefs(refs, count, fieldName).error == ParseRefs(refs[1..], count, fieldName).error
  {
  }

  /** The first invalid reference of the rest is the first invalid one of all when the first
      reference is valid. */
  lemma FirstInvalidShift(refs: seq<string>, count: nat, i: int)
    requires |refs| > 0 && RefValid(refs[0], count) && FirstInvalidAt(refs[1..], count, i)
    ensures FirstInvalidAt(refs, count, i + 1) && refs[i + 1] == refs[1..][i]
  {
    forall j | 0 <= j < i + 1 ensures RefValid(refs[j], count) {
      if j > 0 {
        assert refs[j] == refs[1..][j - 1];
      }
    }
  }

  /** Validity of the tail is validity of every reference after the first. */
  lemma RefsShift(refs: seq<string>, count: nat)
    requires |refs| > 0
    ensures AllValid(refs, count) <==> RefValid(refs[0], count) && AllValid(refs[1..], count)
  {
    if AllValid(refs[1..], count) {
      forall i | 1 <= i < |refs| ensures RefValid(refs[i], count) {
        assert refs[i] == refs[1..][i - 1];
      }
    }
  }

  /** The names `parse` collects are exactly the type names of the references that have a
      type separator. */
  lemma {:induction false} ParseRefsMembers(refs: seq<string>, count: nat, fieldName: string, x: string)
    requires ParseRefs(refs, count, fieldName).Ok?
    ensures x in ParseRefs(refs, count, fieldName).value <==> IsTypeOf(refs, x)
  {
    if |refs| > 0 {
      ParseRefsCons(refs, count, fieldName);
      ParseRefsMembers(refs[1..], count, fieldName, x);
      IsTypeOfCons(refs, x);
    }
  }

  /** One step of the loop of `parse()`. */
  lemma ParseRefsCons(refs: seq<string>, count: nat, fieldName: string)
    requires |refs| > 0 && ParseRefs(refs, count, fieldName).Ok?
    ensures ParseRefs(refs[1..], count, fieldName).Ok?
    ensures ParseRefs(refs, count, fieldName).value
      == (if HasTypeSeparator(refs[0]) then [TypeFqnOf(refs[0])] else []) + ParseRefs(refs[1..], count, fieldName).value
  {
    RefsShift(refs, count);
  }

  /** A type name of the references is the one of the first or one of the rest. */
  lemma IsTypeOfCons(refs: seq<string>, x: string)
    requires |refs| > 0
    ensures IsTypeOf(refs, x) <==> (HasTypeSeparator(refs[0]) && TypeFqnOf(refs[0]) == x) || IsTypeOf(refs[1..], x)
  {
    if IsTypeOf(refs[1..], x) {
      var i :| 0 <= i < |refs[1..]| && HasTypeSeparator(refs[1..][i]) && TypeFqnOf(refs[1..][i]) == x;
      assert refs[i + 1] == refs[1..][i];
    }
    if IsTypeOf(refs, x) {
      var i :| 0 <= i < |refs| && HasTypeSeparator(refs[i]) && TypeFqnOf(refs[i]) == x;
      if i > 0 {
        assert refs[1..][i - 1] == refs[i];
      }
    }
  }

  /** A non-empty trimmed text trims to itself, in particular to a non-empty text. */
  lemma TrimNonEmpty(t: string)
    requires t != "" && !IsTrimmable(t[0])
    ensures Trim(t) != ""
  {
  }

  /** The names `parse` collects are never blank. */
  lemma ParseRefsNonBlank(refs: seq<string>, count: nat, fieldName: string)
    requires ParseRefs(refs, count, fieldName).Ok?
    ensures AllNonBlank(ParseRefs(refs, count, fieldName).value)
  {
    var names := ParseRefs(refs, count, fieldName).value;
    forall k | 0 <= k < |names| ensures Trim(names[k]) != "" {
      ParseRefsMembers(refs, count, fieldName, names[k]);
      var i :| 0 <= i < |refs| && HasTypeSeparator(refs[i]) && TypeFqnOf(refs[i]) == names[k];
      assert RefValid(refs[i], count);
      TrimNonEmpty(names[k]);
    }
  }

  /** `parse()`. */
  function Parse(byArgument: string, fieldName: string): (r: Result<seq<string>, Exception>)
    ensures r.Ok? <==> AllValid(FieldReferences(byArgument), |FieldReferences(byArgument)|)
    ensures r.Ok? ==> AllNonBlank(r.value)
  {
    var refs := FieldReferences(byArgument);
    var r := ParseRefs(refs, |refs|, fieldName);
    if r.Ok? then ParseRefsNonBlank(refs, |refs|, fieldName); r else r
  }

  // ---------------------------------------------------------------------------
  // `group()` and `collect()`

  predicate AllNonBlank(events: seq<string>) {
    forall i :: 0 <= i < |events| ==> Trim(events[i]) != ""
  }

  /** No name is blank exactly when the first is not and no later one is. */
  lemma NonBlankCons(events: seq<string>)
    requires |events| > 0
    ensures AllNonBlank(events) <==> Trim(events[0]) != "" && AllNonBlank(events[1..])
  {
    if Trim(events[0]) != "" && AllNonBlank(events[1..]) {
      forall i | 1 <= i < |events| ensures Trim(events[i]) != "" {
        assert events[i] == events[1..][i - 1];
      }
    }
  }

  predicate AllWildcards(events: seq<string>) {
    forall x :: x in events ==> x == AnyTarget
  }

  predicate Distinct(s: seq<string>) {
    forall i, j :: 0 <= i < j < |s| ==> s[i] != s[j]
  }

  /** The target event names of `events`: every name but the wildcard, each once. */
  function EventGroup(events: seq<string>): set<string> {
    set x | x in events && x != AnyTarget
  }

  /** The loop of `group()` filling the hash set `eventGroup`: a blank name stops it, the
      wildcard is skipped, every other name is added. */
  function GroupNames(events: seq<string>, acc: set<string>, enrichment: string): (r: Result<set<string>, Exception>)
    ensures r.Ok? <==> AllNonBlank(events)
    ensures r.Err? ==> r.error == IllegalState(InvalidValue(enrichment))
  {
    if |events| == 0 then Ok(acc)
    else
      var e := events[0];
      NonBlankCons(events);
      if Trim(e) == "" then Err(IllegalState(InvalidValue(enrichment)))
      else GroupNames(events[1..], if e == AnyTarget then acc else acc + {e}, enrichment)
  }

  /** The set `group` fills holds the names added before and the target event names. */
  lemma {:induction false} GroupNamesIsEventGroup(events: seq<string>, acc: set<string>, enrichment: string)
    requires AllNonBlank(events)
    ensures GroupNames(events, acc, enrichment).value == acc + EventGroup(events)
  {
    if |events| > 0 {
      var e := events[0];
      var next := if e == AnyTarget then acc else acc + {e};
      NonBlankCons(events);
      assert GroupNames(events, acc, enrichment) == GroupNames(events[1..], next, enrichment);
      GroupNamesIsEventGroup(events[1..], next, enrichment);
      EventGroupCons(events);
      AddStep(acc, e, EventGroup(events[1..]));
    }
  }

  lemma AddStep(acc: set<string>, e: string, rest: set<string>)
    ensures (if e == AnyTarget then acc else acc + {e}) + rest
      == acc + ((if e == AnyTarget then {} else {e}) + rest)
  {
  }

  lemma EventGroupCons(events: seq<string>)
    requires |events| > 0
    ensures EventGroup(events) == (if events[0] == AnyTarget then {} else {events[0]}) + EventGroup(events[1..])
  {
    assert events == [events[0]] + events[1..];
  }

  /** `s` lists the elements of `set_`, each once: what iterating over a hash set yields, in
      an order the model leaves open. */
  ghost predicate Enumerates(s: seq<string>, set_: set<string>) {
    Distinct(s) && forall x :: x in s <==> x in set_
  }

  /** `group(events)`: the enrichment's full name, and its target event names joined by the
      value separator in the iteration order of the hash set, which `iterate` gives. */
  function Group(events: seq<string>, packagePrefix: string, enrichment: string, valueSeparator: string,
                 iterate: set<string> -> seq<string>)
    : (r: Result<(string, string), Exception>)
    ensures r.Ok? <==> AllNonBlank(events)
    ensures r.Err? ==> r.error == IllegalState(InvalidValue(enrichment))
    ensures r.Ok? ==> r.value.0 == packagePrefix + enrichment
    ensures r.Ok? ==> r.value.1 == Join(iterate(EventGroup(events)), valueSeparator)
  {
    var names :- GroupNames(events, {}, enrichment);
    GroupNamesIsEventGroup(events, {}, enrichment);
    assert names == EventGroup(events) by {
      assert {} + EventGroup(events) == EventGroup(events);
    }
    Ok((packagePrefix + enrichment, Join(iterate(names), valueSeparator)))
  }

  /** Whatever the iteration order, the joined names are distinct, and are exactly the event
      names other than the wildcard. */
  lemma GroupedTargets(events: seq<string>, packagePrefix: string, enrichment: string, valueSeparator: string,
                       iterate: set<string> -> seq<string>)
    requires AllNonBlank(events)
    requires Enumerates(iterate(EventGroup(events)), EventGroup(events))
    ensures exists names ::
      (Distinct(names) && (forall x :: x in names <==> x in events && x != AnyTarget)
       && Group(events, packagePrefix, enrichment, valueSeparator, iterate).value.1 == Join(names, valueSeparator))
  {
    var names := iterate(EventGroup(events));
    var g := Group(events, packagePrefix, enrichment, valueSeparator, iterate);
    assert g.Ok?;
    assert forall x :: x in names <==> x in events && x != AnyTarget;
    assert Distinct(names) && g.value.1 == Join(names, valueSeparator);
  }

  /** With only wildcards, no name is kept. */
  lemma WildcardsGroupToNothing(events: seq<string>, enrichment: string)
    requires AllNonBlank(events) && AllWildcards(events)
    ensures GroupNames(events, {}, enrichment) == Ok({})
  {
    GroupNamesIsEventGroup(events, {}, enrichment);
    NoTargetAmongWildcards(events);
    assert {} + EventGroup(events) == {};
  }

  lemma NoTargetAmongWildcards(events: seq<string>)
    requires AllWildcards(events)
    ensures EventGroup(events) == {}
  {
  }

  /** `collect()`: the references parsed, then grouped. */
  function Collect(byArgument: string, packagePrefix: string, enrichment: string, fieldName: string, valueSeparator: string,
                   iterate: set<string> -> seq<string>)
    : (r: Result<(string, string), Exception>)
    ensures r.Ok? <==> AllValid(FieldReferences(byArgument), |FieldReferences(byArgument)|)
    ensures r.Ok? ==> r.value.0 == packagePrefix + enrichment
  {
    var events :- Parse(byArgument, fieldName);
    Group(events, packagePrefix, enrichment, valueSeparator, iterate)
  }

  /** The text before the last `.` of `*.field` is `*`. */
  lemma WildcardRefType(field: string)
    requires TypeSeparator !in field
    ensures HasTypeSeparator("*." + field) && TypeFqnOf("*." + field) == AnyTarget
  {
    var arg := "*." + field;
    assert arg[1] == TypeSeparator;
    forall k | 1 < k < |arg| ensures arg[k] != TypeSeparator {
      assert arg[k] == field[k - 2];
    }
    assert LastIndexOfChar(arg, TypeSeparator) == 1;
    assert arg[..1] == "*";
    assert TrimStart("*") == "*";
    assert TrimEnd("*") == "*";
  }

  /** A single wildcard reference `*.field` parses to the wildcard alone. */
  lemma WildcardAloneParses(field: string, fieldName: string)
    requires PipeSeparator !in field && TypeSeparator !in field
    ensures Parse("*." + field, fieldName) == Ok([AnyTarget])
  {
    var arg := "*." + field;
    assert PipeSeparator !in arg by {
      forall k | 0 <= k < |arg| ensures arg[k] != PipeSeparator {
        if k >= 2 {
          assert arg[k] == field[k - 2];
        }
      }
    }
    assert FieldReferences(arg) == [arg];
    WildcardRefType(field);
    assert RefValid(arg, 1);
    assert [arg][1..] == [];
    assert ParseRefs([arg][1..], 1, fieldName) == Ok([]);
    assert [AnyTarget] + [] == [AnyTarget];
  }

  /** A single wildcard reference `*.field` is accepted and names no target event. */
  lemma WildcardAloneHasNoTarget(field: string, packagePrefix: string, enrichment: string, fieldName: string, sep: string,
                                  iterate: set<string> -> seq<string>)
    requires PipeSeparator !in field && TypeSeparator !in field
    ensures Collect("*." + field, packagePrefix, enrichment, fieldName, sep, iterate)
      == Ok((packagePrefix + enrichment, Join(iterate({}), sep)))
  {
    WildcardAloneParses(field, fieldName);
    assert Trim(AnyTarget) != "" by {
      TrimNonEmpty(AnyTarget);
    }
    WildcardsGroupToNothing([AnyTarget], enrichment);
  }

  /** A wildcard reference among several references is an error. */
  lemma WildcardAmongSeveralFails(byArgument: string, k: nat, packagePrefix: string, enrichment: string, fieldName: string, sep: string,
                                  iterate: set<string> -> seq<string>)
    requires var refs := FieldReferences(byArgument); k < |refs| && |refs| > 1 && IsWildcardRef(refs[k])
    ensures Collect(byArgument, packagePrefix, enrichment, fieldName, sep, iterate).Err?
  {
  }

  /** The events `parse` returns are never blank, so `group` never fails after it. */
  lemma CollectFailsOnlyInParse(byArgument: string, packagePrefix: string, enrichment: string, fieldName: string, sep: string,
                                 iterate: set<string> -> seq<string>)
    requires Parse(byArgument, fieldName).Ok?
    ensures Collect(byArgument, packagePrefix, enrichment, fieldName, sep, iterate).Ok?
  {
  }
}
