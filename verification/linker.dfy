/** `io.spine.code.proto.Linker`: builds file descriptors from an unordered list of
    `FileDescriptorProto`s in dependency order, sorting them into resolved, partially
    resolved and unresolved files.

    The mutable fields of the Java class become the fields of the `Linker` value; each
    phase is a function from the old field values to the new ones. A pass over
    `remaining` that removes elements through an iterator is a recursion over the
    unprocessed suffix `todo`, with the elements kept so far in `kept`. */
module Linker {
  import opened Wrappers
  import opened Strs
  import opened Seqs
  import opened Protos
  import opened FileSets

  datatype LinkError =
    | DescriptorValidationError(file: string)  // `DescriptorValidationException` from `buildFrom`
    | IllegalArgumentError(name: string)       // `FileName.of` refusing a dependency name
    | IllegalStateError(message: string)

  /** The payload check of `FileDescriptor.buildFrom`, which is outside this model: whether
      the proto builds when linked against descriptors with the given names. */
  type Builder = (FileProto, seq<string>) -> bool

  /** The builder accepts every proto of `files`, whatever it is linked against. */
  ghost predicate AcceptsAll(accepts: Builder, files: seq<FileProto>) {
    forall f, names :: f in files ==> accepts(f, names)
  }

  const ProtoExtension: string := ".proto"

  /** `FileName.of` accepts the name. */
  predicate IsFileName(name: string) {
    EndsWith(name, ProtoExtension)
  }

  predicate AllFileNames(values: seq<string>) {
    forall v :: v in values ==> IsFileName(v)
  }

  /** Every dependency name of `f` is a valid file name. */
  predicate WellNamed(f: FileProto) {
    AllFileNames(f.dependencies)
  }

  predicate AllWellNamed(files: seq<FileProto>) {
    forall f :: f in files ==> WellNamed(f)
  }

  predicate HasNoDependencies(f: FileProto) {
    |f.dependencies| == 0
  }

  predicate HasDependencies(f: FileProto) {
    |f.dependencies| > 0
  }

  /** `FileName.of` over a list of names: the first name without the `.proto`
      extension fails the whole conversion. */
  function FileNames(values: seq<string>): (r: Result<seq<string>, LinkError>)
    ensures r.Ok? <==> AllFileNames(values)
    ensures r.Ok? ==> r.value == values
    ensures r.Err? ==> r.error.IllegalArgumentError? && r.error.name in values && !IsFileName(r.error.name)
  {
    if |values| == 0 then Ok([])
    else if !IsFileName(values[0]) then Err(IllegalArgumentError(values[0]))
    else
      var rest :- FileNames(values[1..]);
      assert values == [values[0]] + values[1..];
      Ok([values[0]] + rest)
  }

  /** `dependencies(file)`: the dependency names of `f` as `FileName`s. */
  function Dependencies(f: FileProto): (r: Result<seq<string>, LinkError>)
    ensures r.Ok? <==> WellNamed(f)
    ensures r.Ok? ==> r.value == f.dependencies
    ensures r.Err? ==> r.error.IllegalArgumentError? && r.error.name in f.dependencies
  {
    FileNames(f.dependencies)
  }

  /** `buildFrom(proto, dependencies, true)`. */
  function BuildFrom(proto: FileProto, deps: FileSet, accepts: Builder): (r: Result<FileDescriptor, LinkError>)
    ensures r.Ok? <==> accepts(proto, NameSeq(deps.files))
    ensures r.Ok? ==> r.value.proto == proto && r.value.linkedDependencies == NameSeq(deps.files)
    ensures r.Err? ==> r.error == DescriptorValidationError(proto.name)
  {
    if accepts(proto, NameSeq(deps.files)) then Ok(FileDescriptor(proto, NameSeq(deps.files)))
    else Err(DescriptorValidationError(proto.name))
  }

  /** Descriptors built from `protos` with `NO_DEPENDENCIES`, in order. */
  function Unlinked(protos: seq<FileProto>): (r: seq<FileDescriptor>)
    ensures |r| == |protos| && ProtosOf(r) == protos
  {
    seq(|protos|, i requires 0 <= i < |protos| => FileDescriptor(protos[i], []))
  }

  /** The descriptor was linked against exactly the files its proto imports. */
  ghost predicate FullyLinked(d: FileDescriptor) {
    forall n :: n in d.proto.dependencies <==> n in d.linkedDependencies
  }

  /** The descriptor was built with no dependency descriptors at all. */
  predicate LinkedToNothing(d: FileDescriptor) {
    d.linkedDependencies == []
  }

  /** What `resolved` keeps: every descriptor is linked against all its imports, which
      come before it. */
  ghost predicate WellResolved(files: seq<FileDescriptor>) {
    TopologicallyOrdered(files) && forall d :: d in files ==> FullyLinked(d)
  }

  /** The result of one pass over `remaining`: the files kept, the grown output set, and
      whether the pass added anything. */
  datatype Pass = Pass(kept: seq<FileProto>, files: FileSet, found: bool)

  /** A phase's result: the files left in `remaining` and the grown output set. */
  datatype Sorted = Sorted(remaining: seq<FileProto>, files: FileSet)

  // ---------------------------------------------------------------------------
  // Phase A: `findNoDependencies`

  /** `findNoDependencies`: the files without imports are built with no dependencies and
      added to `resolved` in their order; the others stay in `remaining`, in order. */
  function NoDependenciesPass(todo: seq<FileProto>, kept: seq<FileProto>, resolved: FileSet, accepts: Builder)
    : (r: Result<Sorted, LinkError>)
    ensures r.Ok? ==> r.value.remaining == kept + Filter(todo, HasDependencies)
    ensures r.Ok? ==> r.value.files.files == resolved.files + Unlinked(Filter(todo, HasNoDependencies))
    ensures r.Err? <==> exists f :: f in todo && HasNoDependencies(f) && !accepts(f, [])
    ensures r.Err? ==> r.error.DescriptorValidationError?
    decreases |todo|
  {
    if |todo| == 0 then Ok(Sorted(kept, resolved))
    else
      var next := todo[0];
      assert todo == [next] + todo[1..];
      if HasNoDependencies(next) then
        var fd :- BuildFrom(next, FileSet([]), accepts);
        assert Unlinked([next] + Filter(todo[1..], HasNoDependencies))
            == [fd] + Unlinked(Filter(todo[1..], HasNoDependencies));
        NoDependenciesPass(todo[1..], kept, resolved.Add(fd), accepts)
      else
        NoDependenciesPass(todo[1..], kept + [next], resolved, accepts)
  }

  // ---------------------------------------------------------------------------
  // Phase B: `findResolved` / `doFindResolved`

  /** The body of the `doFindResolved` loop for one file: the descriptor, linked against
      the resolved files it imports, when they are all resolved; `None` otherwise. */
  function ResolveStep(next: FileProto, resolved: FileSet, accepts: Builder): (r: Result<Option<FileDescriptor>, LinkError>)
    ensures r.Ok? ==> WellNamed(next)
    ensures r.Ok? ==> (r.value.Some? <==> DependenciesIn(next, resolved.Names()))
    ensures r.Ok? && r.value.Some? ==>
      r.value.value == FileDescriptor(next, NameSeq(resolved.Find(next.dependencies).files))
    ensures r.Err? ==> !WellNamed(next) || !accepts(next, NameSeq(resolved.Find(next.dependencies).files))
    ensures r.Err? ==> r.error.IllegalArgumentError? || r.error.DescriptorValidationError?
  {
    var dependencyList :- Dependencies(next);
    if resolved.ContainsAll(dependencyList) then
      var dependencies := resolved.Find(dependencyList);
      var newResolved :- BuildFrom(next, dependencies, accepts);
      Ok(Some(newResolved))
    else
      Ok(None)
  }

  /** A descriptor built by `ResolveStep` is linked against exactly its imports. */
  lemma ResolveStepLinksAll(next: FileProto, resolved: FileSet, accepts: Builder)
    requires ResolveStep(next, resolved, accepts).Ok? && ResolveStep(next, resolved, accepts).value.Some?
    ensures FullyLinked(ResolveStep(next, resolved, accepts).value.value)
  {
    FindNames(resolved, next.dependencies);
  }

  /** One run of `doFindResolved`: a file whose imports are all in `resolved` is built
      against them, added to `resolved` and removed; `found` records whether any was. */
  function ResolvePass(todo: seq<FileProto>, kept: seq<FileProto>, resolved: FileSet, found: bool, accepts: Builder)
    : (r: Result<Pass, LinkError>)
    ensures r.Ok? ==> Extends(resolved.files, r.value.files.files)
    ensures r.Ok? ==> (r.value.found <==> found || |r.value.files.files| > |resolved.files|)
    ensures r.Err? ==> r.error.IllegalArgumentError? || r.error.DescriptorValidationError?
    decreases |todo|
  {
    if |todo| == 0 then Ok(Pass(kept, resolved, found))
    else
      var step :- ResolveStep(todo[0], resolved, accepts);
      match step
      case Some(newResolved) =>
        var r := ResolvePass(todo[1..], kept, resolved.Add(newResolved), true, accepts);
        assert r.Ok? ==> Extends(resolved.files, r.value.files.files) by {
          if r.Ok? {
            ExtendsTrans(resolved.files, resolved.Add(newResolved).files, r.value.files.files);
          }
        }
        r
      case None =>
        ResolvePass(todo[1..], kept + [todo[0]], resolved, found, accepts)
  }

  /** A pass moves files from `todo` to `resolved` or `kept`, losing and inventing none. */
  lemma {:induction false} ResolvePassConserves(todo: seq<FileProto>, kept: seq<FileProto>, resolved: FileSet,
                                                found: bool, accepts: Builder)
    requires ResolvePass(todo, kept, resolved, found, accepts).Ok?
    ensures var p := ResolvePass(todo, kept, resolved, found, accepts).value;
      multiset(ProtosOf(p.files.files)) + multiset(p.kept)
        == multiset(ProtosOf(resolved.files)) + multiset(kept) + multiset(todo)
    decreases |todo|
  {
    if |todo| > 0 {
      var p := ResolvePass(todo, kept, resolved, found, accepts).value;
      match ResolveStep(todo[0], resolved, accepts).value
      case Some(d) =>
        var p' := ResolvePass(todo[1..], kept, resolved.Add(d), true, accepts).value;
        assert p == p';
        ResolvePassConserves(todo[1..], kept, resolved.Add(d), true, accepts);
        ConservesResolved(todo, kept, resolved, d, p'.files.files, p'.kept);
      case None =>
        var p' := ResolvePass(todo[1..], kept + [todo[0]], resolved, found, accepts).value;
        assert p == p';
        ResolvePassConserves(todo[1..], kept + [todo[0]], resolved, found, accepts);
        ConservesKept(todo, kept, resolved, p'.files.files, p'.kept);
    }
  }

  /** The multiset arithmetic of a step that resolves the first file of `todo`. */
  lemma ConservesResolved(todo: seq<FileProto>, kept: seq<FileProto>, resolved: FileSet, d: FileDescriptor,
                          files: seq<FileDescriptor>, kept': seq<FileProto>)
    requires |todo| > 0 && d.proto == todo[0]
    requires multiset(ProtosOf(files)) + multiset(kept')
      == multiset(ProtosOf(resolved.Add(d).files)) + multiset(kept) + multiset(todo[1..])
    ensures multiset(ProtosOf(files)) + multiset(kept')
      == multiset(ProtosOf(resolved.files)) + multiset(kept) + multiset(todo)
  {
    assert todo == [todo[0]] + todo[1..];
    ProtosOfAppend(resolved.files, [d]);
    assert ProtosOf([d]) == [todo[0]];
  }

  /** The multiset arithmetic of a step that keeps the first file of `todo`. */
  lemma ConservesKept(todo: seq<FileProto>, kept: seq<FileProto>, resolved: FileSet,
                      files: seq<FileDescriptor>, kept': seq<FileProto>)
    requires |todo| > 0
    requires multiset(ProtosOf(files)) + multiset(kept')
      == multiset(ProtosOf(resolved.files)) + multiset(kept + [todo[0]]) + multiset(todo[1..])
    ensures multiset(ProtosOf(files)) + multiset(kept')
      == multiset(ProtosOf(resolved.files)) + multiset(kept) + multiset(todo)
  {
    assert todo == [todo[0]] + todo[1..];
  }

  /** A pass keeps only files it was given. */
  lemma {:induction false} ResolvePassKeepsInput(todo: seq<FileProto>, kept: seq<FileProto>, resolved: FileSet,
                                                 found: bool, accepts: Builder)
    requires ResolvePass(todo, kept, resolved, found, accepts).Ok?
    ensures multiset(ResolvePass(todo, kept, resolved, found, accepts).value.kept) <= multiset(kept) + multiset(todo)
    decreases |todo|
  {
    if |todo| > 0 {
      assert todo == [todo[0]] + todo[1..];
      match ResolveStep(todo[0], resolved, accepts).value
      case Some(d) =>
        ResolvePassKeepsInput(todo[1..], kept, resolved.Add(d), true, accepts);
      case None =>
        ResolvePassKeepsInput(todo[1..], kept + [todo[0]], resolved, found, accepts);
    }
  }

  /** A pass keeps `resolved` in dependency order and fully linked. */
  lemma {:induction false} ResolvePassKeepsOrder(todo: seq<FileProto>, kept: seq<FileProto>, resolved: FileSet,
                                                 found: bool, accepts: Builder)
    requires WellResolved(resolved.files)
    requires ResolvePass(todo, kept, resolved, found, accepts).Ok?
    ensures WellResolved(ResolvePass(todo, kept, resolved, found, accepts).value.files.files)
    decreases |todo|
  {
    if |todo| > 0 {
      match ResolveStep(todo[0], resolved, accepts).value
      case Some(d) =>
        ResolveStepLinksAll(todo[0], resolved, accepts);
        TopologicallyOrderedAdd(resolved.files, d);
        ResolvePassKeepsOrder(todo[1..], kept, resolved.Add(d), true, accepts);
      case None =>
        ResolvePassKeepsOrder(todo[1..], kept + [todo[0]], resolved, found, accepts);
    }
  }

  /** A pass that resolves nothing keeps every file, and then none of them has all its
      imports resolved. */
  lemma {:induction false} ResolvePassStuck(todo: seq<FileProto>, kept: seq<FileProto>, resolved: FileSet,
                                            found: bool, accepts: Builder)
    requires ResolvePass(todo, kept, resolved, found, accepts).Ok?
    requires |ResolvePass(todo, kept, resolved, found, accepts).value.files.files| == |resolved.files|
    ensures ResolvePass(todo, kept, resolved, found, accepts).value.kept == kept + todo
    ensures forall f :: f in todo ==> !DependenciesIn(f, resolved.Names())
    decreases |todo|
  {
    if |todo| > 0 {
      assert todo == [todo[0]] + todo[1..];
      match ResolveStep(todo[0], resolved, accepts).value
      case Some(d) =>
        assert false;
      case None =>
        ResolvePassStuck(todo[1..], kept + [todo[0]], resolved, found, accepts);
        assert kept + [todo[0]] + todo[1..] == kept + todo;
    }
  }

  /** A pass succeeds only if every import name is well formed, and does when in addition
      the builder accepts every file. */
  lemma {:induction false} ResolvePassFails(todo: seq<FileProto>, kept: seq<FileProto>, resolved: FileSet,
                                            found: bool, accepts: Builder)
    ensures ResolvePass(todo, kept, resolved, found, accepts).Ok? ==> AllWellNamed(todo)
    ensures AllWellNamed(todo) && AcceptsAll(accepts, todo) ==> ResolvePass(todo, kept, resolved, found, accepts).Ok?
    decreases |todo|
  {
    if |todo| > 0 {
      assert todo == [todo[0]] + todo[1..];
      var step := ResolveStep(todo[0], resolved, accepts);
      if step.Ok? {
        match step.value
        case Some(d) =>
          ResolvePassFails(todo[1..], kept, resolved.Add(d), true, accepts);
        case None =>
          ResolvePassFails(todo[1..], kept + [todo[0]], resolved, found, accepts);
      }
    }
  }

  /** `findResolved`: passes over `remaining` until it is empty or a pass resolves nothing.
      Each productive pass removes at least one file, so `|remaining|` decreases. */
  function FindResolved(remaining: seq<FileProto>, resolved: FileSet, accepts: Builder)
    : (r: Result<Sorted, LinkError>)
    ensures r.Ok? ==> Extends(resolved.files, r.value.files.files)
    ensures r.Err? ==> r.error.IllegalArgumentError? || r.error.DescriptorValidationError?
    decreases |remaining|
  {
    if |remaining| == 0 then Ok(Sorted(remaining, resolved))
    else
      var pass :- ResolvePass(remaining, [], resolved, false, accepts);
      if !pass.found then Ok(Sorted(pass.kept, pass.files))
      else
        ResolvePassShrinks(remaining, resolved, accepts);
        var r := FindResolved(pass.kept, pass.files, accepts);
        assert r.Ok? ==> Extends(resolved.files, r.value.files.files) by {
          if r.Ok? {
            ExtendsTrans(resolved.files, pass.files.files, r.value.files.files);
          }
        }
        r
  }

  /** A productive pass leaves fewer files in `remaining`. */
  lemma ResolvePassShrinks(remaining: seq<FileProto>, resolved: FileSet, accepts: Builder)
    requires ResolvePass(remaining, [], resolved, false, accepts).Ok?
    requires ResolvePass(remaining, [], resolved, false, accepts).value.found
    ensures |ResolvePass(remaining, [], resolved, false, accepts).value.kept| < |remaining|
  {
    var pass := ResolvePass(remaining, [], resolved, false, accepts).value;
    ResolvePassConserves(remaining, [], resolved, false, accepts);
    assert |multiset(ProtosOf(pass.files.files)) + multiset(pass.kept)|
        == |multiset(ProtosOf(resolved.files)) + multiset(remaining)|;
  }

  /** `findResolved` moves files from `remaining` to `resolved`, losing and inventing none. */
  lemma {:induction false} FindResolvedConserves(remaining: seq<FileProto>, resolved: FileSet, accepts: Builder)
    requires FindResolved(remaining, resolved, accepts).Ok?
    ensures var s := FindResolved(remaining, resolved, accepts).value;
      multiset(ProtosOf(s.files.files)) + multiset(s.remaining)
        == multiset(ProtosOf(resolved.files)) + multiset(remaining)
    decreases |remaining|
  {
    if |remaining| > 0 {
      var pass := ResolvePass(remaining, [], resolved, false, accepts).value;
      ResolvePassConserves(remaining, [], resolved, false, accepts);
      assert [] + remaining == remaining;
      if pass.found {
        ResolvePassShrinks(remaining, resolved, accepts);
        FindResolvedConserves(pass.kept, pass.files, accepts);
      }
    }
  }

  /** `findResolved` leaves only files it was given. */
  lemma {:induction false} FindResolvedKeepsInput(remaining: seq<FileProto>, resolved: FileSet, accepts: Builder)
    requires FindResolved(remaining, resolved, accepts).Ok?
    ensures multiset(FindResolved(remaining, resolved, accepts).value.remaining) <= multiset(remaining)
    decreases |remaining|
  {
    if |remaining| > 0 {
      var pass := ResolvePass(remaining, [], resolved, false, accepts).value;
      ResolvePassKeepsInput(remaining, [], resolved, false, accepts);
      assert [] + remaining == remaining;
      if pass.found {
        ResolvePassShrinks(remaining, resolved, accepts);
        FindResolvedKeepsInput(pass.kept, pass.files, accepts);
      }
    }
  }

  /** `findResolved` keeps `resolved` in dependency order and fully linked. */
  lemma {:induction false} FindResolvedKeepsOrder(remaining: seq<FileProto>, resolved: FileSet, accepts: Builder)
    requires WellResolved(resolved.files)
    requires FindResolved(remaining, resolved, accepts).Ok?
    ensures WellResolved(FindResolved(remaining, resolved, accepts).value.files.files)
    decreases |remaining|
  {
    if |remaining| > 0 {
      var pass := ResolvePass(remaining, [], resolved, false, accepts).value;
      ResolvePassKeepsOrder(remaining, [], resolved, false, accepts);
      if pass.found {
        ResolvePassShrinks(remaining, resolved, accepts);
        FindResolvedKeepsOrder(pass.kept, pass.files, accepts);
      }
    }
  }

  /** When `findResolved` stops, no remaining file has all its imports resolved. */
  lemma {:induction false} FindResolvedIsFixpoint(remaining: seq<FileProto>, resolved: FileSet, accepts: Builder)
    requires FindResolved(remaining, resolved, accepts).Ok?
    ensures var s := FindResolved(remaining, resolved, accepts).value;
      forall f :: f in s.remaining ==> !DependenciesIn(f, s.files.Names())
    decreases |remaining|
  {
    if |remaining| > 0 {
      var pass := ResolvePass(remaining, [], resolved, false, accepts).value;
      if pass.found {
        ResolvePassShrinks(remaining, resolved, accepts);
        FindResolvedIsFixpoint(pass.kept, pass.files, accepts);
      } else {
        assert pass.files.files == pass.files.files[..|resolved.files|];
        ResolvePassStuck(remaining, [], resolved, false, accepts);
      }
    }
  }

  /** `findResolved` succeeds only if every import name is well formed, and does when in
      addition the builder accepts every file. */
  lemma {:induction false} FindResolvedFails(remaining: seq<FileProto>, resolved: FileSet, accepts: Builder)
    ensures FindResolved(remaining, resolved, accepts).Ok? ==> AllWellNamed(remaining)
    ensures AllWellNamed(remaining) && AcceptsAll(accepts, remaining) ==> FindResolved(remaining, resolved, accepts).Ok?
    decreases |remaining|
  {
    if |remaining| > 0 {
      ResolvePassFails(remaining, [], resolved, false, accepts);
      var r := ResolvePass(remaining, [], resolved, false, accepts);
      if r.Ok? && r.value.found {
        ResolvePassShrinks(remaining, resolved, accepts);
        ResolvePassKeepsInput(remaining, [], resolved, false, accepts);
        assert [] + remaining == remaining;
        forall f | f in r.value.kept ensures f in remaining {
          assert f in multiset(r.value.kept);
        }
        FindResolvedFails(r.value.kept, r.value.files, accepts);
      }
    }
  }

  // ---------------------------------------------------------------------------
  // Phase C: `findPartiallyResolved` / `doFindPartiallyResolved`

  /** The body of the `doFindPartiallyResolved` loop for one file: a descriptor built with
      no dependencies when none of its imports is known; `None` otherwise. */
  function PartialStep(next: FileProto, known: FileSet, accepts: Builder): (r: Result<Option<FileDescriptor>, LinkError>)
    ensures r.Ok? ==> WellNamed(next)
    ensures r.Ok? ==> (r.value.Some? <==> !SomeDependencyIn(next, known.Names()))
    ensures r.Ok? && r.value.Some? ==> r.value.value == FileDescriptor(next, [])
    ensures r.Err? ==> !WellNamed(next) || !accepts(next, [])
    ensures r.Err? ==> r.error.IllegalArgumentError? || r.error.DescriptorValidationError?
  {
    var dependencyList :- Dependencies(next);
    var dependencies := known.Find(dependencyList);
    FindEmpty(known, dependencyList);
    if dependencies.IsEmpty() then
      var newPartial :- BuildFrom(next, dependencies, accepts);
      Ok(Some(newPartial))
    else
      Ok(None)
  }

  datatype PartialPassResult = PartialPassResult(partial: FileSet, known: FileSet, found: bool)

  /** One run of `doFindPartiallyResolved`. `known` is `partialAndResolved`. A file is built
      and added to `partial` and `known` only when NONE of its imports is known; every file
      of `todo` is removed from `remaining` either way. */
  function PartialPass(todo: seq<FileProto>, partial: FileSet, known: FileSet, found: bool, accepts: Builder)
    : (r: Result<PartialPassResult, LinkError>)
    ensures r.Ok? ==> Extends(partial.files, r.value.partial.files)
    ensures r.Ok? ==> r.value.known.files == known.files + r.value.partial.files[|partial.files|..]
    ensures r.Ok? ==> (r.value.found <==> found || |r.value.partial.files| > |partial.files|)
    ensures r.Err? ==> r.error.IllegalArgumentError? || r.error.DescriptorValidationError?
    decreases |todo|
  {
    if |todo| == 0 then Ok(PartialPassResult(partial, known, found))
    else
      var step :- PartialStep(todo[0], known, accepts);
      match step
      case Some(newPartial) =>
        var r := PartialPass(todo[1..], partial.Add(newPartial), known.Add(newPartial), true, accepts);
        if r.Ok? then
          AddedBeforePass(partial, known, newPartial, r.value);
          r
        else r
      case None =>
        PartialPass(todo[1..], partial, known, found, accepts)
  }

  /** A file added before the rest of a partial pass is the first of the files it adds. */
  lemma AddedBeforePass(partial: FileSet, known: FileSet, d: FileDescriptor, after: PartialPassResult)
    requires Extends(partial.Add(d).files, after.partial.files)
    requires after.known.files == known.Add(d).files + after.partial.files[|partial.files| + 1..]
    ensures Extends(partial.files, after.partial.files)
    ensures after.known.files == known.files + after.partial.files[|partial.files|..]
  {
    var p' := after.partial.files;
    ExtendsTrans(partial.files, partial.Add(d).files, p');
    assert p'[|partial.files|..] == [d] + p'[|partial.files| + 1..];
  }

  /** The files a partial pass adds come from `todo`. */
  lemma {:induction false} PartialPassAddsFromTodo(todo: seq<FileProto>, partial: FileSet, known: FileSet,
                                                   found: bool, accepts: Builder)
    requires PartialPass(todo, partial, known, found, accepts).Ok?
    ensures multiset(ProtosOf(PartialPass(todo, partial, known, found, accepts).value.partial.files[|partial.files|..]))
      <= multiset(todo)
    decreases |todo|
  {
    if |todo| > 0 {
      match PartialStep(todo[0], known, accepts).value
      case Some(d) =>
        PartialPassAddsFromTodo(todo[1..], partial.Add(d), known.Add(d), true, accepts);
        AddsFromTodoAdded(todo, partial, known, found, accepts, d);
      case None =>
        PartialPassAddsFromTodo(todo[1..], partial, known, found, accepts);
        AddsFromTodoSkipped(todo, partial, known, found, accepts);
    }
  }

  lemma AddsFromTodoAdded(todo: seq<FileProto>, partial: FileSet, known: FileSet, found: bool, accepts: Builder,
                          d: FileDescriptor)
    requires |todo| > 0 && PartialStep(todo[0], known, accepts) == Ok(Some(d))
    requires PartialPass(todo, partial, known, found, accepts).Ok?
    requires multiset(ProtosOf(PartialPass(todo[1..], partial.Add(d), known.Add(d), true, accepts).value.partial.files[|partial.files| + 1..]))
      <= multiset(todo[1..])
    ensures multiset(ProtosOf(PartialPass(todo, partial, known, found, accepts).value.partial.files[|partial.files|..]))
      <= multiset(todo)
  {
    var r := PartialPass(todo, partial, known, found, accepts).value;
    var r' := PartialPass(todo[1..], partial.Add(d), known.Add(d), true, accepts).value;
    assert r == r';
    ExtendsAdd(partial, d, r'.partial.files);
    ConsAddsFromTodo(todo, d, r'.partial.files[|partial.files| + 1..]);
  }

  /** What a pass adds after adding `d` first. */
  lemma ExtendsAdd(partial: FileSet, d: FileDescriptor, files: seq<FileDescriptor>)
    requires Extends(partial.Add(d).files, files)
    ensures files[|partial.files|..] == [d] + files[|partial.files| + 1..]
  {
    assert files[|partial.files|] == partial.Add(d).files[|partial.files|];
  }

  lemma AddsFromTodoSkipped(todo: seq<FileProto>, partial: FileSet, known: FileSet, found: bool, accepts: Builder)
    requires |todo| > 0 && PartialStep(todo[0], known, accepts) == Ok(None)
    requires PartialPass(todo, partial, known, found, accepts).Ok?
    requires multiset(ProtosOf(PartialPass(todo[1..], partial, known, found, accepts).value.partial.files[|partial.files|..]))
      <= multiset(todo[1..])
    ensures multiset(ProtosOf(PartialPass(todo, partial, known, found, accepts).value.partial.files[|partial.files|..]))
      <= multiset(todo)
  {
    TailMultiset(todo);
  }

  lemma TailMultiset<T>(s: seq<T>)
    requires |s| > 0
    ensures multiset(s[1..]) <= multiset(s)
  {
    assert s == [s[0]] + s[1..];
  }

  lemma ConsAddsFromTodo(todo: seq<FileProto>, d: FileDescriptor, rest: seq<FileDescriptor>)
    requires |todo| > 0 && d.proto == todo[0]
    requires multiset(ProtosOf(rest)) <= multiset(todo[1..])
    ensures multiset(ProtosOf([d] + rest)) <= multiset(todo)
  {
    ProtosOfAppend([d], rest);
    assert ProtosOf([d]) == [todo[0]];
    assert todo == [todo[0]] + todo[1..];
  }

  /** The files a partial pass adds are linked to nothing and have no import among the
      files known before the pass. */
  lemma {:induction false} PartialPassAddsIsolated(todo: seq<FileProto>, partial: FileSet, known: FileSet,
                                                   found: bool, accepts: Builder)
    requires PartialPass(todo, partial, known, found, accepts).Ok?
    ensures var r := PartialPass(todo, partial, known, found, accepts).value;
      forall d :: d in r.partial.files[|partial.files|..] ==> LinkedToNothing(d) && !SomeDependencyIn(d.proto, known.Names())
    decreases |todo|
  {
    if |todo| > 0 {
      var r := PartialPass(todo, partial, known, found, accepts).value;
      match PartialStep(todo[0], known, accepts).value
      case Some(d) =>
        var r' := PartialPass(todo[1..], partial.Add(d), known.Add(d), true, accepts).value;
        assert r == r';
        PartialPassAddsIsolated(todo[1..], partial.Add(d), known.Add(d), true, accepts);
        var rest := r'.partial.files[|partial.files| + 1..];
        assert r.partial.files[|partial.files|..] == [d] + rest;
        ConsIsolated(known, d, rest);
      case None =>
        var r' := PartialPass(todo[1..], partial, known, found, accepts).value;
        assert r == r';
        PartialPassAddsIsolated(todo[1..], partial, known, found, accepts);
    }
  }

  lemma ConsIsolated(known: FileSet, d: FileDescriptor, rest: seq<FileDescriptor>)
    requires LinkedToNothing(d) && !SomeDependencyIn(d.proto, known.Names())
    requires forall e :: e in rest ==> LinkedToNothing(e) && !SomeDependencyIn(e.proto, known.Add(d).Names())
    ensures forall e :: e in [d] + rest ==> LinkedToNothing(e) && !SomeDependencyIn(e.proto, known.Names())
  {
    AddNames(known, d);
    forall e | e in rest ensures !SomeDependencyIn(e.proto, known.Names()) {
      assert !SomeDependencyIn(e.proto, known.Add(d).Names());
    }
  }

  /** A file a partial pass does not add has an import among the files known after it. */
  lemma {:induction false} PartialPassDropped(todo: seq<FileProto>, partial: FileSet, known: FileSet,
                                              found: bool, accepts: Builder)
    requires PartialPass(todo, partial, known, found, accepts).Ok?
    ensures var r := PartialPass(todo, partial, known, found, accepts).value;
      forall f :: f in todo ==> f in ProtosOf(r.partial.files[|partial.files|..]) || SomeDependencyIn(f, r.known.Names())
    decreases |todo|
  {
    if |todo| > 0 {
      var r := PartialPass(todo, partial, known, found, accepts).value;
      var added := r.partial.files[|partial.files|..];
      match PartialStep(todo[0], known, accepts).value
      case Some(d) =>
        var r' := PartialPass(todo[1..], partial.Add(d), known.Add(d), true, accepts).value;
        assert r == r';
        PartialPassDropped(todo[1..], partial.Add(d), known.Add(d), true, accepts);
        var rest := r'.partial.files[|partial.files| + 1..];
        assert added == [d] + rest;
        DroppedAdded(todo, d, rest, r.known.Names());
      case None =>
        var r' := PartialPass(todo[1..], partial, known, found, accepts).value;
        assert r == r';
        PartialPassDropped(todo[1..], partial, known, found, accepts);
        DroppedKept(todo, added, known, r.known);
    }
  }

  /** The first file of `todo`, added, is among the added files. */
  lemma DroppedAdded(todo: seq<FileProto>, d: FileDescriptor, rest: seq<FileDescriptor>, names: set<string>)
    requires |todo| > 0 && d.proto == todo[0]
    requires forall f :: f in todo[1..] ==> f in ProtosOf(rest) || SomeDependencyIn(f, names)
    ensures forall f :: f in todo ==> f in ProtosOf([d] + rest) || SomeDependencyIn(f, names)
  {
    assert todo == [todo[0]] + todo[1..];
    ProtosOfAppend([d], rest);
    assert ProtosOf([d] + rest)[0] == todo[0];
  }

  /** The first file of `todo`, not added, has an import among the names known after. */
  lemma DroppedKept(todo: seq<FileProto>, added: seq<FileDescriptor>, known: FileSet, after: FileSet)
    requires |todo| > 0 && SomeDependencyIn(todo[0], known.Names())
    requires after.files == known.files + added
    requires forall f :: f in todo[1..] ==> f in ProtosOf(added) || SomeDependencyIn(f, after.Names())
    ensures forall f :: f in todo ==> f in ProtosOf(added) || SomeDependencyIn(f, after.Names())
  {
    assert todo == [todo[0]] + todo[1..];
    NamesOfAppend(known.files, added);
    var n :| n in todo[0].dependencies && n in known.Names();
    assert n in after.Names();
  }

  /** A partial pass succeeds only if every import name is well formed, and does when in
      addition the builder accepts every file. */
  lemma {:induction false} PartialPassFails(todo: seq<FileProto>, partial: FileSet, known: FileSet,
                                            found: bool, accepts: Builder)
    ensures PartialPass(todo, partial, known, found, accepts).Ok? ==> AllWellNamed(todo)
    ensures AllWellNamed(todo) && AcceptsAll(accepts, todo) ==> PartialPass(todo, partial, known, found, accepts).Ok?
    decreases |todo|
  {
    if |todo| > 0 {
      assert todo == [todo[0]] + todo[1..];
      var step := PartialStep(todo[0], known, accepts);
      if step.Ok? {
        match step.value
        case Some(d) =>
          PartialPassFails(todo[1..], partial.Add(d), known.Add(d), true, accepts);
        case None =>
          PartialPassFails(todo[1..], partial, known, found, accepts);
      }
    }
  }

  /** `findPartiallyResolved`: passes until `remaining` is empty or a pass adds nothing. */
  function FindPartiallyResolved(remaining: seq<FileProto>, resolved: FileSet, partial: FileSet, accepts: Builder)
    : (r: Result<Sorted, LinkError>)
    ensures r.Ok? ==> r.value.remaining == [] && Extends(partial.files, r.value.files.files)
    ensures r.Err? ==> r.error.IllegalArgumentError? || r.error.DescriptorValidationError?
    decreases |remaining|
  {
    if |remaining| == 0 then Ok(Sorted(remaining, partial))
    else
      var pass :- PartialPass(remaining, partial, resolved.Union(partial), false, accepts);
      var remaining': seq<FileProto> := [];  // the pass removed every file
      if !pass.found then Ok(Sorted(remaining', pass.partial))
      else FindPartiallyResolved(remaining', resolved, pass.partial, accepts)
  }

  /** `doFindPartiallyResolved` empties `remaining`, so `findPartiallyResolved` runs a
      single pass, seeded with the resolved and partially resolved files. */
  lemma FindPartiallyResolvedRunsOnePass(remaining: seq<FileProto>, resolved: FileSet, partial: FileSet, accepts: Builder)
    requires |remaining| > 0
    ensures var r := FindPartiallyResolved(remaining, resolved, partial, accepts);
      var pass := PartialPass(remaining, partial, resolved.Union(partial), false, accepts);
      && (r.Ok? <==> pass.Ok?)
      && (r.Ok? ==> r.value == Sorted([], pass.value.partial))
  {
  }

  /** The names known after the partial pass of `findPartiallyResolved`: the resolved and
      partially resolved ones. */
  lemma PartialPassKnown(resolved: FileSet, partial: FileSet, pass: PartialPassResult)
    requires Extends(partial.files, pass.partial.files)
    requires pass.known.files == resolved.Union(partial).files + pass.partial.files[|partial.files|..]
    ensures pass.known.Names() == resolved.Names() + pass.partial.Names()
  {
    ExtendsSplit(partial.files, pass.partial.files);
    NamesOfAppend(resolved.Union(partial).files, pass.partial.files[|partial.files|..]);
    UnionNames(resolved, partial);
  }

  // ---------------------------------------------------------------------------
  // Phase D: `addUnresolved`

  /** `addUnresolved`: every file still remaining is built with no dependencies and added
      to `unresolved`, first to last. */
  function AddUnresolved(remaining: seq<FileProto>, unresolved: FileSet, accepts: Builder)
    : (r: Result<Sorted, LinkError>)
    ensures r.Ok? ==> r.value.remaining == []
    ensures r.Ok? ==> r.value.files.files == unresolved.files + Unlinked(remaining)
    ensures r.Err? <==> exists f :: f in remaining && !accepts(f, [])
    ensures r.Err? ==> r.error.DescriptorValidationError?
    decreases |remaining|
  {
    if |remaining| == 0 then Ok(Sorted(remaining, unresolved))
    else
      var first := remaining[0];
      assert remaining == [first] + remaining[1..];
      var fd :- BuildFrom(first, FileSet([]), accepts);
      assert Unlinked(remaining) == [fd] + Unlinked(remaining[1..]);
      AddUnresolved(remaining[1..], unresolved.Add(fd), accepts)
  }

  // ---------------------------------------------------------------------------
  // The linker

  datatype Linker = Linker(
    input: seq<FileProto>,
    remaining: seq<FileProto>,
    resolved: FileSet,
    partiallyResolved: FileSet,
    unresolved: FileSet)

  /** The constructor `Linker(input)`. */
  function NewLinker(input: seq<FileProto>): (l: Linker)
    ensures l.input == input && l.remaining == input
    ensures l.resolved.IsEmpty() && l.partiallyResolved.IsEmpty() && l.unresolved.IsEmpty()
  {
    Linker(input, input, FileSet([]), FileSet([]), FileSet([]))
  }

  function Bucketed(l: Linker): multiset<FileProto> {
    multiset(ProtosOf(l.resolved.files)) + multiset(ProtosOf(l.partiallyResolved.files))
      + multiset(ProtosOf(l.unresolved.files))
  }

  /** The invariant of every linker state: each output descriptor comes from its own input
      element, `resolved` is in dependency order and fully linked, and the other two sets
      were built without dependency descriptors. */
  ghost predicate Valid(l: Linker) {
    && Bucketed(l) + multiset(l.remaining) <= multiset(l.input)
    && WellResolved(l.resolved.files)
    && (forall d :: d in l.partiallyResolved.files ==> LinkedToNothing(d))
    && (forall d :: d in l.unresolved.files ==> LinkedToNothing(d))
  }

  lemma NewLinkerIsValid(input: seq<FileProto>)
    ensures Valid(NewLinker(input))
  {
  }

  /** The message of the `IllegalStateException` a second `resolve()` raises: the state
      check carries none. */
  const CalledTwiceMessage: string := ""

  /** `resolve()`: the four phases in order. A malformed import name or a build failure
      aborts the run. */
  function Resolve(l: Linker, accepts: Builder): (r: Result<Linker, LinkError>)
    ensures |l.input| != |l.remaining| ==> r == Err(IllegalStateError(CalledTwiceMessage))
    ensures r.Ok? ==> r.value.input == l.input && r.value.remaining == [] && r.value.unresolved == l.unresolved
    ensures r.Ok? ==> Extends(l.resolved.files, r.value.resolved.files)
    ensures r.Ok? ==> Extends(l.partiallyResolved.files, r.value.partiallyResolved.files)
    ensures r.Err? ==> r.error.IllegalStateError? || r.error.IllegalArgumentError? || r.error.DescriptorValidationError?
  {
    if |l.input| != |l.remaining| then Err(IllegalStateError(CalledTwiceMessage))
    else
      var a :- NoDependenciesPass(l.remaining, [], l.resolved, accepts);
      var b :- FindResolved(a.remaining, a.files, accepts);
      var c :- FindPartiallyResolved(b.remaining, b.files, l.partiallyResolved, accepts);
      assert Extends(l.resolved.files, b.files.files) by {
        ExtendsTrans(l.resolved.files, a.files.files, b.files.files);
      }
      match AddUnresolved(c.remaining, l.unresolved, accepts)
      case Ok(d) => Ok(Linker(l.input, d.remaining, b.files, c.files, d.files))
      case Err(e) => Err(e)
  }

  /** The intermediate results of a successful `resolve()`. */
  ghost predicate ResolveSteps(l: Linker, accepts: Builder, a: Sorted, b: Sorted, c: Sorted, l': Linker) {
    && |l.input| == |l.remaining|
    && NoDependenciesPass(l.remaining, [], l.resolved, accepts) == Ok(a)
    && FindResolved(a.remaining, a.files, accepts) == Ok(b)
    && FindPartiallyResolved(b.remaining, b.files, l.partiallyResolved, accepts) == Ok(c)
    && c.remaining == []
    && l' == Linker(l.input, [], b.files, c.files, l.unresolved)
  }

  lemma ResolveHasSteps(l: Linker, accepts: Builder)
    requires Resolve(l, accepts).Ok?
    ensures exists a, b, c :: ResolveSteps(l, accepts, a, b, c, Resolve(l, accepts).value)
  {
    var a := NoDependenciesPass(l.remaining, [], l.resolved, accepts).value;
    var b := FindResolved(a.remaining, a.files, accepts).value;
    var c := FindPartiallyResolved(b.remaining, b.files, l.partiallyResolved, accepts).value;
    assert ResolveSteps(l, accepts, a, b, c, Resolve(l, accepts).value);
  }

  /** Appending descriptors of import-free files keeps `resolved` well resolved. */
  lemma WellResolvedAppendUnlinked(files: seq<FileDescriptor>, protos: seq<FileProto>)
    requires WellResolved(files)
    requires forall f :: f in protos ==> HasNoDependencies(f)
    ensures WellResolved(files + Unlinked(protos))
  {
    var s := files + Unlinked(protos);
    forall i | 0 <= i < |s|
      ensures DependenciesIn(s[i].proto, NamesOf(s[..i])) && FullyLinked(s[i])
    {
      if i < |files| {
        assert s[..i] == files[..i];
        assert s[i] == files[i];
      } else {
        assert s[i] == FileDescriptor(protos[i - |files|], []);
        assert protos[i - |files|] in protos;
      }
    }
  }

  /** Phase A moves the import-free files to the end of `resolved`, in order. */
  lemma NoDependenciesPassMoves(l: Linker, accepts: Builder, a: Sorted)
    requires NoDependenciesPass(l.remaining, [], l.resolved, accepts) == Ok(a)
    ensures multiset(ProtosOf(a.files.files)) + multiset(a.remaining)
      == multiset(ProtosOf(l.resolved.files)) + multiset(l.remaining)
    ensures WellResolved(l.resolved.files) ==> WellResolved(a.files.files)
    ensures Extends(l.resolved.files, a.files.files)
    ensures forall f :: f in l.remaining && HasNoDependencies(f) ==> f in ProtosOf(a.files.files)
    ensures forall f :: f in a.remaining ==> f in l.remaining && HasDependencies(f)
    ensures forall f :: f in l.remaining && HasDependencies(f) ==> f in a.remaining
  {
    var moved := Filter(l.remaining, HasNoDependencies);
    FilterSplit(l.remaining, HasDependencies, HasNoDependencies);
    ProtosOfAppend(l.resolved.files, Unlinked(moved));
    assert a.files.files[..|l.resolved.files|] == l.resolved.files;
    if WellResolved(l.resolved.files) {
      forall f | f in moved ensures HasNoDependencies(f) {
        FilterMembers(l.remaining, HasNoDependencies, f);
      }
      WellResolvedAppendUnlinked(l.resolved.files, moved);
    }
    forall f | f in l.remaining && HasNoDependencies(f) ensures f in ProtosOf(a.files.files) {
      FilterMembers(l.remaining, HasNoDependencies, f);
    }
    forall f | f in a.remaining || (f in l.remaining && HasDependencies(f))
      ensures f in a.remaining <==> f in l.remaining && HasDependencies(f)
    {
      FilterMembers(l.remaining, HasDependencies, f);
    }
  }

  /** Each descriptor `resolve()` adds comes from its own element of `remaining`. */
  lemma ResolveKeepsInputs(l: Linker, accepts: Builder)
    requires Resolve(l, accepts).Ok?
    ensures Bucketed(Resolve(l, accepts).value) <= Bucketed(l) + multiset(l.remaining)
  {
    var l' := Resolve(l, accepts).value;
    ResolveHasSteps(l, accepts);
    var a, b, c :| ResolveSteps(l, accepts, a, b, c, l');
    NoDependenciesPassMoves(l, accepts, a);
    FindResolvedConserves(a.remaining, a.files, accepts);
    var p0 := l.partiallyResolved.files;
    ExtendsSplit(p0, c.files.files);
    var added := c.files.files[|p0|..];
    if |b.remaining| > 0 {
      FindPartiallyResolvedRunsOnePass(b.remaining, b.files, l.partiallyResolved, accepts);
      PartialPassAddsFromTodo(b.remaining, l.partiallyResolved, b.files.Union(l.partiallyResolved), false, accepts);
    } else {
      assert added == [];
    }
    assert multiset(ProtosOf(c.files.files)) == multiset(ProtosOf(p0)) + multiset(ProtosOf(added));
    MovedAndAdded(multiset(ProtosOf(l.resolved.files)), multiset(ProtosOf(b.files.files)),
                  multiset(l.remaining), multiset(b.remaining), multiset(ProtosOf(p0)),
                  multiset(ProtosOf(added)), multiset(ProtosOf(l.unresolved.files)));
  }

  /** The multiset bookkeeping of `resolve()`: files moved from `remaining` to `resolved`
      and files added to the partial set from what was left. */
  lemma MovedAndAdded(r0: multiset<FileProto>, r2: multiset<FileProto>, rem: multiset<FileProto>,
                      rem2: multiset<FileProto>, p0: multiset<FileProto>, added: multiset<FileProto>,
                      u: multiset<FileProto>)
    requires r2 + rem2 == r0 + rem
    requires added <= rem2
    ensures r2 + (p0 + added) + u <= r0 + p0 + u + rem
  {
    forall x ensures (r2 + (p0 + added) + u)[x] <= (r0 + p0 + u + rem)[x] {
      assert (r2 + rem2)[x] == (r0 + rem)[x];
    }
  }

  /** `resolve()` keeps `resolved` in dependency order and fully linked. */
  lemma ResolveKeepsOrder(l: Linker, accepts: Builder)
    requires WellResolved(l.resolved.files)
    requires Resolve(l, accepts).Ok?
    ensures WellResolved(Resolve(l, accepts).value.resolved.files)
  {
    var l' := Resolve(l, accepts).value;
    ResolveHasSteps(l, accepts);
    var a, b, c :| ResolveSteps(l, accepts, a, b, c, l');
    NoDependenciesPassMoves(l, accepts, a);
    FindResolvedKeepsOrder(a.remaining, a.files, accepts);
  }

  /** `resolve()` builds partially resolved files without dependency descriptors. */
  lemma ResolvePartialsUnlinked(l: Linker, accepts: Builder)
    requires Resolve(l, accepts).Ok?
    ensures var l' := Resolve(l, accepts).value;
      forall d :: d in l'.partiallyResolved.files[|l.partiallyResolved.files|..] ==> LinkedToNothing(d)
  {
    var l' := Resolve(l, accepts).value;
    ResolveHasSteps(l, accepts);
    var a, b, c :| ResolveSteps(l, accepts, a, b, c, l');
    if |b.remaining| > 0 {
      FindPartiallyResolvedRunsOnePass(b.remaining, b.files, l.partiallyResolved, accepts);
      PartialPassAddsIsolated(b.remaining, l.partiallyResolved, b.files.Union(l.partiallyResolved), false, accepts);
    }
  }

  /** `resolve()` keeps the linker invariant. */
  lemma ResolvePreservesValid(l: Linker, accepts: Builder)
    requires Valid(l)
    requires Resolve(l, accepts).Ok?
    ensures Valid(Resolve(l, accepts).value)
  {
    var l' := Resolve(l, accepts).value;
    ResolveKeepsInputs(l, accepts);
    ResolveKeepsOrder(l, accepts);
    ResolvePartialsUnlinked(l, accepts);
    var p0 := l.partiallyResolved.files;
    ExtendsSplit(p0, l'.partiallyResolved.files);
    forall d | d in l'.partiallyResolved.files ensures LinkedToNothing(d) {
      if d !in p0 {
        assert d in l'.partiallyResolved.files[|p0|..];
      }
    }
  }

  /** After `resolve()`, every file without imports is resolved. */
  lemma ResolveResolvesImportFree(l: Linker, accepts: Builder)
    requires Resolve(l, accepts).Ok?
    ensures forall f :: f in l.remaining && HasNoDependencies(f) ==> f in ProtosOf(Resolve(l, accepts).value.resolved.files)
  {
    var l' := Resolve(l, accepts).value;
    ResolveHasSteps(l, accepts);
    var a, b, c :| ResolveSteps(l, accepts, a, b, c, l');
    NoDependenciesPassMoves(l, accepts, a);
    ExtendsSplit(a.files.files, b.files.files);
  }

  /** After `resolve()`, every input file is resolved, partially resolved, or has an import
      among the resolved and partially resolved files. */
  lemma ResolveCovers(l: Linker, accepts: Builder)
    requires Resolve(l, accepts).Ok?
    ensures var l' := Resolve(l, accepts).value;
      forall f :: f in l.remaining ==>
        || f in ProtosOf(l'.resolved.files)
        || f in ProtosOf(l'.partiallyResolved.files)
        || SomeDependencyIn(f, l'.resolved.Names() + l'.partiallyResolved.Names())
  {
    var l' := Resolve(l, accepts).value;
    ResolveHasSteps(l, accepts);
    var a, b, c :| ResolveSteps(l, accepts, a, b, c, l');
    NoDependenciesPassMoves(l, accepts, a);
    FindResolvedConserves(a.remaining, a.files, accepts);
    ExtendsSplit(a.files.files, b.files.files);
    var p0 := l.partiallyResolved.files;
    ExtendsSplit(p0, c.files.files);
    var names := l'.resolved.Names() + l'.partiallyResolved.Names();
    if |b.remaining| > 0 {
      FindPartiallyResolvedRunsOnePass(b.remaining, b.files, l.partiallyResolved, accepts);
      var known := b.files.Union(l.partiallyResolved);
      var pass := PartialPass(b.remaining, l.partiallyResolved, known, false, accepts).value;
      PartialPassDropped(b.remaining, l.partiallyResolved, known, false, accepts);
      PartialPassKnown(b.files, l.partiallyResolved, pass);
    }
    forall f | f in l.remaining
      ensures || f in ProtosOf(l'.resolved.files) || f in ProtosOf(l'.partiallyResolved.files)
              || SomeDependencyIn(f, names)
    {
      if f !in ProtosOf(a.files.files) {
        assert f in a.remaining by {
          assert f in multiset(ProtosOf(a.files.files)) + multiset(a.remaining);
        }
        if f !in ProtosOf(b.files.files) {
          assert f in b.remaining by {
            assert f in multiset(ProtosOf(b.files.files)) + multiset(b.remaining);
          }
        }
      }
    }
  }

  /** Partially resolved files have no import among the resolved ones. */
  lemma ResolvePartialsAreIsolated(l: Linker, accepts: Builder)
    requires Resolve(l, accepts).Ok?
    ensures var l' := Resolve(l, accepts).value;
      forall d :: d in l'.partiallyResolved.files[|l.partiallyResolved.files|..] ==>
        !SomeDependencyIn(d.proto, l'.resolved.Names())
  {
    var l' := Resolve(l, accepts).value;
    ResolveHasSteps(l, accepts);
    var a, b, c :| ResolveSteps(l, accepts, a, b, c, l');
    if |b.remaining| > 0 {
      FindPartiallyResolvedRunsOnePass(b.remaining, b.files, l.partiallyResolved, accepts);
      var known := b.files.Union(l.partiallyResolved);
      PartialPassAddsIsolated(b.remaining, l.partiallyResolved, known, false, accepts);
      UnionNames(b.files, l.partiallyResolved);
      forall d | d in l'.partiallyResolved.files[|l.partiallyResolved.files|..]
        ensures !SomeDependencyIn(d.proto, l'.resolved.Names())
      {
        assert !SomeDependencyIn(d.proto, known.Names());
      }
    }
  }

  /** `resolve()` succeeds only if every import name is well formed. */
  lemma ResolveNeedsWellNamed(l: Linker, accepts: Builder)
    requires Resolve(l, accepts).Ok?
    ensures AllWellNamed(l.remaining)
  {
    var l' := Resolve(l, accepts).value;
    ResolveHasSteps(l, accepts);
    var a, b, c :| ResolveSteps(l, accepts, a, b, c, l');
    NoDependenciesPassMoves(l, accepts, a);
    FindResolvedFails(a.remaining, a.files, accepts);
    forall f | f in l.remaining ensures WellNamed(f) {
      if HasDependencies(f) {
        assert f in a.remaining;
      }
    }
  }

  /** `resolve()` on a fresh linker succeeds when every import name is well formed and
      the builder accepts every file. */
  lemma ResolveSucceeds(l: Linker, accepts: Builder)
    requires |l.input| == |l.remaining|
    requires AllWellNamed(l.remaining) && AcceptsAll(accepts, l.remaining)
    ensures Resolve(l, accepts).Ok?
  {
    var ra := NoDependenciesPass(l.remaining, [], l.resolved, accepts);
    assert ra.Ok?;
    var a := ra.value;
    NoDependenciesPassMoves(l, accepts, a);
    FindResolvedFails(a.remaining, a.files, accepts);
    var b := FindResolved(a.remaining, a.files, accepts).value;
    FindResolvedKeepsInput(a.remaining, a.files, accepts);
    forall f | f in b.remaining ensures f in l.remaining {
      assert f in multiset(b.remaining);
    }
    if |b.remaining| > 0 {
      FindPartiallyResolvedRunsOnePass(b.remaining, b.files, l.partiallyResolved, accepts);
      PartialPassFails(b.remaining, l.partiallyResolved, b.files.Union(l.partiallyResolved), false, accepts);
    }
  }

  /** A second `resolve()` on a linker with input fails with the state error. */
  lemma ResolveRunsOnce(l: Linker, accepts: Builder)
    requires |l.input| > 0
    requires Resolve(l, accepts).Ok?
    ensures Resolve(Resolve(l, accepts).value, accepts) == Err(IllegalStateError(CalledTwiceMessage))
  {
  }

  const LinkFailureMessage: string := "Unable to link descriptor set files"

  /** `link(files)`: resolves the files and returns resolved, partially resolved and
      unresolved files together; a build failure becomes an `IllegalStateException`. */
  function Link(files: seq<FileProto>, accepts: Builder): (r: Result<FileSet, LinkError>)
    ensures r.Err? ==> r.error == IllegalStateError(LinkFailureMessage) || r.error.IllegalArgumentError?
    ensures r.Ok? <==> Resolve(NewLinker(files), accepts).Ok?
  {
    var linker := NewLinker(files);
    match Resolve(linker, accepts)
    case Err(DescriptorValidationError(_)) => Err(IllegalStateError(LinkFailureMessage))
    case Err(e) => Err(e)
    case Ok(l) => Ok(l.resolved.Union(l.partiallyResolved).Union(l.unresolved))
  }

  /** What `link(files)` returns: each input file at most once per occurrence, every
      import-free file, and only when every import name is well formed. */
  lemma LinkOutput(files: seq<FileProto>, accepts: Builder)
    requires Link(files, accepts).Ok?
    ensures multiset(ProtosOf(Link(files, accepts).value.files)) <= multiset(files)
    ensures forall f :: f in files && HasNoDependencies(f) ==> f in ProtosOf(Link(files, accepts).value.files)
    ensures AllWellNamed(files)
  {
    var linker := NewLinker(files);
    var l := Resolve(linker, accepts).value;
    NewLinkerIsValid(files);
    ResolvePreservesValid(linker, accepts);
    ResolveResolvesImportFree(linker, accepts);
    ResolveNeedsWellNamed(linker, accepts);
    assert ProtosOf(Link(files, accepts).value.files) == ProtosOf(l.resolved.files) + ProtosOf(l.partiallyResolved.files) + ProtosOf(l.unresolved.files);
  }

  /** `link(files)` succeeds when every import name is well formed and the builder accepts
      every file. */
  lemma LinkSucceeds(files: seq<FileProto>, accepts: Builder)
    requires AllWellNamed(files) && AcceptsAll(accepts, files)
    ensures Link(files, accepts).Ok?
  {
    ResolveSucceeds(NewLinker(files), accepts);
  }

  // ---------------------------------------------------------------------------
  // Phase C with the removal inside the `if`
  //
  // `doFindPartiallyResolved` removes every file it visits from `remaining`, built or not,
  // so a file with a known import is in none of the three output sets. The functions
  // below remove only the files they build; the others stay for the next pass and, at
  // the end, for `addUnresolved`.

  /** One run of `doFindPartiallyResolved` that keeps the files it does not build. */
  function KeepingPartialPass(todo: seq<FileProto>, kept: seq<FileProto>, partial: FileSet, known: FileSet,
                              found: bool, accepts: Builder)
    : (r: Result<Pass, LinkError>)
    ensures r.Ok? ==> Extends(partial.files, r.value.files.files)
    ensures r.Ok? ==> (r.value.found <==> found || |r.value.files.files| > |partial.files|)
    ensures r.Err? ==> r.error.IllegalArgumentError? || r.error.DescriptorValidationError?
    decreases |todo|
  {
    if |todo| == 0 then Ok(Pass(kept, partial, found))
    else
      var step :- PartialStep(todo[0], known, accepts);
      match step
      case Some(newPartial) =>
        var r := KeepingPartialPass(todo[1..], kept, partial.Add(newPartial), known.Add(newPartial), true, accepts);
        assert r.Ok? ==> Extends(partial.files, r.value.files.files) by {
          if r.Ok? {
            ExtendsTrans(partial.files, partial.Add(newPartial).files, r.value.files.files);
          }
        }
        r
      case None =>
        KeepingPartialPass(todo[1..], kept + [todo[0]], partial, known, found, accepts)
  }

  /** The pass moves files from `todo` to `partial` or `kept`, losing and inventing none. */
  lemma {:induction false} KeepingPartialPassConserves(todo: seq<FileProto>, kept: seq<FileProto>, partial: FileSet,
                                                       known: FileSet, found: bool, accepts: Builder)
    requires KeepingPartialPass(todo, kept, partial, known, found, accepts).Ok?
    ensures var p := KeepingPartialPass(todo, kept, partial, known, found, accepts).value;
      multiset(ProtosOf(p.files.files)) + multiset(p.kept)
        == multiset(ProtosOf(partial.files)) + multiset(kept) + multiset(todo)
    decreases |todo|
  {
    if |todo| > 0 {
      var p := KeepingPartialPass(todo, kept, partial, known, found, accepts).value;
      match PartialStep(todo[0], known, accepts).value
      case Some(d) =>
        var p' := KeepingPartialPass(todo[1..], kept, partial.Add(d), known.Add(d), true, accepts).value;
        assert p == p';
        KeepingPartialPassConserves(todo[1..], kept, partial.Add(d), known.Add(d), true, accepts);
        ConservesResolved(todo, kept, partial, d, p'.files.files, p'.kept);
      case None =>
        var p' := KeepingPartialPass(todo[1..], kept + [todo[0]], partial, known, found, accepts).value;
        assert p == p';
        KeepingPartialPassConserves(todo[1..], kept + [todo[0]], partial, known, found, accepts);
        ConservesKept(todo, kept, partial, p'.files.files, p'.kept);
    }
  }

  /** The pass keeps only files it was given. */
  lemma {:induction false} KeepingPartialPassKeepsInput(todo: seq<FileProto>, kept: seq<FileProto>, partial: FileSet,
                                                        known: FileSet, found: bool, accepts: Builder)
    requires KeepingPartialPass(todo, kept, partial, known, found, accepts).Ok?
    ensures multiset(KeepingPartialPass(todo, kept, partial, known, found, accepts).value.kept)
      <= multiset(kept) + multiset(todo)
    decreases |todo|
  {
    if |todo| > 0 {
      assert todo == [todo[0]] + todo[1..];
      match PartialStep(todo[0], known, accepts).value
      case Some(d) =>
        KeepingPartialPassKeepsInput(todo[1..], kept, partial.Add(d), known.Add(d), true, accepts);
      case None =>
        KeepingPartialPassKeepsInput(todo[1..], kept + [todo[0]], partial, known, found, accepts);
    }
  }

  /** The pass succeeds only if every import name is well formed, and does when in
      addition the builder accepts every file. */
  lemma {:induction false} KeepingPartialPassFails(todo: seq<FileProto>, kept: seq<FileProto>, partial: FileSet,
                                                   known: FileSet, found: bool, accepts: Builder)
    ensures KeepingPartialPass(todo, kept, partial, known, found, accepts).Ok? ==> AllWellNamed(todo)
    ensures AllWellNamed(todo) && AcceptsAll(accepts, todo) ==> KeepingPartialPass(todo, kept, partial, known, found, accepts).Ok?
    decreases |todo|
  {
    if |todo| > 0 {
      assert todo == [todo[0]] + todo[1..];
      var step := PartialStep(todo[0], known, accepts);
      if step.Ok? {
        match step.value
        case Some(d) =>
          KeepingPartialPassFails(todo[1..], kept, partial.Add(d), known.Add(d), true, accepts);
        case None =>
          KeepingPartialPassFails(todo[1..], kept + [todo[0]], partial, known, found, accepts);
      }
    }
  }

  /** A productive pass leaves fewer files in `remaining`. */
  lemma KeepingPartialPassShrinks(remaining: seq<FileProto>, resolved: FileSet, partial: FileSet, accepts: Builder)
    requires KeepingPartialPass(remaining, [], partial, resolved.Union(partial), false, accepts).Ok?
    requires KeepingPartialPass(remaining, [], partial, resolved.Union(partial), false, accepts).value.found
    ensures |KeepingPartialPass(remaining, [], partial, resolved.Union(partial), false, accepts).value.kept| < |remaining|
  {
    var pass := KeepingPartialPass(remaining, [], partial, resolved.Union(partial), false, accepts).value;
    KeepingPartialPassConserves(remaining, [], partial, resolved.Union(partial), false, accepts);
    assert |multiset(ProtosOf(pass.files.files)) + multiset(pass.kept)|
        == |multiset(ProtosOf(partial.files)) + multiset(remaining)|;
  }

  /** `findPartiallyResolved` over the keeping pass: passes until `remaining` is empty or a
      pass builds nothing; what is left goes to `addUnresolved`. */
  function KeepingFindPartiallyResolved(remaining: seq<FileProto>, resolved: FileSet, partial: FileSet, accepts: Builder)
    : (r: Result<Sorted, LinkError>)
    ensures r.Ok? ==> Extends(partial.files, r.value.files.files)
    ensures r.Err? ==> r.error.IllegalArgumentError? || r.error.DescriptorValidationError?
    decreases |remaining|
  {
    if |remaining| == 0 then Ok(Sorted(remaining, partial))
    else
      var pass :- KeepingPartialPass(remaining, [], partial, resolved.Union(partial), false, accepts);
      if !pass.found then Ok(Sorted(pass.kept, pass.files))
      else
        KeepingPartialPassShrinks(remaining, resolved, partial, accepts);
        var r := KeepingFindPartiallyResolved(pass.kept, resolved, pass.files, accepts);
        assert r.Ok? ==> Extends(partial.files, r.value.files.files) by {
          if r.Ok? {
            ExtendsTrans(partial.files, pass.files.files, r.value.files.files);
          }
        }
        r
  }

  /** The corrected phase C moves files from `remaining` to `partial`, losing and inventing
      none. */
  lemma {:induction false} KeepingFindConserves(remaining: seq<FileProto>, resolved: FileSet, partial: FileSet,
                                                accepts: Builder)
    requires KeepingFindPartiallyResolved(remaining, resolved, partial, accepts).Ok?
    ensures var s := KeepingFindPartiallyResolved(remaining, resolved, partial, accepts).value;
      multiset(ProtosOf(s.files.files)) + multiset(s.remaining)
        == multiset(ProtosOf(partial.files)) + multiset(remaining)
    decreases |remaining|
  {
    if |remaining| > 0 {
      var pass := KeepingPartialPass(remaining, [], partial, resolved.Union(partial), false, accepts).value;
      KeepingPartialPassConserves(remaining, [], partial, resolved.Union(partial), false, accepts);
      assert [] + remaining == remaining;
      if pass.found {
        KeepingPartialPassShrinks(remaining, resolved, partial, accepts);
        KeepingFindConserves(pass.kept, resolved, pass.files, accepts);
      }
    }
  }

  /** The corrected phase C leaves only files it was given. */
  lemma {:induction false} KeepingFindKeepsInput(remaining: seq<FileProto>, resolved: FileSet, partial: FileSet,
                                                 accepts: Builder)
    requires KeepingFindPartiallyResolved(remaining, resolved, partial, accepts).Ok?
    ensures multiset(KeepingFindPartiallyResolved(remaining, resolved, partial, accepts).value.remaining)
      <= multiset(remaining)
    decreases |remaining|
  {
    if |remaining| > 0 {
      var pass := KeepingPartialPass(remaining, [], partial, resolved.Union(partial), false, accepts).value;
      KeepingPartialPassKeepsInput(remaining, [], partial, resolved.Union(partial), false, accepts);
      assert [] + remaining == remaining;
      if pass.found {
        KeepingPartialPassShrinks(remaining, resolved, partial, accepts);
        KeepingFindKeepsInput(pass.kept, resolved, pass.files, accepts);
      }
    }
  }

  /** The corrected phase C succeeds only if every import name is well formed, and does
      when in addition the builder accepts every file. */
  lemma {:induction false} KeepingFindFails(remaining: seq<FileProto>, resolved: FileSet, partial: FileSet,
                                            accepts: Builder)
    ensures KeepingFindPartiallyResolved(remaining, resolved, partial, accepts).Ok? ==> AllWellNamed(remaining)
    ensures AllWellNamed(remaining) && AcceptsAll(accepts, remaining)
      ==> KeepingFindPartiallyResolved(remaining, resolved, partial, accepts).Ok?
    decreases |remaining|
  {
    if |remaining| > 0 {
      KeepingPartialPassFails(remaining, [], partial, resolved.Union(partial), false, accepts);
      var r := KeepingPartialPass(remaining, [], partial, resolved.Union(partial), false, accepts);
      if r.Ok? && r.value.found {
        KeepingPartialPassShrinks(remaining, resolved, partial, accepts);
        KeepingPartialPassKeepsInput(remaining, [], partial, resolved.Union(partial), false, accepts);
        assert [] + remaining == remaining;
        forall f | f in r.value.kept ensures f in remaining {
          assert f in multiset(r.value.kept);
        }
        KeepingFindFails(r.value.kept, resolved, r.value.files, accepts);
      }
    }
  }

  /** `resolve()` with the corrected phase C. */
  function KeepingResolve(l: Linker, accepts: Builder): (r: Result<Linker, LinkError>)
    ensures |l.input| != |l.remaining| ==> r == Err(IllegalStateError(CalledTwiceMessage))
    ensures r.Ok? ==> r.value.input == l.input && r.value.remaining == []
    ensures r.Ok? ==> Extends(l.resolved.files, r.value.resolved.files)
    ensures r.Ok? ==> Extends(l.partiallyResolved.files, r.value.partiallyResolved.files)
    ensures r.Err? ==> r.error.IllegalStateError? || r.error.IllegalArgumentError? || r.error.DescriptorValidationError?
  {
    if |l.input| != |l.remaining| then Err(IllegalStateError(CalledTwiceMessage))
    else
      var a :- NoDependenciesPass(l.remaining, [], l.resolved, accepts);
      var b :- FindResolved(a.remaining, a.files, accepts);
      var c :- KeepingFindPartiallyResolved(b.remaining, b.files, l.partiallyResolved, accepts);
      assert Extends(l.resolved.files, b.files.files) by {
        ExtendsTrans(l.resolved.files, a.files.files, b.files.files);
      }
      var d :- AddUnresolved(c.remaining, l.unresolved, accepts);
      Ok(Linker(l.input, d.remaining, b.files, c.files, d.files))
  }

  /** The intermediate results of a successful corrected `resolve()`. */
  ghost predicate KeepingResolveSteps(l: Linker, accepts: Builder, a: Sorted, b: Sorted, c: Sorted, l': Linker) {
    && |l.input| == |l.remaining|
    && NoDependenciesPass(l.remaining, [], l.resolved, accepts) == Ok(a)
    && FindResolved(a.remaining, a.files, accepts) == Ok(b)
    && KeepingFindPartiallyResolved(b.remaining, b.files, l.partiallyResolved, accepts) == Ok(c)
    && l' == Linker(l.input, [], b.files, c.files, FileSet(l.unresolved.files + Unlinked(c.remaining)))
  }

  lemma KeepingResolveHasSteps(l: Linker, accepts: Builder)
    requires KeepingResolve(l, accepts).Ok?
    ensures exists a, b, c :: KeepingResolveSteps(l, accepts, a, b, c, KeepingResolve(l, accepts).value)
  {
    var a := NoDependenciesPass(l.remaining, [], l.resolved, accepts).value;
    var b := FindResolved(a.remaining, a.files, accepts).value;
    var c := KeepingFindPartiallyResolved(b.remaining, b.files, l.partiallyResolved, accepts).value;
    assert KeepingResolveSteps(l, accepts, a, b, c, KeepingResolve(l, accepts).value);
  }

  /** The corrected `resolve()` puts every file of `remaining` into exactly one of the
      three sets: the sets gain exactly the files `remaining` held, for every order of
      them. */
  lemma KeepingResolvePartitions(l: Linker, accepts: Builder)
    requires KeepingResolve(l, accepts).Ok?
    ensures Bucketed(KeepingResolve(l, accepts).value) == Bucketed(l) + multiset(l.remaining)
  {
    var l' := KeepingResolve(l, accepts).value;
    KeepingResolveHasSteps(l, accepts);
    var a, b, c :| KeepingResolveSteps(l, accepts, a, b, c, l');
    NoDependenciesPassMoves(l, accepts, a);
    FindResolvedConserves(a.remaining, a.files, accepts);
    KeepingFindConserves(b.remaining, b.files, l.partiallyResolved, accepts);
    ProtosOfAppend(l.unresolved.files, Unlinked(c.remaining));
    PartitionArithmetic(multiset(ProtosOf(l.resolved.files)), multiset(ProtosOf(b.files.files)),
                        multiset(l.remaining), multiset(a.remaining), multiset(ProtosOf(a.files.files)),
                        multiset(b.remaining), multiset(ProtosOf(l.partiallyResolved.files)),
                        multiset(ProtosOf(c.files.files)), multiset(c.remaining),
                        multiset(ProtosOf(l.unresolved.files)));
  }

  /** The multiset bookkeeping of the corrected `resolve()`: each phase moves files from
      one bucket to the next. */
  lemma PartitionArithmetic(r0: multiset<FileProto>, r2: multiset<FileProto>, rem: multiset<FileProto>,
                            remA: multiset<FileProto>, rA: multiset<FileProto>, remB: multiset<FileProto>,
                            p0: multiset<FileProto>, p: multiset<FileProto>, remC: multiset<FileProto>,
                            u: multiset<FileProto>)
    requires rA + remA == r0 + rem
    requires r2 + remB == rA + remA
    requires p + remC == p0 + remB
    ensures r2 + p + (u + remC) == r0 + p0 + u + rem
  {
    forall x ensures (r2 + p + (u + remC))[x] == (r0 + p0 + u + rem)[x] {
      assert (rA + remA)[x] == (r0 + rem)[x];
      assert (r2 + remB)[x] == (rA + remA)[x];
      assert (p + remC)[x] == (p0 + remB)[x];
    }
  }

  /** The corrected `resolve()` on a fresh linker succeeds exactly when `resolve()` does:
      when every import name is well formed and the builder accepts every file. */
  lemma KeepingResolveSucceeds(l: Linker, accepts: Builder)
    requires |l.input| == |l.remaining|
    requires AllWellNamed(l.remaining) && AcceptsAll(accepts, l.remaining)
    ensures KeepingResolve(l, accepts).Ok?
  {
    var a := NoDependenciesPass(l.remaining, [], l.resolved, accepts).value;
    NoDependenciesPassMoves(l, accepts, a);
    FindResolvedFails(a.remaining, a.files, accepts);
    var b := FindResolved(a.remaining, a.files, accepts).value;
    FindResolvedKeepsInput(a.remaining, a.files, accepts);
    forall f | f in b.remaining ensures f in l.remaining {
      assert f in multiset(b.remaining);
    }
    KeepingFindFails(b.remaining, b.files, l.partiallyResolved, accepts);
    var c := KeepingFindPartiallyResolved(b.remaining, b.files, l.partiallyResolved, accepts).value;
    KeepingFindKeepsInput(b.remaining, b.files, l.partiallyResolved, accepts);
    forall f | f in c.remaining ensures f in l.remaining {
      assert f in multiset(c.remaining);
      assert f in multiset(b.remaining);
    }
  }

  /** `link(files)` with the corrected phase C. */
  function KeepingLink(files: seq<FileProto>, accepts: Builder): (r: Result<FileSet, LinkError>)
    ensures r.Err? ==> r.error == IllegalStateError(LinkFailureMessage) || r.error.IllegalArgumentError?
    ensures r.Ok? <==> KeepingResolve(NewLinker(files), accepts).Ok?
  {
    match KeepingResolve(NewLinker(files), accepts)
    case Err(DescriptorValidationError(_)) => Err(IllegalStateError(LinkFailureMessage))
    case Err(e) => Err(e)
    case Ok(l) => Ok(l.resolved.Union(l.partiallyResolved).Union(l.unresolved))
  }

  /** The corrected `link(files)` returns a descriptor for every input file, once per
      occurrence, whatever the order of `files`; it succeeds whenever every import name is
      well formed and the builder accepts every file. */
  lemma KeepingLinkKeepsEveryFile(files: seq<FileProto>, accepts: Builder)
    ensures KeepingLink(files, accepts).Ok? ==> multiset(ProtosOf(KeepingLink(files, accepts).value.files)) == multiset(files)
    ensures AllWellNamed(files) && AcceptsAll(accepts, files) ==> KeepingLink(files, accepts).Ok?
  {
    var linker := NewLinker(files);
    if AllWellNamed(files) && AcceptsAll(accepts, files) {
      KeepingResolveSucceeds(linker, accepts);
    }
    if KeepingResolve(linker, accepts).Ok? {
      var l := KeepingResolve(linker, accepts).value;
      KeepingResolvePartitions(linker, accepts);
      ProtosOfAppend(l.resolved.files, l.partiallyResolved.files);
      ProtosOfAppend(l.resolved.files + l.partiallyResolved.files, l.unresolved.files);
    }
  }

  /** Reordering the input of the corrected `link(files)` changes the order of its output
      but not which files it holds. */
  lemma KeepingLinkIgnoresOrder(files: seq<FileProto>, reordered: seq<FileProto>, accepts: Builder)
    requires multiset(files) == multiset(reordered)
    requires KeepingLink(files, accepts).Ok? && KeepingLink(reordered, accepts).Ok?
    ensures multiset(ProtosOf(KeepingLink(files, accepts).value.files))
      == multiset(ProtosOf(KeepingLink(reordered, accepts).value.files))
  {
    KeepingLinkKeepsEveryFile(files, accepts);
    KeepingLinkKeepsEveryFile(reordered, accepts);
  }
}
