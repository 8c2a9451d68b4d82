/** Concrete runs of the linker on small descriptor sets. */
module LinkerScenarios {
  import opened Wrappers
  import opened Protos
  import opened FileSets
  import opened Linker

  /** A file proto with the given name and imports and nothing else. */
  function Proto(name: string, deps: seq<string>): (f: FileProto)
    ensures f.name == name && f.dependencies == deps
  {
    FileProto(name, "", deps, [], FileOptions("", false, None), None)
  }

  /** A builder that accepts every proto. */
  function AcceptAll(): (b: Builder)
    ensures forall f, names :: b(f, names)
  {
    (f: FileProto, names: seq<string>) => true
  }

  /** What `link` returns once `resolve()` has produced `l`. */
  lemma LinkOf(files: seq<FileProto>, accepts: Builder, l: Linker)
    requires Resolve(NewLinker(files), accepts) == Ok(l)
    ensures Link(files, accepts) == Ok(l.resolved.Union(l.partiallyResolved).Union(l.unresolved))
  {
  }

  // ---------------------------------------------------------------------------
  // One iteration of each loop, for any input.

  lemma NoDependenciesSkips(todo: seq<FileProto>, kept: seq<FileProto>, resolved: FileSet, accepts: Builder)
    requires |todo| > 0 && HasDependencies(todo[0])
    ensures NoDependenciesPass(todo, kept, resolved, accepts)
      == NoDependenciesPass(todo[1..], kept + [todo[0]], resolved, accepts)
  {
  }

  lemma NoDependenciesBuilds(todo: seq<FileProto>, kept: seq<FileProto>, resolved: FileSet, accepts: Builder)
    requires |todo| > 0 && HasNoDependencies(todo[0]) && accepts(todo[0], [])
    ensures NoDependenciesPass(todo, kept, resolved, accepts)
      == NoDependenciesPass(todo[1..], kept, resolved.Add(FileDescriptor(todo[0], [])), accepts)
  {
    assert NameSeq([]) == [];
  }

  lemma ResolveKeeps(todo: seq<FileProto>, kept: seq<FileProto>, resolved: FileSet, found: bool, accepts: Builder)
    requires |todo| > 0 && ResolveStep(todo[0], resolved, accepts) == Ok(None)
    ensures ResolvePass(todo, kept, resolved, found, accepts)
      == ResolvePass(todo[1..], kept + [todo[0]], resolved, found, accepts)
  {
  }

  lemma ResolveAdds(todo: seq<FileProto>, kept: seq<FileProto>, resolved: FileSet, found: bool, accepts: Builder,
                    d: FileDescriptor)
    requires |todo| > 0 && ResolveStep(todo[0], resolved, accepts) == Ok(Some(d))
    ensures ResolvePass(todo, kept, resolved, found, accepts)
      == ResolvePass(todo[1..], kept, resolved.Add(d), true, accepts)
  {
  }

  lemma PartialSkips(todo: seq<FileProto>, partial: FileSet, known: FileSet, found: bool, accepts: Builder)
    requires |todo| > 0 && PartialStep(todo[0], known, accepts) == Ok(None)
    ensures PartialPass(todo, partial, known, found, accepts)
      == PartialPass(todo[1..], partial, known, found, accepts)
  {
  }

  lemma PartialAdds(todo: seq<FileProto>, partial: FileSet, known: FileSet, found: bool, accepts: Builder,
                    d: FileDescriptor)
    requires |todo| > 0 && PartialStep(todo[0], known, accepts) == Ok(Some(d))
    ensures PartialPass(todo, partial, known, found, accepts)
      == PartialPass(todo[1..], partial.Add(d), known.Add(d), true, accepts)
  {
  }

  // ---------------------------------------------------------------------------
  // A chain: `c.proto` imports `b.proto`, which imports `a.proto`.

  const A: FileProto := Proto("a.proto", [])
  const B: FileProto := Proto("b.proto", ["a.proto"])
  const C: FileProto := Proto("c.proto", ["b.proto"])
  const LinkedA: FileDescriptor := FileDescriptor(A, [])
  const LinkedB: FileDescriptor := FileDescriptor(B, ["a.proto"])
  const LinkedC: FileDescriptor := FileDescriptor(C, ["b.proto"])

  lemma ChainNames()
    ensures FileSet([LinkedA]).Names() == {"a.proto"}
    ensures FileSet([LinkedA, LinkedB]).Names() == {"a.proto", "b.proto"}
    ensures FileSet([LinkedA]).Find(["a.proto"]) == FileSet([LinkedA])
    ensures FileSet([LinkedA, LinkedB]).Find(["b.proto"]) == FileSet([LinkedB])
  {
    assert [LinkedA, LinkedB][1..] == [LinkedB];
  }

  lemma StepCBeforeB()
    ensures ResolveStep(C, FileSet([LinkedA]), AcceptAll()) == Ok(None)
  {
    ChainNames();
    assert !FileSet([LinkedA]).Contains("b.proto");
  }

  lemma StepBAfterA()
    ensures ResolveStep(B, FileSet([LinkedA]), AcceptAll()) == Ok(Some(LinkedB))
  {
    ChainNames();
    assert NameSeq([LinkedA]) == ["a.proto"];
  }

  lemma StepCAfterB()
    ensures ResolveStep(C, FileSet([LinkedA, LinkedB]), AcceptAll()) == Ok(Some(LinkedC))
  {
    ChainNames();
    assert NameSeq([LinkedB]) == ["b.proto"];
  }


  lemma ChainFirstPass()
    ensures ResolvePass([C, B], [], FileSet([LinkedA]), false, AcceptAll())
      == Ok(Pass([C], FileSet([LinkedA, LinkedB]), true))
  {
    var acc := AcceptAll();
    StepCBeforeB();
    StepBAfterA();
    var none: seq<FileProto> := [];
    assert [C, B][1..] == [B] && [B][1..] == [] && none + [C] == [C];
    ResolveKeeps([C, B], none, FileSet([LinkedA]), false, acc);
    ResolveAdds([B], [C], FileSet([LinkedA]), false, acc, LinkedB);
    assert FileSet([LinkedA]).Add(LinkedB) == FileSet([LinkedA, LinkedB]);
  }


  /** Resolving `c` once `a` and `b` are. */
  lemma ChainLastStep(found: bool)
    ensures ResolvePass([C], [], FileSet([LinkedA, LinkedB]), found, AcceptAll())
      == Ok(Pass([], FileSet([LinkedA, LinkedB, LinkedC]), true))
  {
    StepCAfterB();
    assert [C][1..] == [];
    ResolveAdds([C], [], FileSet([LinkedA, LinkedB]), found, AcceptAll(), LinkedC);
    assert FileSet([LinkedA, LinkedB]).Add(LinkedC) == FileSet([LinkedA, LinkedB, LinkedC]);
  }

  lemma ChainSecondPass()
    ensures ResolvePass([C], [], FileSet([LinkedA, LinkedB]), false, AcceptAll())
      == Ok(Pass([], FileSet([LinkedA, LinkedB, LinkedC]), true))
  {
    ChainLastStep(false);
  }



  lemma ChainFindResolved()
    ensures FindResolved([C, B], FileSet([LinkedA]), AcceptAll())
      == Ok(Sorted([], FileSet([LinkedA, LinkedB, LinkedC])))
  {
    var acc := AcceptAll();
    ChainFirstPass();
    ChainSecondPass();
    assert FindResolved([C], FileSet([LinkedA, LinkedB]), acc)
        == FindResolved([], FileSet([LinkedA, LinkedB, LinkedC]), acc);
    assert FindResolved([C, B], FileSet([LinkedA]), acc)
        == FindResolved([C], FileSet([LinkedA, LinkedB]), acc);
  }

  lemma ChainReversedPhaseA()
    ensures NoDependenciesPass([C, B, A], [], FileSet([]), AcceptAll()) == Ok(Sorted([C, B], FileSet([LinkedA])))
  {
    var acc := AcceptAll();
    var none: seq<FileProto> := [];
    assert [C, B, A][1..] == [B, A] && [B, A][1..] == [A] && [A][1..] == [];
    assert none + [C] == [C] && [C] + [B] == [C, B];
    NoDependenciesSkips([C, B, A], none, FileSet([]), acc);
    NoDependenciesSkips([B, A], [C], FileSet([]), acc);
    NoDependenciesBuilds([A], [C, B], FileSet([]), acc);
    assert FileSet([]).Add(LinkedA) == FileSet([LinkedA]);
  }


  /** Given in reverse dependency order, `c`, `b`, `a`: phase A resolves `a`, the first
      pass of phase B resolves `b`, the second `c`. */
  lemma ChainReversed()
    ensures Resolve(NewLinker([C, B, A]), AcceptAll())
      == Ok(Linker([C, B, A], [], FileSet([LinkedA, LinkedB, LinkedC]), FileSet([]), FileSet([])))
  {
    ChainReversedPhaseA();
    ChainFindResolved();
  }

  /** `link` returns the three descriptors in dependency order. */
  lemma ChainReversedLinks()
    ensures Link([C, B, A], AcceptAll()) == Ok(FileSet([LinkedA, LinkedB, LinkedC]))
  {
    ChainReversed();
    var all := [LinkedA, LinkedB, LinkedC];
    assert FileSet(all).Union(FileSet([])).Union(FileSet([])) == FileSet(all) by {
      assert all + [] + [] == all;
    }
  }

  lemma ChainInOrderPhaseA()
    ensures NoDependenciesPass([A, B, C], [], FileSet([]), AcceptAll()) == Ok(Sorted([B, C], FileSet([LinkedA])))
  {
    var acc := AcceptAll();
    var none: seq<FileProto> := [];
    assert [A, B, C][1..] == [B, C] && [B, C][1..] == [C] && [C][1..] == [];
    assert none + [B] == [B] && [B] + [C] == [B, C];
    NoDependenciesBuilds([A, B, C], none, FileSet([]), acc);
    assert FileSet([]).Add(LinkedA) == FileSet([LinkedA]);
    NoDependenciesSkips([B, C], none, FileSet([LinkedA]), acc);
    NoDependenciesSkips([C], [B], FileSet([LinkedA]), acc);
  }


  lemma ChainInOrderPass()
    ensures ResolvePass([B, C], [], FileSet([LinkedA]), false, AcceptAll())
      == Ok(Pass([], FileSet([LinkedA, LinkedB, LinkedC]), true))
  {
    var acc := AcceptAll();
    var none: seq<FileProto> := [];
    StepBAfterA();
    assert [B, C][1..] == [C];
    ResolveAdds([B, C], none, FileSet([LinkedA]), false, acc, LinkedB);
    assert FileSet([LinkedA]).Add(LinkedB) == FileSet([LinkedA, LinkedB]);
    ChainLastStep(true);
  }



  /** Given in dependency order, `a`, `b`, `c`: phase A resolves `a` and a single pass of
      phase B resolves `b` and then `c`. */
  lemma ChainInOrder()
    ensures Resolve(NewLinker([A, B, C]), AcceptAll())
      == Ok(Linker([A, B, C], [], FileSet([LinkedA, LinkedB, LinkedC]), FileSet([]), FileSet([])))
  {
    ChainInOrderPhaseA();
    ChainInOrderPass();
    var acc := AcceptAll();
    assert FindResolved([B, C], FileSet([LinkedA]), acc)
        == FindResolved([], FileSet([LinkedA, LinkedB, LinkedC]), acc);
  }

  /** For this chain the input order does not change what `link` returns. */
  lemma ChainOrderIrrelevant()
    ensures Link([A, B, C], AcceptAll()) == Link([C, B, A], AcceptAll())
  {
    ChainInOrder();
    ChainReversed();
  }

  // ---------------------------------------------------------------------------
  // A missing import: `x.proto` imports `missing.proto`, which is not in the set.

  const X: FileProto := Proto("x.proto", ["missing.proto"])
  const Y: FileProto := Proto("y.proto", [])
  const LinkedX: FileDescriptor := FileDescriptor(X, [])
  const LinkedY: FileDescriptor := FileDescriptor(Y, [])

  lemma MissingImportNames()
    ensures IsFileName("missing.proto")
    ensures FileSet([LinkedY]).Names() == {"y.proto"}
    ensures !FileSet([LinkedY]).Contains("missing.proto")
  {
    assert FileSet([LinkedY]).Names() == {"y.proto"};
  }

  lemma MissingImportPhaseA()
    ensures NoDependenciesPass([X, Y], [], FileSet([]), AcceptAll()) == Ok(Sorted([X], FileSet([LinkedY])))
  {
    var acc := AcceptAll();
    var none: seq<FileProto> := [];
    assert [X, Y][1..] == [Y] && [Y][1..] == [] && none + [X] == [X];
    assert FileSet([]).Add(LinkedY) == FileSet([LinkedY]);
    assert NoDependenciesPass([X, Y], none, FileSet([]), acc) == NoDependenciesPass([Y], [X], FileSet([]), acc);
  }

  lemma MissingImportPhaseB()
    ensures FindResolved([X], FileSet([LinkedY]), AcceptAll()) == Ok(Sorted([X], FileSet([LinkedY])))
  {
    var acc := AcceptAll();
    var none: seq<FileProto> := [];
    MissingImportNames();
    assert !FileSet([LinkedY]).ContainsAll(X.dependencies);
    assert ResolveStep(X, FileSet([LinkedY]), acc) == Ok(None);
    assert [X][1..] == [] && none + [X] == [X];
    assert ResolvePass([X], none, FileSet([LinkedY]), false, acc) == Ok(Pass([X], FileSet([LinkedY]), false));
  }

  lemma MissingImportPhaseC()
    ensures FindPartiallyResolved([X], FileSet([LinkedY]), FileSet([]), AcceptAll()) == Ok(Sorted([], FileSet([LinkedX])))
  {
    var acc := AcceptAll();
    MissingImportNames();
    assert FileSet([LinkedY]).Find(X.dependencies) == FileSet([]);
    assert PartialStep(X, FileSet([LinkedY]), acc) == Ok(Some(LinkedX));
    assert FileSet([LinkedY]).Union(FileSet([])) == FileSet([LinkedY]) by {
      assert [LinkedY] + [] == [LinkedY];
    }
    assert FileSet([]).Add(LinkedX) == FileSet([LinkedX]);
    assert [X][1..] == [];
    assert PartialPass([X], FileSet([]), FileSet([LinkedY]), false, acc)
        == PartialPass([], FileSet([LinkedX]), FileSet([LinkedY]).Add(LinkedX), true, acc);
  }

  /** `x` imports a file that is not in the set: it is partially resolved, built with no
      dependencies, while `y` is resolved. */
  lemma MissingImportIsPartial()
    ensures Resolve(NewLinker([X, Y]), AcceptAll())
      == Ok(Linker([X, Y], [], FileSet([LinkedY]), FileSet([LinkedX]), FileSet([])))
  {
    MissingImportPhaseA();
    MissingImportPhaseB();
    MissingImportPhaseC();
  }

  // ---------------------------------------------------------------------------
  // A file with one import present and one missing.

  const W: FileProto := Proto("w.proto", ["a.proto", "missing.proto"])

  lemma DroppedNames()
    ensures WellNamed(W)
    ensures FileSet([LinkedA]).Names() == {"a.proto"}
    ensures !FileSet([LinkedA]).Contains("missing.proto")
    ensures FileSet([LinkedA]).Find(W.dependencies) == FileSet([LinkedA])
  {
    assert FileSet([LinkedA]).Names() == {"a.proto"};
    assert IsFileName("a.proto") && IsFileName("missing.proto");
    assert W.dependencies[1..] == ["missing.proto"];
  }

  lemma DroppedPhaseA()
    ensures NoDependenciesPass([A, W], [], FileSet([]), AcceptAll()) == Ok(Sorted([W], FileSet([LinkedA])))
  {
    var acc := AcceptAll();
    var none: seq<FileProto> := [];
    assert [A, W][1..] == [W] && [W][1..] == [] && none + [W] == [W];
    assert FileSet([]).Add(LinkedA) == FileSet([LinkedA]);
    assert NoDependenciesPass([A, W], none, FileSet([]), acc) == NoDependenciesPass([W], none, FileSet([LinkedA]), acc);
  }

  lemma DroppedSteps()
    ensures ResolveStep(W, FileSet([LinkedA]), AcceptAll()) == Ok(None)
    ensures PartialStep(W, FileSet([LinkedA]), AcceptAll()) == Ok(None)
  {
    DroppedNames();
    assert "missing.proto" in W.dependencies;
    assert !FileSet([LinkedA]).ContainsAll(W.dependencies);
  }

  lemma DroppedPhaseB()
    ensures FindResolved([W], FileSet([LinkedA]), AcceptAll()) == Ok(Sorted([W], FileSet([LinkedA])))
  {
    var acc := AcceptAll();
    var none: seq<FileProto> := [];
    DroppedSteps();
    assert [W][1..] == [] && none + [W] == [W];
    assert ResolvePass([W], none, FileSet([LinkedA]), false, acc) == Ok(Pass([W], FileSet([LinkedA]), false));
  }

  lemma DroppedPhaseC()
    ensures FindPartiallyResolved([W], FileSet([LinkedA]), FileSet([]), AcceptAll()) == Ok(Sorted([], FileSet([])))
  {
    var acc := AcceptAll();
    DroppedSteps();
    assert FileSet([LinkedA]).Union(FileSet([])) == FileSet([LinkedA]) by {
      assert [LinkedA] + [] == [LinkedA];
    }
    assert [W][1..] == [];
    assert PartialPass([W], FileSet([]), FileSet([LinkedA]), false, acc) == Ok(PartialPassResult(FileSet([]), FileSet([LinkedA]), false));
  }

  /** `w` imports the present `a` and a missing file. Phase B cannot resolve it, and the
      partial pass skips it because one of its imports is known, yet removes it from
      `remaining`: `w` ends up in none of the three sets. */
  lemma PartlyMissingImportIsDropped()
    ensures Resolve(NewLinker([A, W]), AcceptAll())
      == Ok(Linker([A, W], [], FileSet([LinkedA]), FileSet([]), FileSet([])))
    ensures Link([A, W], AcceptAll()) == Ok(FileSet([LinkedA]))
    ensures W !in ProtosOf(Link([A, W], AcceptAll()).value.files)
  {
    DroppedPhaseA();
    DroppedPhaseB();
    DroppedPhaseC();
    assert FileSet([LinkedA]).Union(FileSet([])).Union(FileSet([])) == FileSet([LinkedA]) by {
      assert [LinkedA] + [] + [] == [LinkedA];
    }
    assert ProtosOf([LinkedA]) == [A];
  }

  lemma KeptPhaseC()
    ensures KeepingFindPartiallyResolved([W], FileSet([LinkedA]), FileSet([]), AcceptAll())
      == Ok(Sorted([W], FileSet([])))
  {
    var acc := AcceptAll();
    var none: seq<FileProto> := [];
    DroppedSteps();
    assert FileSet([LinkedA]).Union(FileSet([])) == FileSet([LinkedA]) by {
      assert [LinkedA] + [] == [LinkedA];
    }
    assert [W][1..] == [] && none + [W] == [W];
    assert KeepingPartialPass([W], none, FileSet([]), FileSet([LinkedA]), false, acc) == Ok(Pass([W], FileSet([]), false));
  }

  lemma KeptPhaseD()
    ensures AddUnresolved([W], FileSet([]), AcceptAll()) == Ok(Sorted([], FileSet([FileDescriptor(W, [])])))
  {
    assert [W][1..] == [];
    assert BuildFrom(W, FileSet([]), AcceptAll()) == Ok(FileDescriptor(W, []));
    assert FileSet([]).Add(FileDescriptor(W, [])) == FileSet([FileDescriptor(W, [])]);
  }

  /** With the removal inside the `if`, `w` stays in `remaining` after the partial pass and
      `addUnresolved` adds it to the unresolved files. */
  lemma PartlyMissingImportIsKept()
    ensures KeepingResolve(NewLinker([A, W]), AcceptAll())
      == Ok(Linker([A, W], [], FileSet([LinkedA]), FileSet([]), FileSet([FileDescriptor(W, [])])))
  {
    DroppedPhaseA();
    DroppedPhaseB();
    KeptPhaseC();
    KeptPhaseD();
  }

  // ---------------------------------------------------------------------------
  // Two files with missing imports, one importing the other.

  const P: FileProto := Proto("p.proto", ["q.proto"])
  const Q: FileProto := Proto("q.proto", ["missing.proto"])
  const LinkedP: FileDescriptor := FileDescriptor(P, [])
  const LinkedQ: FileDescriptor := FileDescriptor(Q, [])

  lemma OrderNames()
    ensures WellNamed(P) && WellNamed(Q)
    ensures FileSet([LinkedP]).Names() == {"p.proto"}
    ensures FileSet([LinkedQ]).Names() == {"q.proto"}
  {
    assert FileSet([LinkedP]).Names() == {"p.proto"};
    assert FileSet([LinkedQ]).Names() == {"q.proto"};
    assert IsFileName("q.proto") && IsFileName("missing.proto");
  }

  lemma OrderSteps()
    ensures ResolveStep(P, FileSet([]), AcceptAll()) == Ok(None)
    ensures ResolveStep(Q, FileSet([]), AcceptAll()) == Ok(None)
    ensures PartialStep(P, FileSet([]), AcceptAll()) == Ok(Some(LinkedP))
    ensures PartialStep(Q, FileSet([]), AcceptAll()) == Ok(Some(LinkedQ))
  {
    OrderNames();
    assert !FileSet([]).Contains("q.proto") && !FileSet([]).Contains("missing.proto");
  }

  lemma OrderStepsAfter()
    ensures PartialStep(Q, FileSet([LinkedP]), AcceptAll()) == Ok(Some(LinkedQ))
    ensures PartialStep(P, FileSet([LinkedQ]), AcceptAll()) == Ok(None)
  {
    OrderNames();
    assert !FileSet([LinkedP]).Contains("missing.proto");
    assert FileSet([LinkedQ]).Contains("q.proto");
  }

  /** Two files that import something and that no pass resolves stay in `remaining`
      through phases A and B, in input order. */
  lemma StuckPair(first: FileProto, second: FileProto)
    requires HasDependencies(first) && HasDependencies(second)
    requires ResolveStep(first, FileSet([]), AcceptAll()) == Ok(None)
    requires ResolveStep(second, FileSet([]), AcceptAll()) == Ok(None)
    ensures NoDependenciesPass([first, second], [], FileSet([]), AcceptAll()) == Ok(Sorted([first, second], FileSet([])))
    ensures FindResolved([first, second], FileSet([]), AcceptAll()) == Ok(Sorted([first, second], FileSet([])))
  {
    var acc := AcceptAll();
    var none: seq<FileProto> := [];
    assert [first, second][1..] == [second] && [second][1..] == [];
    assert none + [first] == [first] && [first] + [second] == [first, second];
    NoDependenciesSkips([first, second], none, FileSet([]), acc);
    NoDependenciesSkips([second], [first], FileSet([]), acc);
    ResolveKeeps([first, second], none, FileSet([]), false, acc);
    ResolveKeeps([second], [first], FileSet([]), false, acc);
  }


  lemma ImporterFirstPass()
    ensures PartialPass([P, Q], FileSet([]), FileSet([]), false, AcceptAll())
      == Ok(PartialPassResult(FileSet([LinkedP, LinkedQ]), FileSet([LinkedP, LinkedQ]), true))
  {
    var acc := AcceptAll();
    OrderSteps();
    OrderStepsAfter();
    assert FileSet([]).Add(LinkedP) == FileSet([LinkedP]);
    assert FileSet([LinkedP]).Add(LinkedQ) == FileSet([LinkedP, LinkedQ]);
    assert [P, Q][1..] == [Q] && [Q][1..] == [];
    PartialAdds([P, Q], FileSet([]), FileSet([]), false, acc, LinkedP);
    PartialAdds([Q], FileSet([LinkedP]), FileSet([LinkedP]), true, acc, LinkedQ);
  }

  lemma ImportedFirstPass()
    ensures PartialPass([Q, P], FileSet([]), FileSet([]), false, AcceptAll())
      == Ok(PartialPassResult(FileSet([LinkedQ]), FileSet([LinkedQ]), true))
  {
    var acc := AcceptAll();
    OrderSteps();
    OrderStepsAfter();
    assert FileSet([]).Add(LinkedQ) == FileSet([LinkedQ]);
    assert [Q, P][1..] == [P] && [P][1..] == [];
    PartialAdds([Q, P], FileSet([]), FileSet([]), false, acc, LinkedQ);
    PartialSkips([P], FileSet([LinkedQ]), FileSet([LinkedQ]), true, acc);
  }

  lemma ImporterFirstResolve()
    ensures Resolve(NewLinker([P, Q]), AcceptAll())
      == Ok(Linker([P, Q], [], FileSet([]), FileSet([LinkedP, LinkedQ]), FileSet([])))
  {
    OrderSteps();
    StuckPair(P, Q);
    ImporterFirstPass();
    assert FileSet([]).Union(FileSet([])) == FileSet([]);
    assert FindPartiallyResolved([P, Q], FileSet([]), FileSet([]), AcceptAll()) == Ok(Sorted([], FileSet([LinkedP, LinkedQ])));
  }

  /** `p` first: when `p` is visited nothing is known, so it is built; then `q`, whose
      only import is missing, is built too. */
  lemma ImporterFirst()
    ensures Link([P, Q], AcceptAll()) == Ok(FileSet([LinkedP, LinkedQ]))
  {
    ImporterFirstResolve();
    LinkOf([P, Q], AcceptAll(), Linker([P, Q], [], FileSet([]), FileSet([LinkedP, LinkedQ]), FileSet([])));
    assert FileSet([]).Union(FileSet([LinkedP, LinkedQ])).Union(FileSet([])) == FileSet([LinkedP, LinkedQ]) by {
      assert [] + [LinkedP, LinkedQ] + [] == [LinkedP, LinkedQ];
    }
  }

  lemma ImportedFirstResolve()
    ensures Resolve(NewLinker([Q, P]), AcceptAll())
      == Ok(Linker([Q, P], [], FileSet([]), FileSet([LinkedQ]), FileSet([])))
  {
    OrderSteps();
    StuckPair(Q, P);
    ImportedFirstPass();
    assert FileSet([]).Union(FileSet([])) == FileSet([]);
    assert FindPartiallyResolved([Q, P], FileSet([]), FileSet([]), AcceptAll()) == Ok(Sorted([], FileSet([LinkedQ])));
  }

  /** `q` first: it is built and becomes known, so `p`, which imports it, is skipped and
      dropped. */
  lemma ImportedFirst()
    ensures Link([Q, P], AcceptAll()) == Ok(FileSet([LinkedQ]))
  {
    ImportedFirstResolve();
    LinkOf([Q, P], AcceptAll(), Linker([Q, P], [], FileSet([]), FileSet([LinkedQ]), FileSet([])));
    assert FileSet([]).Union(FileSet([LinkedQ])).Union(FileSet([])) == FileSet([LinkedQ]) by {
      assert [] + [LinkedQ] + [] == [LinkedQ];
    }
  }

  /** The same two files given in the two orders link to different sets. */
  lemma LinkDependsOnOrder()
    ensures Link([P, Q], AcceptAll()) != Link([Q, P], AcceptAll())
  {
    ImporterFirst();
    ImportedFirst();
    assert |FileSet([LinkedP, LinkedQ]).files| != |FileSet([LinkedQ]).files|;
  }
}
