/** `io.spine.code.proto.SourceFile`: the rejections-file convention check and the
    collection of the message declarations of a file that match a predicate.

    A message declaration is represented by its `DescriptorProto`; the file it belongs to is
    not carried along. `MessageDeclaration.getAllNested`, whose source is not part of this
    model, is taken to collect the matching types nested at any depth, in declaration
    order, a type before the types nested in it. */
module SourceFiles {
  import opened Wrappers
  import opened Strs
  import opened Seqs
  import opened Protos

  const RejectionsSuffix: string := "Rejections"

  /** `RejectionDeclaration.isValidOuterClassName`, whose source is not part of this
      model: the outer class name ends with "Rejections", as the documentation of
      `isRejections` states. */
  predicate IsValidOuterClassName(name: string) {
    EndsWith(name, RejectionsSuffix)
  }

  /** `isRejections()`. */
  function IsRejections(f: FileProto): (r: bool)
    ensures r <==> (!f.options.javaMultipleFiles
      && (f.options.javaOuterClassname.None? || IsValidOuterClassName(f.options.javaOuterClassname.value)))
  {
    if f.options.javaMultipleFiles then false
    else
      match f.options.javaOuterClassname
      case None => true
      case Some(outerClass) => IsValidOuterClassName(outerClass)
  }

  /** Every type of `types` and every type nested in them, at any depth, each before the
      types nested in it: the reference order of declarations. */
  function PreOrder(types: seq<MessageProto>): (r: seq<MessageProto>)
    ensures |r| >= |types|
    decreases types
  {
    if |types| == 0 then []
    else [types[0]] + PreOrder(types[0].nested) + PreOrder(types[1..])
  }

  /** The matching types of `types` and, after each, its matching nested types: the loop of
      the instance `allThat` and `getAllNested` applied level by level. */
  function Matches(types: seq<MessageProto>, p: MessageProto -> bool): (r: seq<MessageProto>)
    ensures forall m :: m in r ==> p(m)
    decreases types
  {
    if |types| == 0 then []
    else
      (if p(types[0]) then [types[0]] else []) + AllNested(types[0], p) + Matches(types[1..], p)
  }

  /** `MessageDeclaration.getAllNested(predicate)`. */
  function AllNested(m: MessageProto, p: MessageProto -> bool): (r: seq<MessageProto>)
    ensures forall t :: t in r ==> p(t)
    decreases m, m.nested
  {
    Matches(m.nested, p)
  }

  /** Collecting level by level keeps, in pre-order, exactly the matching types. */
  lemma {:induction false} MatchesIsFilteredPreOrder(types: seq<MessageProto>, p: MessageProto -> bool)
    ensures Matches(types, p) == Filter(PreOrder(types), p)
    decreases types
  {
    if |types| > 0 {
      var t := types[0];
      MatchesIsFilteredPreOrder(t.nested, p);
      MatchesIsFilteredPreOrder(types[1..], p);
      FilterAppend([t] + PreOrder(t.nested), PreOrder(types[1..]), p);
      FilterAppend([t], PreOrder(t.nested), p);
      assert Filter([t], p) == (if p(t) then [t] else []) by {
        assert [t][1..] == [];
      }
    }
  }

  /** Instance `allThat(predicate)`: for each top-level type, the type when it matches,
      then its matching nested types. */
  method AllThat(file: FileProto, p: MessageProto -> bool) returns (result: seq<MessageProto>)
    ensures result == Filter(PreOrder(file.messages), p)
  {
    var types := file.messages;
    result := [];
    var i := 0;
    while i < |types|
      invariant 0 <= i <= |types|
      invariant result + Matches(types[i..], p) == Matches(types, p)
    {
      var t := types[i];
      var own := if p(t) then [t] else [];
      assert types[i..][1..] == types[i + 1..];
      assert Matches(types[i..], p) == own + AllNested(t, p) + Matches(types[i + 1..], p);
      if p(t) {
        result := result + [t];
      }
      result := result + AllNested(t, p);
      i := i + 1;
    }
    MatchesIsFilteredPreOrder(types, p);
  }

  /** Pre-order of every top-level type of every file, file by file. */
  function FilesPreOrder(files: seq<FileProto>): (r: seq<MessageProto>)
    ensures |files| > 0 ==> |r| >= |files[0].messages|
  {
    if |files| == 0 then [] else PreOrder(files[0].messages) + FilesPreOrder(files[1..])
  }

  /** Static `allThat(files, predicate)`: the per-file results, file after file. */
  method AllThatInFiles(files: seq<FileProto>, p: MessageProto -> bool) returns (result: seq<MessageProto>)
    ensures result == Filter(FilesPreOrder(files), p)
  {
    ghost var all := Filter(FilesPreOrder(files), p);
    result := [];
    var i := 0;
    assert files[0..] == files;
    while i < |files|
      invariant 0 <= i <= |files|
      invariant result + Filter(FilesPreOrder(files[i..]), p) == all
    {
      FilesPreOrderStep(files, i, p);
      var declarations := AllThat(files[i], p);
      AppendAssoc(result, declarations, Filter(FilesPreOrder(files[i + 1..]), p));
      result := result + declarations;
      i := i + 1;
    }
    assert files[i..] == [];
  }

  /** The matching types of the files from the `i`-th on: those of the `i`-th file, then
      those of the rest. */
  lemma FilesPreOrderStep(files: seq<FileProto>, i: nat, p: MessageProto -> bool)
    requires i < |files|
    ensures Filter(FilesPreOrder(files[i..]), p)
      == Filter(PreOrder(files[i].messages), p) + Filter(FilesPreOrder(files[i + 1..]), p)
  {
    assert files[i..][1..] == files[i + 1..];
    assert FilesPreOrder(files[i..]) == PreOrder(files[i].messages) + FilesPreOrder(files[i + 1..]);
    FilterAppend(PreOrder(files[i].messages), FilesPreOrder(files[i + 1..]), p);
  }

  lemma {:induction false} PreOrderHasType(types: seq<MessageProto>, k: nat)
    requires k < |types|
    ensures types[k] in PreOrder(types)
    decreases types
  {
    if k > 0 {
      PreOrderHasType(types[1..], k - 1);
    }
  }

  lemma {:induction false} PreOrderHasSubtree(types: seq<MessageProto>, k: nat, x: MessageProto)
    requires k < |types| && x in PreOrder(types[k].nested)
    ensures x in PreOrder(types)
    decreases types
  {
    if k > 0 {
      PreOrderHasSubtree(types[1..], k - 1, x);
    }
  }

  /** A nested type that matches is collected whether or not the type it is nested in
      matches. */
  lemma NestedMatchCollected(file: FileProto, p: MessageProto -> bool, k: nat, n: MessageProto)
    requires k < |file.messages| && n in file.messages[k].nested && p(n)
    ensures n in Filter(PreOrder(file.messages), p)
  {
    var nested := file.messages[k].nested;
    var j :| 0 <= j < |nested| && nested[j] == n;
    PreOrderHasType(nested, j);
    PreOrderHasSubtree(file.messages, k, n);
    FilterMembers(PreOrder(file.messages), p, n);
  }

  /** A top-level type is collected exactly when it matches. */
  lemma TopLevelMatchCollected(file: FileProto, p: MessageProto -> bool, k: nat)
    requires k < |file.messages|
    ensures file.messages[k] in Filter(PreOrder(file.messages), p) <==> p(file.messages[k])
  {
    PreOrderHasType(file.messages, k);
    FilterMembers(PreOrder(file.messages), p, file.messages[k]);
  }
}
