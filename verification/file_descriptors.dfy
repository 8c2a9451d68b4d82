/** `io.spine.tools.proto.FileDescriptors`: reading the files of a descriptor set, with an
    optional filter, and concatenating the descriptor sets of several providers.

    Reading a file is outside this model: what reading the descriptor-set file at a path
    produced is passed in as a `DescriptorSource`. */
module FileDescriptors {
  import opened Wrappers
  import opened Strs
  import opened Seqs
  import opened Protos

  /** What reading the descriptor-set file found at a path. */
  datatype DescriptorSource =
    | Missing               // `File.exists()` is false
    | Unreadable            // opening or parsing threw an `IOException`
    | Parsed(descriptorSet: DescriptorSet)

  const GooglePackage: string := "google"

  /** `IsNotGoogleProto.test`: the package does not contain "google" anywhere. */
  function IsNotGoogleProto(f: FileProto): (r: bool)
    ensures r <==> !Contains(f.package, GooglePackage)
  {
    !ContainsFrom(f.package, GooglePackage, 0)
  }

  /** The filter of `parse`: every file passes. */
  function AnyFile(f: FileProto): bool {
    true
  }

  function DoesNotExist(path: string): string {
    "File " + path + " does not exist"
  }

  function CannotRead(path: string): string {
    "Cannot get proto file descriptors. Path: " + path
  }

  /** `parseAndFilter(path, filter)`: the files of the descriptor set, in order, that pass
      the filter. A missing file is an argument error, an unreadable one a state error. */
  method ParseAndFilter(path: string, source: DescriptorSource, filter: FileProto -> bool)
    returns (r: Result<seq<FileProto>, Exception>)
    ensures source.Missing? <==> r == Err(IllegalArgument(DoesNotExist(path)))
    ensures source.Unreadable? <==> r == Err(IllegalState(CannotRead(path)))
    ensures source.Parsed? <==> r.Ok?
    ensures r.Ok? ==> r.value == Filter(source.descriptorSet.files, filter)
  {
    if source.Missing? {
      return Err(IllegalArgument(DoesNotExist(path)));
    }
    if source.Unreadable? {
      return Err(IllegalState(CannotRead(path)));
    }
    var all := source.descriptorSet.files;
    var files: seq<FileProto> := [];
    var i := 0;
    while i < |all|
      invariant 0 <= i <= |all|
      invariant files == Filter(all[..i], filter)
    {
      FilterSnoc(all, i, filter);
      if filter(all[i]) {
        files := files + [all[i]];
      }
      i := i + 1;
    }
    assert all[..i] == all;
    return Ok(files);
  }

  /** `parse(path)`: every file of the descriptor set, in order. */
  method Parse(path: string, source: DescriptorSource) returns (r: Result<seq<FileProto>, Exception>)
    ensures source.Parsed? <==> r.Ok?
    ensures r.Ok? ==> r.value == source.descriptorSet.files
    ensures source.Missing? ==> r == Err(IllegalArgument(DoesNotExist(path)))
    ensures source.Unreadable? ==> r == Err(IllegalState(CannotRead(path)))
  {
    r := ParseAndFilter(path, source, AnyFile);
    if r.Ok? {
      FilterAll(source.descriptorSet.files, AnyFile);
    }
  }

  /** A filter that passes every element keeps the whole sequence. */
  lemma {:induction false} FilterAll<T>(s: seq<T>, p: T -> bool)
    requires forall x :: p(x)
    ensures Filter(s, p) == s
  {
    if |s| > 0 {
      FilterAll(s[1..], p);
      assert s == [s[0]] + s[1..];
    }
  }

  /** `parseSkipStandard(path)`: the files whose package does not mention "google". */
  method ParseSkipStandard(path: string, source: DescriptorSource) returns (r: Result<seq<FileProto>, Exception>)
    ensures source.Parsed? <==> r.Ok?
    ensures r.Ok? ==> forall f :: f in r.value <==> f in source.descriptorSet.files && !Contains(f.package, GooglePackage)
    ensures r.Ok? ==> r.value == Filter(source.descriptorSet.files, IsNotGoogleProto)
  {
    r := ParseAndFilter(path, source, IsNotGoogleProto);
    if r.Ok? {
      forall f ensures f in r.value <==> f in source.descriptorSet.files && !Contains(f.package, GooglePackage) {
        FilterMembers(source.descriptorSet.files, IsNotGoogleProto, f);
      }
    }
  }

  /** The descriptor sets of all providers, one provider after another. */
  function Concat(sets: seq<seq<DescriptorSet>>): (r: seq<DescriptorSet>)
    ensures forall s :: s in r ==> exists i :: 0 <= i < |sets| && s in sets[i]
  {
    if |sets| == 0 then [] else sets[0] + Concat(sets[1..])
  }

  /** `reduce(Iterators::concat)`: folds the providers' sets from the left. */
  function ReduceConcat(acc: seq<DescriptorSet>, rest: seq<seq<DescriptorSet>>): (r: seq<DescriptorSet>)
    ensures |r| >= |acc| && r[..|acc|] == acc
    decreases |rest|
  {
    if |rest| == 0 then acc else ReduceConcat(acc + rest[0], rest[1..])
  }

  const CannotLoad: string := "Known types cannot be loaded."

  /** `load()`: the descriptor sets of every type provider, in provider order, or a state
      error when there is no provider. Finding the providers is outside this model; their
      loaded sets are the parameter. */
  function Load(providers: seq<seq<DescriptorSet>>): (r: Result<seq<DescriptorSet>, Exception>)
    ensures |providers| == 0 <==> r == Err(IllegalState(CannotLoad))
    ensures r.Ok? ==> r.value == Concat(providers)
  {
    if |providers| == 0 then Err(IllegalState(CannotLoad))
    else
      ReduceIsConcat(providers[0], providers[1..]);
      Ok(ReduceConcat(providers[0], providers[1..]))
  }

  /** Folding from the left gives the same sequence as concatenating from the right. */
  lemma {:induction false} ReduceIsConcat(acc: seq<DescriptorSet>, rest: seq<seq<DescriptorSet>>)
    ensures ReduceConcat(acc, rest) == acc + Concat(rest)
    decreases |rest|
  {
    if |rest| > 0 {
      ReduceIsConcat(acc + rest[0], rest[1..]);
      assert acc + rest[0] + Concat(rest[1..]) == acc + (rest[0] + Concat(rest[1..]));
    }
  }

  lemma {:induction false} ConcatMembers(sets: seq<seq<DescriptorSet>>, s: DescriptorSet)
    ensures s in Concat(sets) <==> exists i :: 0 <= i < |sets| && s in sets[i]
  {
    if |sets| > 0 {
      ConcatMembers(sets[1..], s);
      if exists i :: 0 <= i < |sets| && s in sets[i] {
        var i :| 0 <= i < |sets| && s in sets[i];
        if i > 0 {
          assert s in sets[1..][i - 1];
        }
      }
      if exists i :: 0 <= i < |sets[1..]| && s in sets[1..][i] {
        var i :| 0 <= i < |sets[1..]| && s in sets[1..][i];
        assert s in sets[i + 1];
      }
    }
  }

  /** `extractFiles(sets)`: every file of every set, duplicates collapsed. */
  method ExtractFiles(sets: seq<DescriptorSet>) returns (files: set<FileProto>)
    ensures forall f :: f in files <==> exists i :: 0 <= i < |sets| && f in sets[i].files
  {
    files := {};
    var i := 0;
    while i < |sets|
      invariant 0 <= i <= |sets|
      invariant forall f :: f in files <==> exists j :: 0 <= j < i && f in sets[j].files
    {
      files := files + set f | f in sets[i].files;
      i := i + 1;
    }
  }
}
