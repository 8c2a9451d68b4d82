/** An abstract model of `io.spine.code.proto.FileSet`, whose source is not part of this
    model: an insertion-ordered collection of linked file descriptors addressed by name. */
module FileSets {
  import opened Protos

  /** A linked `FileDescriptor`: the proto it was built from and the names of the
      dependency descriptors it was linked against, in the order they were passed. */
  datatype FileDescriptor = FileDescriptor(proto: FileProto, linkedDependencies: seq<string>)

  /** The protos the descriptors were built from, in order. */
  function ProtosOf(files: seq<FileDescriptor>): (r: seq<FileProto>)
    ensures |r| == |files|
  {
    seq(|files|, i requires 0 <= i < |files| => files[i].proto)
  }

  lemma ProtosOfAppend(a: seq<FileDescriptor>, b: seq<FileDescriptor>)
    ensures ProtosOf(a + b) == ProtosOf(a) + ProtosOf(b)
  {
  }

  /** A proto is among the protos of `files` exactly when some descriptor was built from it. */
  lemma ProtosOfMember(files: seq<FileDescriptor>, f: FileProto)
    ensures f in ProtosOf(files) <==> exists d :: d in files && d.proto == f
  {
    if f in ProtosOf(files) {
      var i :| 0 <= i < |files| && ProtosOf(files)[i] == f;
      assert files[i] in files;
    }
    if exists d :: d in files && d.proto == f {
      var d :| d in files && d.proto == f;
      var i :| 0 <= i < |files| && files[i] == d;
      assert ProtosOf(files)[i] == f;
    }
  }

  /** The file names of the descriptors. */
  function NamesOf(files: seq<FileDescriptor>): set<string> {
    set d | d in files :: d.proto.name
  }

  /** The file names of the descriptors, in order: what `toArray()` hands to `buildFrom`. */
  function NameSeq(files: seq<FileDescriptor>): (r: seq<string>)
    ensures |r| == |files|
  {
    seq(|files|, i requires 0 <= i < |files| => files[i].proto.name)
  }

  lemma NameSeqNames(files: seq<FileDescriptor>)
    ensures forall n :: n in NameSeq(files) <==> n in NamesOf(files)
  {
    forall n | n in NamesOf(files) ensures n in NameSeq(files) {
      var d :| d in files && d.proto.name == n;
      var i :| 0 <= i < |files| && files[i] == d;
      assert NameSeq(files)[i] == n;
    }
  }

  lemma NamesOfAppend(a: seq<FileDescriptor>, b: seq<FileDescriptor>)
    ensures NamesOf(a + b) == NamesOf(a) + NamesOf(b)
  {
  }

  lemma NamesOfPrefix(a: seq<FileDescriptor>, k: nat)
    requires k <= |a|
    ensures NamesOf(a[..k]) <= NamesOf(a)
  {
    assert a == a[..k] + a[k..];
    NamesOfAppend(a[..k], a[k..]);
  }

  /** Every dependency name of `f` is among `names`. */
  predicate DependenciesIn(f: FileProto, names: set<string>) {
    forall n :: n in f.dependencies ==> n in names
  }

  /** Some dependency name of `f` is among `names`. */
  predicate SomeDependencyIn(f: FileProto, names: set<string>) {
    exists n :: n in f.dependencies && n in names
  }

  datatype FileSet = FileSet(files: seq<FileDescriptor>) {

    function Names(): set<string> {
      NamesOf(files)
    }

    predicate Contains(name: string) {
      name in Names()
    }

    /** `containsAll(names)`: every one of `names` is in the set. */
    predicate ContainsAll(names: seq<string>) {
      forall n :: n in names ==> Contains(n)
    }

    /** `find(names)`: the descriptors whose name is one of `names`, in set order; names
        that are not in the set are skipped. */
    function Find(names: seq<string>): (r: FileSet)
      ensures |r.files| <= |files|
      decreases |files|
    {
      if |files| == 0 then FileSet([])
      else
        var rest := FileSet(files[1..]).Find(names);
        if files[0].proto.name in names then FileSet([files[0]] + rest.files) else rest
    }

    /** `add(file)`. */
    function Add(d: FileDescriptor): (r: FileSet)
      ensures Extends(files, r.files) && |r.files| == |files| + 1 && r.files[|files|] == d
    {
      FileSet(files + [d])
    }

    /** `union(other)`: both collections' descriptors, this one's first. */
    function Union(other: FileSet): (r: FileSet)
      ensures ProtosOf(r.files) == ProtosOf(files) + ProtosOf(other.files)
      ensures Extends(files, r.files)
    {
      ProtosOfAppend(files, other.files);
      FileSet(files + other.files)
    }

    predicate IsEmpty() {
      |files| == 0
    }
  }

  /** `find` keeps exactly the descriptors whose name was asked for. */
  lemma {:induction false} FindMembers(fs: FileSet, names: seq<string>, d: FileDescriptor)
    ensures d in fs.Find(names).files <==> d in fs.files && d.proto.name in names
    decreases |fs.files|
  {
    if |fs.files| > 0 {
      FindMembers(FileSet(fs.files[1..]), names, d);
      assert fs.files == [fs.files[0]] + fs.files[1..];
    }
  }

  /** `find` comes back empty exactly when none of the names is in the set. */
  lemma FindEmpty(fs: FileSet, names: seq<string>)
    ensures fs.Find(names).IsEmpty() <==> forall n :: n in names ==> !fs.Contains(n)
  {
    if !fs.Find(names).IsEmpty() {
      var d := fs.Find(names).files[0];
      FindMembers(fs, names, d);
      assert d.proto.name in names && fs.Contains(d.proto.name);
    }
    if exists n :: n in names && fs.Contains(n) {
      var n :| n in names && fs.Contains(n);
      var d :| d in fs.files && d.proto.name == n;
      FindMembers(fs, names, d);
    }
  }

  /** The names of the descriptors `find` returns: the asked-for names that are present. */
  lemma FindNames(fs: FileSet, names: seq<string>)
    ensures forall n :: n in NameSeq(fs.Find(names).files) <==> n in names && fs.Contains(n)
  {
    var found := fs.Find(names);
    NameSeqNames(found.files);
    forall n ensures n in NamesOf(found.files) <==> n in names && fs.Contains(n) {
      if n in NamesOf(found.files) {
        var d :| d in found.files && d.proto.name == n;
        FindMembers(fs, names, d);
      }
      if n in names && fs.Contains(n) {
        var d :| d in fs.files && d.proto.name == n;
        FindMembers(fs, names, d);
      }
    }
  }

  lemma AddNames(fs: FileSet, d: FileDescriptor)
    ensures fs.Add(d).Names() == fs.Names() + {d.proto.name}
  {
    NamesOfAppend(fs.files, [d]);
  }

  lemma UnionNames(fs: FileSet, other: FileSet)
    ensures fs.Union(other).Names() == fs.Names() + other.Names()
  {
    NamesOfAppend(fs.files, other.files);
  }

  /** `b` is `a` with zero or more descriptors appended: what `add` does to a set. */
  predicate Extends(a: seq<FileDescriptor>, b: seq<FileDescriptor>) {
    |a| <= |b| && b[..|a|] == a
  }

  lemma ExtendsTrans(a: seq<FileDescriptor>, b: seq<FileDescriptor>, c: seq<FileDescriptor>)
    requires Extends(a, b) && Extends(b, c)
    ensures Extends(a, c)
  {
    assert c[..|a|] == c[..|b|][..|a|];
  }

  /** The appended part of an extension, and what it adds to names and protos. */
  lemma ExtendsSplit(a: seq<FileDescriptor>, b: seq<FileDescriptor>)
    requires Extends(a, b)
    ensures b == a + b[|a|..]
    ensures NamesOf(b) == NamesOf(a) + NamesOf(b[|a|..])
    ensures ProtosOf(b) == ProtosOf(a) + ProtosOf(b[|a|..])
  {
    assert b == b[..|a|] + b[|a|..];
    NamesOfAppend(a, b[|a|..]);
    ProtosOfAppend(a, b[|a|..]);
  }

  /** Each descriptor of `files` has all its dependencies among the descriptors before it:
      the order in which a linker that only builds files with present dependencies adds them. */
  ghost predicate TopologicallyOrdered(files: seq<FileDescriptor>) {
    forall i :: 0 <= i < |files| ==> DependenciesIn(files[i].proto, NamesOf(files[..i]))
  }

  /** Every dependency of every descriptor of the set is itself in the set. */
  ghost predicate ClosedUnderDependencies(fs: FileSet) {
    forall d :: d in fs.files ==> DependenciesIn(d.proto, fs.Names())
  }

  lemma TopologicallyOrderedAdd(files: seq<FileDescriptor>, d: FileDescriptor)
    requires TopologicallyOrdered(files)
    requires DependenciesIn(d.proto, NamesOf(files))
    ensures TopologicallyOrdered(files + [d])
  {
    var s := files + [d];
    forall i | 0 <= i < |s|
      ensures DependenciesIn(s[i].proto, NamesOf(s[..i]))
    {
      if i < |files| {
        assert s[..i] == files[..i];
      } else {
        assert s[..i] == files;
      }
    }
  }

  lemma {:induction false} TopologicallyOrderedIsClosed(fs: FileSet)
    requires TopologicallyOrdered(fs.files)
    ensures ClosedUnderDependencies(fs)
  {
    forall d | d in fs.files
      ensures DependenciesIn(d.proto, fs.Names())
    {
      var i :| 0 <= i < |fs.files| && fs.files[i] == d;
      NamesOfPrefix(fs.files, i);
    }
  }
}
