/** `io.spine.tools.compiler.validation.VBTypeLookup`: the message types a validating
    builder is generated for.

    Every top-level message of every file of the descriptor set is a candidate, except the
    messages whose Java package contains the package of the Protobuf library. The Java
    package is read through a cache from message to file that the code fills by visiting
    the files in order, so a message declared with the same descriptor in two files takes
    the package of the later file. Reading the descriptor set file is left out: the files
    arrive as a sequence, in the order `FileDescriptors.parse` returns them. */
module VBTypeLookups {
  import opened Strs
  import opened Protos

  const JavaClassNameSuffix: string := "VBuilder"

  /** The package of `com.google.protobuf.Message`. */
  const ProtobufPackage: string := "com.google.protobuf"

  /** A `VBType`: the Java package and class name of the builder, the message, and the name
      of the file declaring the message. */
  datatype VBType = VBType(javaPackage: string, className: string, message: MessageProto, fileName: string)

  /** The cache entries of one file: each of its top-level messages maps to it. */
  function FileEntries(file: FileProto): (r: map<MessageProto, FileProto>)
    ensures forall m :: m in r <==> m in file.messages
    ensures forall m :: m in r ==> r[m] == file
  {
    map m | m in file.messages :: file
  }

  /** `descriptorCache` after `cacheTypesFromFile` has run on each of `files` in turn: a
      later file overwrites the entry of an equal message. */
  function CacheTypes(files: seq<FileProto>): (r: map<MessageProto, FileProto>)
    ensures forall m :: m in r ==> m in r[m].messages && r[m] in files
    ensures forall f, m :: f in files && m in f.messages ==> m in r
  {
    if |files| == 0 then map[]
    else
      var prev := CacheTypes(files[..|files| - 1]);
      assert forall f :: f in files ==> f in files[..|files| - 1] || f == files[|files| - 1];
      assert forall f :: f in files[..|files| - 1] ==> f in files;
      prev + FileEntries(files[|files| - 1])
  }

  /** A message declared in some file. */
  predicate Declared(files: seq<FileProto>, m: MessageProto) {
    exists f :: f in files && m in f.messages
  }

  /** The cache holds exactly the top-level messages of the files. */
  lemma {:induction false} CacheKeys(files: seq<FileProto>, m: MessageProto)
    ensures m in CacheTypes(files) <==> Declared(files, m)
  {
    if |files| > 0 {
      var init := files[..|files| - 1];
      CacheKeys(init, m);
      assert files == init + [files[|files| - 1]];
      if Declared(files, m) && !(m in files[|files| - 1].messages) {
        var f :| f in files && m in f.messages;
        assert f in init;
      }
    }
  }

  /** The cache maps a message to the last file that declares it. */
  lemma {:induction false} CacheLast(files: seq<FileProto>, i: nat, m: MessageProto)
    requires i < |files| && m in files[i].messages
    requires forall j :: i < j < |files| ==> m !in files[j].messages
    ensures m in CacheTypes(files) && CacheTypes(files)[m] == files[i]
  {
    var init := files[..|files| - 1];
    if i < |files| - 1 {
      CacheLast(init, i, m);
    }
  }

  /** The Java package `getJavaPackage` reads for a cached message. */
  function JavaPackageOf(cache: map<MessageProto, FileProto>, m: MessageProto): string
    requires m in cache
  {
    cache[m].options.javaPackage
  }

  /** `isNotStandardType`: the message's Java package does not contain the package of the
      Protobuf library. */
  predicate IsNotStandardType(cache: map<MessageProto, FileProto>, m: MessageProto)
    requires m in cache
  {
    !ContainsFrom(JavaPackageOf(cache, m), ProtobufPackage, 0)
  }

  /** `newType(message, file)`. */
  function NewType(cache: map<MessageProto, FileProto>, m: MessageProto, file: FileProto): (r: VBType)
    requires m in cache
    ensures r.message == m && r.fileName == file.name
    ensures r.javaPackage == cache[m].options.javaPackage
    ensures |r.className| == |m.name| + |JavaClassNameSuffix|
    ensures StartsWith(r.className, m.name) && EndsWith(r.className, JavaClassNameSuffix)
  {
    VBType(JavaPackageOf(cache, m), m.name + JavaClassNameSuffix, m, file.name)
  }

  /** `createMetadata(messages, file)`: a type for each non-standard message. */
  function CreateMetadata(cache: map<MessageProto, FileProto>, file: FileProto): (r: set<VBType>)
    requires forall m :: m in file.messages ==> m in cache
    ensures forall t :: t in r <==> exists m :: m in file.messages && IsNotStandardType(cache, m) && t == NewType(cache, m, file)
  {
    set m | m in file.messages && IsNotStandardType(cache, m) :: NewType(cache, m, file)
  }

  /** `fromAllFiles(files)`: the union of the types of every file. */
  method FromAllFiles(cache: map<MessageProto, FileProto>, files: seq<FileProto>) returns (result: set<VBType>)
    requires forall f :: f in files ==> forall m :: m in f.messages ==> m in cache
    ensures forall t :: t in result <==> exists f :: f in files && t in CreateMetadata(cache, f)
  {
    result := {};
    var i := 0;
    while i < |files|
      invariant 0 <= i <= |files|
      invariant forall t :: t in result <==> exists f :: f in files[..i] && t in CreateMetadata(cache, f)
    {
      var metadata := CreateMetadata(cache, files[i]);
      assert files[..i + 1] == files[..i] + [files[i]];
      result := result + metadata;
      i := i + 1;
    }
    assert files[..i] == files;
  }

  /** `collect()`: fill the cache from every file, then gather the types of every file. */
  method Collect(files: seq<FileProto>) returns (result: set<VBType>)
    ensures forall t :: t in result ==>
      (t.message in CacheTypes(files)
       && t.javaPackage == CacheTypes(files)[t.message].options.javaPackage
       && t.className == t.message.name + JavaClassNameSuffix)
    ensures forall t :: t in result ==> exists f :: f in files && t.message in f.messages && t.fileName == f.name
    ensures forall t :: t in result ==> IsNotStandardType(CacheTypes(files), t.message)
    ensures forall f, m :: f in files && m in f.messages && IsNotStandardType(CacheTypes(files), m) ==>
      NewType(CacheTypes(files), m, f) in result
  {
    var cache := CacheTypes(files);
    result := FromAllFiles(cache, files);
    forall f, m | f in files && m in f.messages && IsNotStandardType(cache, m)
      ensures NewType(cache, m, f) in result
    {
      assert NewType(cache, m, f) in CreateMetadata(cache, f);
    }
  }

  /** When no two files declare an equal message, each type carries the Java package of its
      own file, and a message is left out exactly when that package contains the package of
      the Protobuf library. */
  lemma OwnPackage(files: seq<FileProto>, i: nat, m: MessageProto)
    requires i < |files| && m in files[i].messages
    requires forall j :: 0 <= j < |files| && j != i ==> m !in files[j].messages
    ensures m in CacheTypes(files)
    ensures NewType(CacheTypes(files), m, files[i]).javaPackage == files[i].options.javaPackage
    ensures IsNotStandardType(CacheTypes(files), m) <==> !Contains(files[i].options.javaPackage, ProtobufPackage)
  {
    CacheLast(files, i, m);
  }

  /** A message declared with the same descriptor in two files takes the Java package of
      the later file, also for the type generated for the earlier one. */
  lemma SharedMessageTakesLaterPackage(m: MessageProto, a: FileProto, b: FileProto)
    requires m in a.messages && m in b.messages
    ensures NewType(CacheTypes([a, b]), m, a).javaPackage == b.options.javaPackage
    ensures NewType(CacheTypes([a, b]), m, a).fileName == a.name
  {
    CacheLast([a, b], 1, m);
  }
}
