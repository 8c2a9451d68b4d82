/** `io.spine.js.generate.type.KnownTypesGenerator`: the JavaScript module that imports the
    generated files and exports the map from type URL to JavaScript type.

    The generated code is a sequence of output items. `JsOutput` and `JsImportGenerator`,
    whose sources are not part of this model, are reduced to the items they receive; the
    import statements of one set of files are one item, as the set has no order.
    `TypeUrl.from`, `TypeName.from` and `FileName.from` are parameters. */
module KnownTypes {
  import opened Protos
  import opened FileSets

  const MapName: string := "types"

  /** What the generator hands to `JsOutput`, in order. */
  datatype OutputItem =
    | Imports(fileNames: set<string>)
    | EmptyLine
    | ExportMap(name: string)
    | MapEntry(entry: Entry)
    | QuitMapDeclaration

  /** A map entry and whether it is the last one, which `JsOutput` writes without a
      trailing comma. */
  datatype Entry = Entry(text: string, isLast: bool)

  /** The naming functions the generator relies on. */
  datatype Naming = Naming(
    typeUrl: MessageProto -> string,
    typeName: MessageProto -> string,
    jsFileName: FileProto -> string)

  /** `jsMapEntry(message)`: a two-element JavaScript array of the quoted type URL and the
      type name. */
  function JsMapEntry(n: Naming, m: MessageProto): string {
    "['" + n.typeUrl(m) + "', " + n.typeName(m) + "]"
  }

  /** The layout of a map entry: the quoted type URL, a comma, then the type name, in
      brackets. */
  lemma JsMapEntryLayout(n: Naming, m: MessageProto)
    ensures var r := JsMapEntry(n, m);
      |r| == |n.typeUrl(m)| + |n.typeName(m)| + 6
      && r[..2] == "['" && r[2..2 + |n.typeUrl(m)|] == n.typeUrl(m)
      && r[2 + |n.typeUrl(m)|..4 + |n.typeUrl(m)|] == "',"
      && r[|r| - 1 - |n.typeName(m)|..] == n.typeName(m) + "]"
  {
  }

  /** `generateImports()`: the JavaScript files of the files that declare a message. */
  function ImportedFiles(n: Naming, files: seq<FileDescriptor>): (r: set<string>)
    ensures forall name :: name in r <==>
      exists d :: d in files && |d.proto.messages| > 0 && n.jsFileName(d.proto) == name
  {
    set d | d in files && |d.proto.messages| > 0 :: n.jsFileName(d.proto)
  }

  /** `storeTypesFromFile(file, isLastFile)`: one entry per top-level message, the final
      one flagged when the file is the last. */
  function StoreTypesFromFile(n: Naming, messages: seq<MessageProto>, isLastFile: bool): (r: seq<Entry>)
    ensures |r| == |messages|
    ensures forall k :: 0 <= k < |r| ==> r[k].text == JsMapEntry(n, messages[k])
    ensures forall k :: 0 <= k < |r| ==> (r[k].isLast <==> isLastFile && k == |r| - 1)
  {
    if |messages| == 0 then []
    else
      var rest := StoreTypesFromFile(n, messages[1..], isLastFile);
      [Entry(JsMapEntry(n, messages[0]), |messages| == 1 && isLastFile)] + rest
  }

  /** `storeKnownTypes()`: the entries of every file in turn. */
  function StoreKnownTypes(n: Naming, files: seq<FileDescriptor>): (r: seq<Entry>)
    ensures |r| == |AllMessages(files)|
  {
    if |files| == 0 then []
    else StoreTypesFromFile(n, files[0].proto.messages, |files| == 1) + StoreKnownTypes(n, files[1..])
  }

  /** The top-level messages of the files, file by file, each in declaration order. */
  function AllMessages(files: seq<FileDescriptor>): seq<MessageProto> {
    if |files| == 0 then [] else files[0].proto.messages + AllMessages(files[1..])
  }

  /** The last file declares at least one message. */
  predicate LastFileHasMessages(files: seq<FileDescriptor>) {
    |files| > 0 && |files[|files| - 1].proto.messages| > 0
  }

  /** The map has one entry per top-level message, in file order and then declaration
      order. */
  lemma {:induction false} KnownTypesTexts(n: Naming, files: seq<FileDescriptor>)
    ensures EntriesOf(n, StoreKnownTypes(n, files), AllMessages(files))
  {
    if |files| > 0 {
      KnownTypesTexts(n, files[1..]);
      TextsCons(n, files);
    }
  }

  /** Entry `k` of `r` is the map entry of message `k` of `messages`. */
  predicate EntriesOf(n: Naming, r: seq<Entry>, messages: seq<MessageProto>) {
    |r| == |messages| && forall k :: 0 <= k < |r| ==> r[k].text == JsMapEntry(n, messages[k])
  }

  /** The texts of the entries of several files follow from those of all but the first. */
  lemma TextsCons(n: Naming, files: seq<FileDescriptor>)
    requires |files| > 0
    requires EntriesOf(n, StoreKnownTypes(n, files[1..]), AllMessages(files[1..]))
    ensures EntriesOf(n, StoreKnownTypes(n, files), AllMessages(files))
  {
    var head := StoreTypesFromFile(n, files[0].proto.messages, |files| == 1);
    var tail := StoreKnownTypes(n, files[1..]);
    var r := head + tail;
    assert StoreKnownTypes(n, files) == r;
    var all := AllMessages(files);
    assert all == files[0].proto.messages + AllMessages(files[1..]);
    forall k | 0 <= k < |r| ensures r[k].text == JsMapEntry(n, all[k]) {
      if k >= |head| {
        assert r[k] == tail[k - |head|];
        assert all[k] == AllMessages(files[1..])[k - |head|];
      } else {
        assert r[k] == head[k];
        assert all[k] == files[0].proto.messages[k];
      }
    }
  }

  /** Only the very last entry is flagged, and only when the last file declares a
      message. */
  lemma {:induction false} KnownTypesLastFlag(n: Naming, files: seq<FileDescriptor>)
    ensures FlaggedLast(StoreKnownTypes(n, files), LastFileHasMessages(files))
  {
    if |files| == 1 {
      assert StoreKnownTypes(n, files) == StoreTypesFromFile(n, files[0].proto.messages, true) + [];
    } else if |files| > 1 {
      KnownTypesLastFlag(n, files[1..]);
      LastFlagCons(n, files);
    }
  }

  /** Exactly the last entry carries the flag when `last` holds, and none otherwise. */
  predicate FlaggedLast(r: seq<Entry>, last: bool) {
    forall k :: 0 <= k < |r| ==> (r[k].isLast <==> k == |r| - 1 && last)
  }

  /** The flag of the entries of several files follows from the flag of all but the first. */
  lemma LastFlagCons(n: Naming, files: seq<FileDescriptor>)
    requires |files| > 1
    requires FlaggedLast(StoreKnownTypes(n, files[1..]), LastFileHasMessages(files[1..]))
    ensures FlaggedLast(StoreKnownTypes(n, files), LastFileHasMessages(files))
  {
    var head := StoreTypesFromFile(n, files[0].proto.messages, false);
    var tail := StoreKnownTypes(n, files[1..]);
    var r := head + tail;
    assert StoreKnownTypes(n, files) == r;
    assert files[1..][|files[1..]| - 1] == files[|files| - 1];
    var last := LastFileHasMessages(files);
    assert LastFileHasMessages(files[1..]) == last;
    if |tail| == 0 {
      assert AllMessages(files[1..]) == [];
      LastFileEmpty(files[1..]);
    }
    forall k | 0 <= k < |r| ensures r[k].isLast <==> k == |r| - 1 && last {
      if k >= |head| {
        assert r[k] == tail[k - |head|];
      } else {
        assert r[k] == head[k];
      }
    }
  }

  /** Files with no messages at all leave the last file without messages. */
  lemma {:induction false} LastFileEmpty(files: seq<FileDescriptor>)
    requires |files| > 0 && AllMessages(files) == []
    ensures !LastFileHasMessages(files)
  {
    assert |files[0].proto.messages| == 0;
    if |files| > 1 {
      LastFileEmpty(files[1..]);
      assert files[1..][|files[1..]| - 1] == files[|files| - 1];
    }
  }

  /** At most one entry is flagged as the last. */
  lemma AtMostOneLast(n: Naming, files: seq<FileDescriptor>)
    ensures var r := StoreKnownTypes(n, files);
      forall i, j :: 0 <= i < |r| && 0 <= j < |r| && r[i].isLast && r[j].isLast ==> i == j
  {
    KnownTypesLastFlag(n, files);
  }

  /** A last file without messages leaves the map with no entry flagged. */
  lemma NoLastWhenLastFileEmpty(n: Naming, files: seq<FileDescriptor>)
    requires |files| > 0 && |files[|files| - 1].proto.messages| == 0
    ensures forall e :: e in StoreKnownTypes(n, files) ==> !e.isLast
  {
    KnownTypesLastFlag(n, files);
  }

  /** The entries as output items. */
  function EntryItems(entries: seq<Entry>): (r: seq<OutputItem>)
    ensures |r| == |entries| && forall k :: 0 <= k < |r| ==> r[k] == MapEntry(entries[k])
  {
    seq(|entries|, k requires 0 <= k < |entries| => MapEntry(entries[k]))
  }

  /** `generateKnownTypesMap()`: an empty line, the exported map, its entries, and the end
      of the declaration. */
  function GenerateKnownTypesMap(n: Naming, files: seq<FileDescriptor>): (r: seq<OutputItem>)
    ensures |r| == |AllMessages(files)| + 3
    ensures r[..2] == [EmptyLine, ExportMap(MapName)] && r[|r| - 1] == QuitMapDeclaration
    ensures r[2..|r| - 1] == EntryItems(StoreKnownTypes(n, files))
    ensures forall k :: 0 <= k < |r| ==> !r[k].Imports?
  {
    [EmptyLine, ExportMap(MapName)] + EntryItems(StoreKnownTypes(n, files)) + [QuitMapDeclaration]
  }

  /** `generate()`: the imports come first, then the map. */
  function Generate(n: Naming, fileSet: FileSet): (r: seq<OutputItem>)
    ensures |r| == |AllMessages(fileSet.files)| + 4
    ensures r[0] == Imports(ImportedFiles(n, fileSet.files))
    ensures r[1..] == GenerateKnownTypesMap(n, fileSet.files)
    ensures forall k :: 0 < k < |r| ==> !r[k].Imports?
  {
    var map_ := GenerateKnownTypesMap(n, fileSet.files);
    assert forall k :: 0 < k < |map_| + 1 ==> ([Imports(ImportedFiles(n, fileSet.files))] + map_)[k] == map_[k - 1];
    [Imports(ImportedFiles(n, fileSet.files))] + map_
  }
}
