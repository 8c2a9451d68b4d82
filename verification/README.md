# Spine base: descriptor linking and the code generators around it

This project is a Dafny model of the parts of the Spine `base` repository that handle
Protobuf descriptors. It states properties of each part and proves them.

- **Descriptor linking** (`Linker`). Unordered `FileDescriptorProto`s are built into
  `FileDescriptor`s in dependency order. Each file is sorted into one of three sets:
  resolved, partially resolved and unresolved.
- **Reading descriptor sets** (`FileDescriptors`) and walking their message types
  (`SourceFile`, `MessageType`).
- **Validating builders and field validation**: `VBTypeLookup`,
  `AbstractMethodConstructorBuilder`, `FieldValidator` and `EnumFieldValidator`.
- **Identifiers** (`Identifier`): their four kinds, packing into `Any` and back, and
  rendering as a string.
- **JavaScript generation**: map-field recognition (`Fields`) and the known-types map
  (`KnownTypesGenerator`).
- **Model-compiler helpers**: the `(by)` enrichment option (`ByOption`) and rejection Javadoc
  (`RejectionJavadoc`).
- **The Javadoc link style check** (`JavadocLinkCheck`).

Each Java class becomes one module. Mutable fields become the fields of an immutable
value. A method that mutates them becomes a function from the old value to the new one.
Exceptions become the `Err` case of a `Result` (wrappers.dfy). The few `descriptor.proto`
records the code reads are in protos.dfy.

`FileSet` is used by the linker, but its source is not part of this model. file_set.dfy gives an abstract model of it:
- an insertion-ordered sequence of linked descriptors;
- `add` appends;
- `union` concatenates;
- `find` keeps the descriptors whose file name is among the given names.

Where the code and the intended design part ways, the model follows the code:

- `Linker.doFindPartiallyResolved` removes every remaining file on its pass. It builds a
  file only when none of its imports is known. A file that imports one known file and one
  missing file therefore ends in none of the three sets (see "## Findings"). As a result:
  - the output of `link` depends on the order of its input (`LinkerScenarios.LinkDependsOnOrder`);
  - `unresolved` is still empty after `resolve()`, because `addUnresolved` always finds
    `remaining` empty (`Linker.Resolve` keeps `unresolved` as it was).
  `Linker.KeepingResolve` is the corrected pipeline. It keeps every file that was not built in
  `remaining`, so the three sets partition the input.
- `EnumFieldValidator` overrides a method named `isValueNotSet`. The abstract method
  `FieldValidator.validate` calls is `isNotSet`, so as written the enum class does not
  implement it. The model takes the evident intent: an enum value is unset when its number
  is zero or less.
- `VBTypeLookup` caches each top-level message under its descriptor. A message declared
  with an equal descriptor in two files takes the Java package of the later file, even in
  the type built for the earlier one (`VBTypeLookups.SharedMessageTakesLaterPackage`).

## Model

| member | source | states |
|---|---|---|
| Linker.NewLinker | base/src/main/java/io/spine/code/proto/Linker.java:56-62 | a new linker keeps the input, has all of it remaining and has three empty sets |
| Linker.NewLinkerIsValid | base/src/main/java/io/spine/code/proto/Linker.java:56-62 | a new linker satisfies the linker invariant: outputs come from the input, resolved is dependency-ordered and fully linked, the other sets are linked to nothing |
| Linker.FileNames | base/src/main/java/io/spine/code/proto/Linker.java:169-174 | converting import names fails exactly when some name lacks the `.proto` extension, naming that file |
| Linker.Dependencies | base/src/main/java/io/spine/code/proto/Linker.java:169-174 | a file's dependency names convert exactly when every import is a file name, and are then the imports unchanged |
| Linker.BuildFrom | base/src/main/java/io/spine/code/proto/Linker.java:91 | building succeeds exactly when the descriptor builder accepts the file with those dependencies, and links the file against exactly their names |
| Linker.NoDependenciesPass | base/src/main/java/io/spine/code/proto/Linker.java:86-96 | files without imports are added to resolved in order and linked to nothing; the rest stay in remaining in order; it fails exactly when the builder rejects an import-free file |
| Linker.NoDependenciesPassMoves | base/src/main/java/io/spine/code/proto/Linker.java:86-96 | the first phase loses and invents no file, keeps resolved dependency-ordered, moves every import-free file and keeps every importing one |
| Linker.ResolveStep | base/src/main/java/io/spine/code/proto/Linker.java:113-121 | a file is built exactly when all its imports are resolved, linked against the resolved files it imports |
| Linker.ResolveStepLinksAll | base/src/main/java/io/spine/code/proto/Linker.java:115-118 | a file built in the second phase is linked against every one of its imports |
| Linker.ResolvePass | base/src/main/java/io/spine/code/proto/Linker.java:109-124 | a pass only appends to resolved and reports progress exactly when it added a file |
| Linker.ResolvePassConserves | base/src/main/java/io/spine/code/proto/Linker.java:109-124 | a pass moves files from remaining to resolved without losing or duplicating any |
| Linker.ResolvePassKeepsInput | base/src/main/java/io/spine/code/proto/Linker.java:109-124 | the files a pass keeps come from those it was given |
| Linker.ResolvePassKeepsOrder | base/src/main/java/io/spine/code/proto/Linker.java:109-124 | a pass keeps resolved in dependency order, each file fully linked |
| Linker.ResolvePassStuck | base/src/main/java/io/spine/code/proto/Linker.java:109-124 | a pass that adds nothing keeps remaining as it was, and then no remaining file has all its imports resolved |
| Linker.ResolvePassFails | base/src/main/java/io/spine/code/proto/Linker.java:109-124 | a pass succeeds only on well-named imports, and always does when the builder accepts every file |
| Linker.ResolvePassShrinks | base/src/main/java/io/spine/code/proto/Linker.java:104-105 | a pass that makes progress leaves fewer files remaining, so the loop ends |
| Linker.FindResolved | base/src/main/java/io/spine/code/proto/Linker.java:102-107 | the fixpoint loop only appends to resolved |
| Linker.FindResolvedConserves | base/src/main/java/io/spine/code/proto/Linker.java:102-107 | the second phase loses and invents no file |
| Linker.FindResolvedKeepsInput | base/src/main/java/io/spine/code/proto/Linker.java:102-107 | what stays remaining came from remaining |
| Linker.FindResolvedKeepsOrder | base/src/main/java/io/spine/code/proto/Linker.java:102-107 | resolved stays in dependency order and fully linked |
| Linker.FindResolvedIsFixpoint | base/src/main/java/io/spine/code/proto/Linker.java:102-107 | after the loop, no remaining file has all its imports resolved |
| Linker.FindResolvedFails | base/src/main/java/io/spine/code/proto/Linker.java:102-107 | the loop succeeds only on well-named imports, and always does when the builder accepts every file |
| Linker.PartialStep | base/src/main/java/io/spine/code/proto/Linker.java:139-146 | a straggler is built, linked to nothing, exactly when none of its imports is resolved or partially resolved |
| Linker.PartialPass | base/src/main/java/io/spine/code/proto/Linker.java:133-150 | the pass only appends to partially resolved, every built file is also known to later files, and progress means something was added |
| Linker.PartialPassAddsFromTodo | base/src/main/java/io/spine/code/proto/Linker.java:133-150 | the files the pass adds come from remaining |
| Linker.PartialPassAddsIsolated | base/src/main/java/io/spine/code/proto/Linker.java:139-146 | every file the pass adds is linked to nothing and imports no file known before it |
| Linker.PartialPassDropped | base/src/main/java/io/spine/code/proto/Linker.java:141-147 | every file of remaining is either added or imports a known file; the latter is dropped |
| Linker.PartialPassFails | base/src/main/java/io/spine/code/proto/Linker.java:133-150 | the pass succeeds only on well-named imports, and always does when the builder accepts every file |
| Linker.FindPartiallyResolved | base/src/main/java/io/spine/code/proto/Linker.java:126-131 | the third phase empties remaining and only appends to partially resolved |
| Linker.FindPartiallyResolvedRunsOnePass | base/src/main/java/io/spine/code/proto/Linker.java:126-150 | the third phase's loop runs exactly one pass, since the pass empties remaining |
| Linker.AddUnresolved | base/src/main/java/io/spine/code/proto/Linker.java:160-167 | every remaining file is added to unresolved, in order, linked to nothing; it fails exactly when the builder rejects one |
| Linker.Resolve | base/src/main/java/io/spine/code/proto/Linker.java:77-84 | a second call fails the state check; a success empties remaining, only appends to resolved and partially resolved, and leaves unresolved as it was |
| Linker.ResolveHasSteps | base/src/main/java/io/spine/code/proto/Linker.java:77-84 | a successful resolve is the four phases run in order |
| Linker.ResolveKeepsInputs | base/src/main/java/io/spine/code/proto/Linker.java:77-84 | resolve invents no file: the three sets hold at most what they held plus what remained |
| Linker.ResolveKeepsOrder | base/src/main/java/io/spine/code/proto/Linker.java:77-84 | resolve keeps resolved in dependency order and fully linked |
| Linker.ResolvePartialsUnlinked | base/src/main/java/io/spine/code/proto/Linker.java:139-144 | every file that resolve adds to partially resolved is built with an empty list of dependencies |
| Linker.ResolvePreservesValid | base/src/main/java/io/spine/code/proto/Linker.java:77-84 | resolve preserves the linker invariant |
| Linker.ResolveResolvesImportFree | base/src/main/java/io/spine/code/proto/Linker.java:86-96 | every import-free file ends in resolved |
| Linker.ResolveCovers | base/src/main/java/io/spine/code/proto/Linker.java:77-84 | every input file ends resolved or partially resolved, or imports some file that did |
| Linker.ResolvePartialsAreIsolated | base/src/main/java/io/spine/code/proto/Linker.java:139-146 | no partially resolved file imports a resolved one |
| Linker.ResolveNeedsWellNamed | base/src/main/java/io/spine/code/proto/Linker.java:114 | resolve succeeds only when every import is a `.proto` file name |
| Linker.ResolveSucceeds | base/src/main/java/io/spine/code/proto/Linker.java:77-84 | on a fresh linker, well-named imports and a builder that accepts every file, resolve succeeds |
| Linker.ResolveRunsOnce | base/src/main/java/io/spine/code/proto/Linker.java:79 | calling resolve again on a resolved, non-empty linker fails the state check |
| Linker.Link | base/src/main/java/io/spine/code/proto/Linker.java:64-75 | link succeeds exactly when resolve does; a builder failure becomes the state error "Unable to link descriptor set files" |
| Linker.LinkOutput | base/src/main/java/io/spine/code/proto/Linker.java:64-75 | the linked set holds only input files, holds every import-free one, and needs well-named imports |
| Linker.LinkSucceeds | base/src/main/java/io/spine/code/proto/Linker.java:64-75 | link succeeds on well-named inputs the builder accepts |
| Linker.KeepingPartialPass | base/src/main/java/io/spine/code/proto/Linker.java:133-150 | the corrected pass only appends to partially resolved and reports progress exactly when it added a file |
| Linker.KeepingPartialPassConserves | base/src/main/java/io/spine/code/proto/Linker.java:133-150 | the corrected pass moves files from remaining to partially resolved without losing any |
| Linker.KeepingPartialPassFails | base/src/main/java/io/spine/code/proto/Linker.java:133-150 | the corrected pass succeeds only on well-named imports, and always does when the builder accepts every file |
| Linker.KeepingFindConserves | base/src/main/java/io/spine/code/proto/Linker.java:126-131 | the corrected third phase loses no file |
| Linker.KeepingResolvePartitions | base/src/main/java/io/spine/code/proto/Linker.java:77-84 | with the corrected third phase, the three sets together hold exactly what they held plus what remained |
| Linker.KeepingResolveSucceeds | base/src/main/java/io/spine/code/proto/Linker.java:77-84 | the corrected resolve succeeds on a fresh linker with well-named imports the builder accepts |
| Linker.KeepingLinkKeepsEveryFile | base/src/main/java/io/spine/code/proto/Linker.java:64-75 | the corrected link returns every input file exactly once |
| Linker.KeepingLinkIgnoresOrder | base/src/main/java/io/spine/code/proto/Linker.java:64-75 | the corrected link returns the same files, counted with repetition, for any permutation of its input |
| LinkerScenarios.ChainOrderIrrelevant | base/src/main/java/io/spine/code/proto/Linker.java:102-124 | linking three files that import one another in a chain gives the same set whether they come in chain or reverse order |
| LinkerScenarios.MissingImportIsPartial | base/src/main/java/io/spine/code/proto/Linker.java:139-144 | a file importing only a missing file is partially resolved; an import-free one is resolved |
| LinkerScenarios.PartlyMissingImportIsDropped | base/src/main/java/io/spine/code/proto/Linker.java:141-147 | a file importing one present and one missing file ends in no set |
| LinkerScenarios.PartlyMissingImportIsKept | base/src/main/java/io/spine/code/proto/Linker.java:141-147 | with the corrected third phase that file ends in unresolved |
| LinkerScenarios.LinkDependsOnOrder | base/src/main/java/io/spine/code/proto/Linker.java:133-150 | two orders of the same two files give different linked sets |
| FileDescriptors.IsNotGoogleProto | base/src/main/java/io/spine/tools/proto/FileDescriptors.java:198-209 | a file is standard exactly when its package contains `google` |
| FileDescriptors.ParseAndFilter | base/src/main/java/io/spine/tools/proto/FileDescriptors.java:109-138 | a missing file is an argument error and an unreadable one a state error, with their messages; otherwise the files that pass the filter, in order |
| FileDescriptors.Parse | base/src/main/java/io/spine/tools/proto/FileDescriptors.java:88-90 | every file of the descriptor set, in order, or the same two errors |
| FileDescriptors.ParseSkipStandard | base/src/main/java/io/spine/tools/proto/FileDescriptors.java:96-98 | exactly the files whose package does not contain `google`, in order |
| FileDescriptors.Load | base/src/main/java/io/spine/tools/proto/FileDescriptors.java:143-150 | no provider is a state error; otherwise the providers' descriptor sets concatenated |
| FileDescriptors.ReduceIsConcat | base/src/main/java/io/spine/tools/proto/FileDescriptors.java:147 | the reduction `load` runs is concatenation |
| FileDescriptors.ConcatMembers | base/src/main/java/io/spine/tools/proto/FileDescriptors.java:165-169 | a descriptor set is loaded exactly when some provider supplies it |
| FileDescriptors.ExtractFiles | base/src/main/java/io/spine/tools/proto/FileDescriptors.java:155-163 | the files extracted are exactly those of the given descriptor sets |
| SourceFiles.IsRejections | base/src/main/java/io/spine/code/proto/SourceFile.java:80-96 | a file declares rejections exactly when it has no `java_multiple_files` and its outer class name is absent or valid |
| SourceFiles.MatchesIsFilteredPreOrder | base/src/main/java/io/spine/code/proto/SourceFile.java:108-120 | the recursive collection equals the pre-order of the message tree filtered by the predicate |
| SourceFiles.AllThat | base/src/main/java/io/spine/code/proto/SourceFile.java:108-120 | `allThat` returns the matching messages of the file, nested ones included, in pre-order |
| SourceFiles.AllThatInFiles | base/src/main/java/io/spine/code/proto/SourceFile.java:130-139 | over several files, the matching messages of each file in turn |
| SourceFiles.NestedMatchCollected | base/src/main/java/io/spine/code/proto/SourceFile.java:112-117 | a matching nested message is collected |
| SourceFiles.TopLevelMatchCollected | base/src/main/java/io/spine/code/proto/SourceFile.java:108-120 | a top-level message is collected exactly when it matches |
| MessageTypes.AddType | base/src/main/java/io/spine/code/proto/MessageType.java:67-76 | a map entry contributes nothing; any other message comes first, and no map entry is ever collected |
| MessageTypes.AllFrom | base/src/main/java/io/spine/code/proto/MessageType.java:58-65 | a file without messages gives none, and no map entry is among the types |
| MessageTypes.AddTypes | base/src/main/java/io/spine/code/proto/MessageType.java:61-63 | no map entry is ever collected; `MessageTypes.AddTypesReachable` states exactly which types are |
| MessageTypes.AddTypesReachable | base/src/main/java/io/spine/code/proto/MessageType.java:67-76 | a message is collected exactly when it is reachable through nesting without passing a map entry |
| MessageTypes.AllFromReachable | base/src/main/java/io/spine/code/proto/MessageType.java:58-65 | the types of a file are exactly its messages reachable without passing a map entry |
| MessageTypes.MapEntrySubtreeSkipped | base/src/main/java/io/spine/code/proto/MessageType.java:68-71 | a message reachable only under a map entry is not collected |
| MessageTypes.AddTypeIsPreOrder | base/src/main/java/io/spine/code/proto/MessageType.java:73-75 | a message is followed by exactly its nested types reachable without passing a map entry |
| FieldValidation.ToValueList | base/src/main/java/io/spine/validate/FieldValidator.java:107-118 | a list gives its items, a map its values in order, anything else a one-element list |
| FieldValidation.ErrorMsgFormat | base/src/main/java/io/spine/validate/FieldValidator.java:276-282 | the custom message when it is not empty, else the default one |
| FieldValidation.MissingViolation | base/src/main/java/io/spine/validate/FieldValidator.java:260-268 | the violation carries the field path and the custom or default `if_missing` message |
| FieldValidation.CheckIfRequiredAndNotSet | base/src/main/java/io/spine/validate/FieldValidator.java:233-243 | one missing-value violation exactly when the field is required or strict and its value is not set |
| FieldValidation.ValidateEntityId | base/src/main/java/io/spine/validate/FieldValidator.java:194-207 | a repeated entity ID gets the repeated-field violation; otherwise one missing-value violation exactly when its value is not set |
| FieldValidation.Validate | base/src/main/java/io/spine/validate/FieldValidator.java:162-172 | the violations in order: missing value, entity ID, then the own rules when validated; none exactly when the field passes every check that applies |
| FieldValidation.NewEnumValidator | base/src/main/java/io/spine/validate/EnumFieldValidator.java:38-42 | an enum validator is never strict, so it is required exactly when the field option says so |
| FieldValidation.ValidateEnum | base/src/main/java/io/spine/validate/EnumFieldValidator.java:44-59 | a singular enum with a number of zero or less gets one missing-value violation per applying check, and any other value none |
| FieldValidation.FieldValueNotSet | base/src/main/java/io/spine/validate/FieldValidator.java:127-131 | a definition with no contract: the value is unset when there is no value, or when the field is singular and its first value is unset |
| FieldValidation.IsRequiredField | base/src/main/java/io/spine/validate/FieldValidator.java:212-215 | a definition with no contract: a field is required when it has the required option or validation is strict |
| FieldValidation.ShouldValidate | base/src/main/java/io/spine/validate/FieldValidator.java:301-303 | a definition with no contract: a singular field is always validated, a repeated or map field only with the `validate` option |
| FieldValidation.IsRequiredEntityIdField | base/src/main/java/io/spine/validate/FieldValidator.java:317-320 | a definition with no contract: the field is the first field of a message in a commands file |
| Identifiers.FirstMatch | base/src/main/java/io/spine/base/Identifier.java:483-490 | the first type in declaration order that matches, or none exactly when no type matches |
| Identifiers.TypeOfValue | base/src/main/java/io/spine/base/Identifier.java:483-490 | the type of a supported value matches it; an unsupported value is an argument error |
| Identifiers.GetType | base/src/main/java/io/spine/base/Identifier.java:104-111 | a class has a type exactly when it is `String`, `Integer`, `Long` or a message |
| Identifiers.CheckSupported | base/src/main/java/io/spine/base/Identifier.java:148-153 | exactly the four identifier classes are supported |
| Identifiers.GetDefaultValue | base/src/main/java/io/spine/base/Identifier.java:94-99 | the empty string, zero, zero, or a message of the class's own type with no field set; for a wrapper class that is the wrapper holding "" or 0 |
| Identifiers.DefaultValueHasClassType | base/src/main/java/io/spine/base/Identifier.java:94-111 | the default value of a class has that class's type |
| Identifiers.ExactlyOneValueType | base/src/main/java/io/spine/base/Identifier.java:358-512 | a value matches exactly one identifier type |
| Identifiers.ToMessage | base/src/main/java/io/spine/base/Identifier.java:498-501 | simple values become their wrapper messages; a message stays a message |
| Identifiers.PackMessage | base/src/main/java/io/spine/base/Identifier.java:507-511 | packing wraps the message in `Any`, keeping it as the content, under a type URL with the assumed `type.googleapis.com/` prefix |
| Identifiers.Pack | base/src/main/java/io/spine/base/Identifier.java:173-178 | every supported value packs into the `Any` of its message; an unsupported one is an error |
| Identifiers.Unpack | base/src/main/java/io/spine/base/Identifier.java:199-213 | unpacking always succeeds, with the type that matches the packed message |
| Identifiers.ExactlyOneMessageType | base/src/main/java/io/spine/base/Identifier.java:453-458 | every message matches exactly one identifier type |
| Identifiers.UnpackPackSimple | base/src/main/java/io/spine/base/Identifier.java:173-213 | unpacking a packed string, integer or long gives it back |
| Identifiers.UnpackPackMessage | base/src/main/java/io/spine/base/Identifier.java:173-213 | unpacking a packed message that is not of a wrapper type gives it back |
| Identifiers.UnpackPackWrapper | base/src/main/java/io/spine/base/Identifier.java:173-213 | a packed wrapper message unpacks as the simple value it wraps, not as a message |
| Identifiers.DefaultMessageRoundTrip | base/src/main/java/io/spine/base/Identifier.java:474-479 | the default value of a message class comes back from pack and unpack exactly when the class is not a wrapper; a wrapper's default comes back as "" or 0 |
| Identifiers.ReplaceColonSpaceRemovesAll | base/src/main/java/io/spine/base/Identifier.java:296-301 | after the replacement no `": "` is left |
| Identifiers.ReplaceColonSpaceIdentity | base/src/main/java/io/spine/base/Identifier.java:296-301 | a string without `": "` is unchanged |
| Identifiers.IdMessageToString | base/src/main/java/io/spine/base/Identifier.java:261-276 | an unregistered message with no field set is `EMPTY`; one with several fields renders without `": "` |
| Identifiers.Convert | base/src/main/java/io/spine/base/Identifier.java:278-294 | no field gives `EMPTY`, one scalar field its text, several fields a text without `": "` |
| Identifiers.From | base/src/main/java/io/spine/base/Identifier.java:74-79 | an identifier is made exactly from a supported value, with the matching type |
| Identifiers.IdentifierToString | base/src/main/java/io/spine/base/Identifier.java:325-350 | never empty: an empty string is `EMPTY`, other strings stay, numbers print in decimal |
| Identifiers.ToString | base/src/main/java/io/spine/base/Identifier.java:243-258 | null is `NULL`, an unsupported value is an error, and supported values render as the instance does |
| Identifiers.MessageIdRendering | base/src/main/java/io/spine/base/Identifier.java:261-294 | a message with no field set renders as `EMPTY`, one with a single scalar field as that field |
| Identifiers.PackedRendersAsMessage | base/src/main/java/io/spine/base/Identifier.java:243-258 | a packed message renders like the message it packs |
| JsFields.IsMap | base/src/main/java/io/spine/code/js/Fields.java:110-124 | a field is a map exactly when it is a repeated message whose type is named after the field with `Entry` |
| JsFields.IsRepeated | base/src/main/java/io/spine/code/js/Fields.java:96-101 | a field is repeated exactly when it is repeated and not a map |
| JsFields.FieldKinds | base/src/main/java/io/spine/code/js/Fields.java:96-124 | a singular field is neither; a repeated field is exactly one of repeated and map |
| JsFields.MessageAndEnumExclusive | base/src/main/java/io/spine/code/js/Fields.java:67-84 | no field is both a message and an enum |
| JsFields.IsMessage | base/src/main/java/io/spine/code/js/Fields.java:67-71 | a definition with no contract: the field is of message type; `JsFields.MessageAndEnumExclusive` states that no field is also an enum |
| JsFields.IsEnum | base/src/main/java/io/spine/code/js/Fields.java:80-84 | a definition with no contract: the field is of enum type |
| JsFields.KeyDescriptor | base/src/main/java/io/spine/code/js/Fields.java:138-145 | the entry's `key` field for a map; an argument error with its message for any other field |
| JsFields.ValueDescriptor | base/src/main/java/io/spine/code/js/Fields.java:159-166 | the entry's `value` field for a map; an argument error with its message for any other field |
| JsFields.MapFieldRecognised | base/src/main/java/io/spine/code/js/Fields.java:110-166 | a field declared with the map syntax is a map, not repeated, with the entry's key and value |
| JsFields.RepeatedMessageIsNotMap | base/src/main/java/io/spine/code/js/Fields.java:96-145 | a repeated message of another type is repeated, and asking it for a key or value fails |
| JsFields.CamelCaseExample | base/src/test/java/io/spine/code/js/FieldNameTest.java:41-47 | `primitive_field` becomes `PrimitiveField` |
| JsFields.CamelCaseOfCamelCase | base/src/main/java/io/spine/code/js/Fields.java:110-124 | a name that is already camel case is unchanged |
| JsFields.CamelCaseKeepsPrefix | base/src/main/java/io/spine/code/js/Fields.java:110-124 | a prefix without underscores passes through unchanged |
| ByOptions.SplitAllJoin | gradle-plugins/model-compiler/src/main/java/io/spine/tools/compiler/enrichment/ByOption.java:120-130 | joining the pieces of a split with the separator gives back the text |
| ByOptions.SplitAllPieces | gradle-plugins/model-compiler/src/main/java/io/spine/tools/compiler/enrichment/ByOption.java:120-130 | no piece of a split contains the separator |
| ByOptions.FieldReferences | gradle-plugins/model-compiler/src/main/java/io/spine/tools/compiler/enrichment/ByOption.java:120-130 | a value without a pipe is one reference; otherwise `String.split` drops only trailing empty pieces |
| ByOptions.ParseRefs | gradle-plugins/model-compiler/src/main/java/io/spine/tools/compiler/enrichment/ByOption.java:99-113 | the loop succeeds exactly when every reference is valid |
| ByOptions.ParseRefsError | gradle-plugins/model-compiler/src/main/java/io/spine/tools/compiler/enrichment/ByOption.java:99-113 | the error is that of the first invalid reference, the wildcard message or the parse message |
| ByOptions.ParseRefsMembers | gradle-plugins/model-compiler/src/main/java/io/spine/tools/compiler/enrichment/ByOption.java:104-113 | a name is parsed exactly when it is the type name of some reference |
| ByOptions.ParseRefsNonBlank | gradle-plugins/model-compiler/src/main/java/io/spine/tools/compiler/enrichment/ByOption.java:109-113 | no parsed type name is blank |
| ByOptions.Parse | gradle-plugins/model-compiler/src/main/java/io/spine/tools/compiler/enrichment/ByOption.java:90-117 | parsing succeeds exactly when every reference of the value is valid, with no blank name |
| ByOptions.GroupNames | gradle-plugins/model-compiler/src/main/java/io/spine/tools/compiler/enrichment/ByOption.java:136-150 | a blank event name stops the loop with the invalid-value error; otherwise it succeeds |
| ByOptions.GroupNamesIsEventGroup | gradle-plugins/model-compiler/src/main/java/io/spine/tools/compiler/enrichment/ByOption.java:136-150 | the hash set holds exactly the event names other than the wildcard |
| ByOptions.Group | gradle-plugins/model-compiler/src/main/java/io/spine/tools/compiler/enrichment/ByOption.java:132-159 | the enrichment's full name, and the target events joined in the set's iteration order |
| ByOptions.GroupedTargets | gradle-plugins/model-compiler/src/main/java/io/spine/tools/compiler/enrichment/ByOption.java:132-159 | the joined targets are each non-wildcard event once, in some order |
| ByOptions.WildcardsGroupToNothing | gradle-plugins/model-compiler/src/main/java/io/spine/tools/compiler/enrichment/ByOption.java:144-149 | wildcard events alone give no target |
| ByOptions.Collect | gradle-plugins/model-compiler/src/main/java/io/spine/tools/compiler/enrichment/ByOption.java:79-84 | collecting succeeds exactly when parsing does, keyed by the enrichment's full name |
| ByOptions.WildcardAloneParses | gradle-plugins/model-compiler/src/main/java/io/spine/tools/compiler/enrichment/ByOption.java:99-103 | a single wildcard reference parses to the wildcard |
| ByOptions.WildcardAloneHasNoTarget | gradle-plugins/model-compiler/src/main/java/io/spine/tools/compiler/enrichment/ByOption.java:79-159 | a single wildcard reference collects to an empty target list |
| ByOptions.WildcardAmongSeveralFails | gradle-plugins/model-compiler/src/main/java/io/spine/tools/compiler/enrichment/ByOption.java:99-103 | a wildcard among several references fails |
| ByOptions.CollectFailsOnlyInParse | gradle-plugins/model-compiler/src/main/java/io/spine/tools/compiler/enrichment/ByOption.java:79-84 | when parsing succeeds, collecting does too |
| RejectionJavadocs.TopLevelMessageIndex | tools/model-compiler/src/main/java/io/spine/tools/compiler/rejection/RejectionJavadoc.java:210-225 | the first position of the rejection among the file's messages, or the state error naming the file |
| RejectionJavadocs.LocationPaths | tools/model-compiler/src/main/java/io/spine/tools/compiler/rejection/RejectionJavadoc.java:185-208 | the paths point at the rejection and at its field, and fail exactly when the file lacks the rejection |
| RejectionJavadocs.MessageLocationPath | tools/model-compiler/src/main/java/io/spine/tools/compiler/rejection/RejectionJavadoc.java:185-191 | a path exists exactly when the file declares the rejection, and it is the message-type field number followed by the rejection's position among the file's messages |
| RejectionJavadocs.FieldLocationPath | tools/model-compiler/src/main/java/io/spine/tools/compiler/rejection/RejectionJavadoc.java:201-208 | the message path, the field-list field number, then the field's position in the rejection, or -1 for a field it does not declare |
| RejectionJavadocs.FindLocation | tools/model-compiler/src/main/java/io/spine/tools/compiler/rejection/RejectionJavadoc.java:239-254 | a location with that path, or none exactly when no location has it |
| RejectionJavadocs.LeadingComments | tools/model-compiler/src/main/java/io/spine/tools/compiler/rejection/RejectionJavadoc.java:164-178 | no source info is a state error, as is a missing location; otherwise the location's comments |
| RejectionJavadocs.RejectionCommentsLookup | tools/model-compiler/src/main/java/io/spine/tools/compiler/rejection/RejectionJavadoc.java:153-156 | the rejection's comments or the first error met: missing rejection, then missing source info, then missing location |
| RejectionJavadocs.Put | tools/model-compiler/src/main/java/io/spine/tools/compiler/rejection/RejectionJavadoc.java:268 | after `put` the entry is in the map, and nothing else was added |
| RejectionJavadocs.PutAppends | tools/model-compiler/src/main/java/io/spine/tools/compiler/rejection/RejectionJavadoc.java:268 | putting a new key into a linked hash map appends the entry |
| RejectionJavadocs.CommentedFieldsFromFails | tools/model-compiler/src/main/java/io/spine/tools/compiler/rejection/RejectionJavadoc.java:262-272 | the loop fails exactly when some field's comment lookup fails |
| RejectionJavadocs.CommentedFieldsFromContents | tools/model-compiler/src/main/java/io/spine/tools/compiler/rejection/RejectionJavadoc.java:262-272 | the loop appends each commented field with its comment, in field order |
| RejectionJavadocs.CommentedFieldsSpec | tools/model-compiler/src/main/java/io/spine/tools/compiler/rejection/RejectionJavadoc.java:262-272 | the map holds exactly the commented fields with their comments, in field order |
| RejectionJavadocs.CommentedFields | tools/model-compiler/src/main/java/io/spine/tools/compiler/rejection/RejectionJavadoc.java:262-272 | the map is built exactly when every field's comment lookup succeeds, and is empty for a rejection without fields |
| RejectionJavadocs.MaxNameLength | tools/model-compiler/src/main/java/io/spine/tools/compiler/rejection/RejectionJavadoc.java:281-300 | the length of the longest field name: no name is longer and one is that long |
| RejectionJavadocs.ForClass | tools/model-compiler/src/main/java/io/spine/tools/compiler/rejection/RejectionJavadoc.java:88-106 | the escaped comments inside `<pre>` when present, then the type line; lookup errors propagate |
| RejectionJavadocs.ParamLine | tools/model-compiler/src/main/java/io/spine/tools/compiler/rejection/RejectionJavadoc.java:126-130 | `@param `, the name, the offset in spaces, then the text |
| RejectionJavadocs.Params | tools/model-compiler/src/main/java/io/spine/tools/compiler/rejection/RejectionJavadoc.java:122-131 | the lines succeed exactly when no offset is negative, which `Strings.repeat` refuses |
| RejectionJavadocs.AlignedLines | tools/model-compiler/src/main/java/io/spine/tools/compiler/rejection/RejectionJavadoc.java:122-131 | every comment starts in the same column, one past the longest name |
| RejectionJavadocs.ParamsAreAligned | tools/model-compiler/src/main/java/io/spine/tools/compiler/rejection/RejectionJavadoc.java:122-131 | the parameter text is the aligned lines, concatenated |
| RejectionJavadocs.ForConstructor | tools/model-compiler/src/main/java/io/spine/tools/compiler/rejection/RejectionJavadoc.java:113-135 | the header alone without commented fields, else the header, a blank line and the parameters; lookup errors propagate |
| RejectionJavadocs.ForConstructorAligned | tools/model-compiler/src/main/java/io/spine/tools/compiler/rejection/RejectionJavadoc.java:113-135 | with commented fields, the header and the aligned parameter lines of the longest name |
| VBTypeLookups.CacheTypes | tools/model-compiler/src/main/java/io/spine/tools/compiler/validation/VBTypeLookup.java:155-159 | the cache maps each declared message to a file that declares it |
| VBTypeLookups.CacheKeys | tools/model-compiler/src/main/java/io/spine/tools/compiler/validation/VBTypeLookup.java:144-159 | the cache holds exactly the top-level messages of the files |
| VBTypeLookups.CacheLast | tools/model-compiler/src/main/java/io/spine/tools/compiler/validation/VBTypeLookup.java:155-159 | the cache maps a message to the last file that declares it |
| VBTypeLookups.NewType | tools/model-compiler/src/main/java/io/spine/tools/compiler/validation/VBTypeLookup.java:124-129 | the builder class is the message name plus `VBuilder`, in the cached file's Java package |
| VBTypeLookups.CreateMetadata | tools/model-compiler/src/main/java/io/spine/tools/compiler/validation/VBTypeLookup.java:112-122 | exactly one type per non-standard top-level message of the file |
| VBTypeLookups.FromAllFiles | tools/model-compiler/src/main/java/io/spine/tools/compiler/validation/VBTypeLookup.java:99-110 | the union of the types of every file |
| VBTypeLookups.Collect | tools/model-compiler/src/main/java/io/spine/tools/compiler/validation/VBTypeLookup.java:82-97 | every non-standard top-level message gets its type, and every type is such a message's, named and packaged as `newType` does |
| VBTypeLookups.OwnPackage | tools/model-compiler/src/main/java/io/spine/tools/compiler/validation/VBTypeLookup.java:62-71 | a message declared once takes its own file's package, and is skipped exactly when that package contains `com.google.protobuf` |
| VBTypeLookups.IsNotStandardType | tools/model-compiler/src/main/java/io/spine/tools/compiler/validation/VBTypeLookup.java:62-71 | a definition with no contract: the Java package the cache gives the message does not contain `com.google.protobuf`; `VBTypeLookups.OwnPackage` states what that means for a message declared once |
| VBTypeLookups.SharedMessageTakesLaterPackage | tools/model-compiler/src/main/java/io/spine/tools/compiler/validation/VBTypeLookup.java:131-136 | a message declared in two files takes the later file's package |
| MethodConstructorBuilders.NewBuilder | gradle-plugins/model-compiler/src/main/java/io/spine/tools/compiler/validation/AbstractMethodConstructorBuilder.java:41-47 | a fresh builder has index 0 and every reference unset |
| MethodConstructorBuilders.SetFieldIndex | gradle-plugins/model-compiler/src/main/java/io/spine/tools/compiler/validation/AbstractMethodConstructorBuilder.java:59-63 | a negative index is an argument error; otherwise only the index changes |
| MethodConstructorBuilders.SetJavaPackage | gradle-plugins/model-compiler/src/main/java/io/spine/tools/compiler/validation/AbstractMethodConstructorBuilder.java:65-69 | null is a null-pointer error; otherwise only the package changes |
| MethodConstructorBuilders.SetJavaClass | gradle-plugins/model-compiler/src/main/java/io/spine/tools/compiler/validation/AbstractMethodConstructorBuilder.java:71-75 | null is a null-pointer error; otherwise only the class changes |
| MethodConstructorBuilders.SetTypeCache | gradle-plugins/model-compiler/src/main/java/io/spine/tools/compiler/validation/AbstractMethodConstructorBuilder.java:77-81 | null is a null-pointer error; otherwise only the cache changes |
| MethodConstructorBuilders.SetField | gradle-plugins/model-compiler/src/main/java/io/spine/tools/compiler/validation/AbstractMethodConstructorBuilder.java:83-87 | null is a null-pointer error; otherwise only the field changes |
| MethodConstructorBuilders.SetBuilderGenericClassName | gradle-plugins/model-compiler/src/main/java/io/spine/tools/compiler/validation/AbstractMethodConstructorBuilder.java:89-93 | null is a null-pointer error; otherwise only the generic class name changes |
| MethodConstructorBuilders.SetFieldType | gradle-plugins/model-compiler/src/main/java/io/spine/tools/compiler/validation/AbstractMethodConstructorBuilder.java:95-99 | null is a null-pointer error; otherwise only the field type changes |
| MethodConstructorBuilders.CheckFields | gradle-plugins/model-compiler/src/main/java/io/spine/tools/compiler/validation/AbstractMethodConstructorBuilder.java:138-146 | passes exactly when every reference is set and the index is not negative; the null check comes first |
| MethodConstructorBuilders.IndexNeverNegative | gradle-plugins/model-compiler/src/main/java/io/spine/tools/compiler/validation/AbstractMethodConstructorBuilder.java:59-63 | after any successful setter calls the index is not negative, so only unset references can fail the check |
| MethodConstructorBuilders.SettersCoverAll | gradle-plugins/model-compiler/src/main/java/io/spine/tools/compiler/validation/AbstractMethodConstructorBuilder.java:59-146 | a fresh builder on which every setter was called passes the check |
| MethodConstructorBuilders.LastJavaClassWins | gradle-plugins/model-compiler/src/main/java/io/spine/tools/compiler/validation/AbstractMethodConstructorBuilder.java:71-75 | the last Java class set is the one kept |
| KnownTypes.ImportedFiles | tools/proto-js-plugin/src/main/java/io/spine/js/generate/type/KnownTypesGenerator.java:91-104 | the JavaScript files of exactly the files that declare a message |
| KnownTypes.StoreTypesFromFile | tools/proto-js-plugin/src/main/java/io/spine/js/generate/type/KnownTypesGenerator.java:137-144 | one entry per message, in order; only the final one is flagged, and only in the last file |
| KnownTypes.StoreKnownTypes | tools/proto-js-plugin/src/main/java/io/spine/js/generate/type/KnownTypesGenerator.java:125-132 | one entry per top-level message of all the files; `KnownTypes.KnownTypesTexts` and `KnownTypes.KnownTypesLastFlag` state their texts and flags |
| KnownTypes.KnownTypesTexts | tools/proto-js-plugin/src/main/java/io/spine/js/generate/type/KnownTypesGenerator.java:125-132 | one entry per top-level message, in file order and then declaration order |
| KnownTypes.KnownTypesLastFlag | tools/proto-js-plugin/src/main/java/io/spine/js/generate/type/KnownTypesGenerator.java:125-144 | only the very last entry is flagged, and only when the last file declares a message |
| KnownTypes.AtMostOneLast | tools/proto-js-plugin/src/main/java/io/spine/js/generate/type/KnownTypesGenerator.java:125-144 | at most one entry is flagged as last |
| KnownTypes.NoLastWhenLastFileEmpty | tools/proto-js-plugin/src/main/java/io/spine/js/generate/type/KnownTypesGenerator.java:125-144 | a last file without messages leaves no entry flagged |
| KnownTypes.JsMapEntryLayout | tools/proto-js-plugin/src/main/java/io/spine/js/generate/type/KnownTypesGenerator.java:158-163 | an entry is the quoted type URL and the type name in brackets |
| KnownTypes.JsMapEntry | tools/proto-js-plugin/src/main/java/io/spine/js/generate/type/KnownTypesGenerator.java:158-163 | the entry text of one message; it has no contract of its own, and `KnownTypes.JsMapEntryLayout` states its layout |
| KnownTypes.GenerateKnownTypesMap | tools/proto-js-plugin/src/main/java/io/spine/js/generate/type/KnownTypesGenerator.java:115-120 | an empty line, the `types` map export, one entry per message, then the end of the map |
| KnownTypes.Generate | tools/proto-js-plugin/src/main/java/io/spine/js/generate/type/KnownTypesGenerator.java:82-85 | the imports come first and only first, then the map |
| JavadocLinkChecks.CheckSingleComment | tools/gradle-plugins/spine-codestyle-checker/src/main/java/io/spine/tools/codestyle/javadoc/JavadocLinkCheck.java:85-95 | a violation exactly when the pattern is found, carrying the matched text |
| JavadocLinkChecks.ViolationsOfSound | tools/gradle-plugins/spine-codestyle-checker/src/main/java/io/spine/tools/codestyle/javadoc/JavadocLinkCheck.java:70-83 | each violation is the match on the line its 1-based number names, in ascending line order |
| JavadocLinkChecks.ViolationsOfComplete | tools/gradle-plugins/spine-codestyle-checker/src/main/java/io/spine/tools/codestyle/javadoc/JavadocLinkCheck.java:70-83 | every line with a match is reported |
| JavadocLinkChecks.FindViolations | tools/gradle-plugins/spine-codestyle-checker/src/main/java/io/spine/tools/codestyle/javadoc/JavadocLinkCheck.java:70-83 | exactly the lines with a match, numbered from 1 in ascending order, each with its matched text |
| JavadocLinkChecks.ProcessResult | tools/gradle-plugins/spine-codestyle-checker/src/main/java/io/spine/tools/codestyle/javadoc/JavadocLinkCheck.java:53-67 | silent up to the threshold; above it the violations are reported, and the build fails exactly when the report type is an error |
| JavadocLinkChecks.OnViolation | tools/gradle-plugins/spine-codestyle-checker/src/main/java/io/spine/tools/codestyle/javadoc/JavadocLinkCheck.java:98-104 | the message is the link text, then the line number in decimal, then the file, each in its fixed wording |
| JavadocLinkChecks.OnViolationNamesLine | tools/gradle-plugins/spine-codestyle-checker/src/main/java/io/spine/tools/codestyle/javadoc/JavadocLinkCheck.java:98-104 | for the same link in the same file, two messages are equal exactly when the line numbers are |

## Left out

- Logging, in every class: `log().debug`, `warn` and `error` calls are left out. This includes the `if_missing` warning in `checkIfRequiredAndNotSet` and the message `onViolation` logs, though the text of that message is modelled.
- `FileSet`: its source is not part of this model. It is modelled as an ordered sequence of descriptors that does not de-duplicate equal names (file_set.dfy).
- FileDescriptors.Load: keeps the providers' descriptor sets in order, with repetitions. `readAllTypeProviders` collects them with `toSet()`, so the code may drop duplicates and reorder them. The set of descriptor sets loaded is the same (`FileDescriptors.ConcatMembers`).
- Reading files: the descriptor-set file, the type-provider resources and Java source files are given as values. `DescriptorSource` says whether the file was missing, unreadable or parsed.
- `FileDescriptor.buildFrom`: Protobuf's own validation of a file is the parameter `accepts`, and the `allowUnknownDependencies` flag is not modelled.
- `PROTO_TYPE_SEPARATOR`: its definition is not part of this model. It is taken to be `"."`, the separator of Protobuf type names (by_option.dfy).
- JsFields.CamelCase: the string form of `FieldName.from(field)` (Fields.java:120) is not part of this model. It is modelled as dropping underscores and upper-casing the letter after each, with ASCII-only upper-casing (js_fields.dfy).
- SourceFiles.IsRejections: `isValidOuterClassName` is not part of this model. It is taken to accept names ending with `Rejections` (SourceFile.java:94).
- RejectionJavadocs.MaxNameLength: Java's `String.length()` counts UTF-16 code units; the model counts characters. Names outside the Basic Multilingual Plane would measure differently.
- RejectionJavadocs.ParamLine: the offset is measured in characters, not UTF-16 code units, for the same reason.
- Identifiers.PackMessage: `AnyPacker.pack` is not part of this model. It is taken to use the `type.googleapis.com/` prefix of Protobuf's `Any.pack`; none of the round-trip lemmas depends on the URL.
- SourceFiles.AllThat and SourceFiles.MatchesIsFilteredPreOrder: `MessageDeclaration.getAllNested` (SourceFile.java:115-116) is not part of this model. It is taken to collect the matching nested types at every depth in pre-order, a type before the types nested in it; a breadth-first walk would give another order of the same types.
- RejectionJavadocs.LeadingComments: `LocationPath.toString` is not part of this model. The missing-location message renders the path as a list of numbers, `[4, 0]` (`PathText` in rejection_javadoc.dfy).
- MessageTypes.AddType and MessageTypes.AddTypeIsPreOrder: `TypeSet.Builder` is not part of this model. It is taken to keep the types in the order they are added, duplicates included, so the order these members state is the order of the `set.add` calls; `MessageTypes.AddTypesReachable` does not depend on it.
- FieldValidation.ValidateEnum: `EnumFieldValidator.isValueNotSet` (EnumFieldValidator.java:45) does not override the abstract `FieldValidator.isNotSet` (FieldValidator.java:144) that `validate` calls; the model follows the evident intent and treats an enum value with number zero or less as unset.
- Identifiers.GetDefaultValue: the default instance of `google.protobuf.Any` has an empty type URL and no payload, which the model's `Any` value cannot express; it stays an empty message named `google.protobuf.Any`, which `WellFormed` rules out, so no round-trip lemma speaks about it.
- VBTypeLookups.Collect: `messageTypeCache.cacheTypes(file)` (VBTypeLookup.java:146) fills a cache that `collect` does not read; that side effect is left out.
- ByOptions.Group: the hash-set iteration order of `eventGroup` is the parameter `iterate`; the model does not compute Java's `HashSet` order. `ByOptions.GroupedTargets` states the result up to that order.
- Functions that became parameters, because their sources are not part of this model: the Java case of a field name and `JavadocEscaper.escape` (rejection Javadoc), `TypeUrl.from`, `TypeName.from` and `FileName.from` (known types), the stringifier registry and `TextFormat.shortDebugString` (identifiers), the `JavadocPattern.LINK` regular expression (link check), and the value separator and package prefix of `ByOption`.
- `JsOutput` and `JsImportGenerator`: the generated JavaScript text is reduced to the sequence of items the generator passes to them.
- The Gradle wiring of `JavadocLinkCheck` (its configuration, `reportViolations` and the exception `logOrFail` raises) is reduced to the outcome `ProcessResult` returns.
- Validating builder generation beyond the type lookup and the method-constructor builder's fields and checks is left out, as are the concrete `build()` implementations.

## Findings

| source | as written | input that shows it | evidently intended | confidence | as-written member | corrected member |
|---|---|---|---|---|---|---|
| base/src/main/java/io/spine/code/proto/Linker.java:141-147 | `iterator.remove()` runs for every remaining file. A file is built into partially resolved only when none of its imports is known, so a file with some imports known is removed and never built | `a.proto` with no imports, and `w.proto` importing `a.proto` and `missing.proto`: `w.proto` ends in none of the three sets and `link` omits it | remove only the files that were built, so that `addUnresolved` puts `w.proto` into unresolved and every input file ends in exactly one set | not executed | LinkerScenarios.PartlyMissingImportIsDropped | Linker.KeepingLinkKeepsEveryFile |
