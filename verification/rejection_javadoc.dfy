/** `io.spine.tools.compiler.rejection.RejectionJavadoc`: the class and constructor Javadoc
    of a generated rejection, built from the leading comments that the descriptor's
    `SourceCodeInfo` records for the rejection message and its fields.

    A comment is looked up by its location path: `[4, i]` for the `i`-th top-level message
    of the file, and that path followed by `[2, j]` for the `j`-th field of the message.
    `JavadocEscaper.escape` and `FieldName.javaCase`, whose sources are not part of this
    model, are parameters. */
module RejectionJavadocs {
  import opened Wrappers
  import opened Strs
  import opened Protos
  import opened Seqs

  const OpeningPre: string := "<pre>"
  const ClosingPre: string := "</pre>"
  const LineSeparator: string := "\n"
  const CtorHeader: string := "Creates a new instance."
  const ParamTag: string := "@param "

  /** A `RejectionDeclaration`: the rejection message, the file declaring it, and the Java
      package and simple class name of the generated rejection. */
  datatype RejectionDeclaration = RejectionDeclaration(
    file: FileProto,
    message: MessageProto,
    javaPackage: string,
    simpleClassName: string)

  /** An entry of the field-to-comment `LinkedHashMap`. */
  datatype CommentedField = CommentedField(field: FieldProto, comment: string)

  const SourceInfoMissing: string :=
    "To enable rejection generation, please configure the Gradle Protobuf plugin as follows: "
    + "`task.descriptorSetOptions.includeSourceInfo = true`."

  function NotInFile(d: RejectionDeclaration): string {
    "The rejection file \"" + d.file.name + "\" should contain \"" + d.message.name + "\" rejection."
  }

  /** `LocationPath.toString`, whose source is not part of this model: taken to render the
      path as a list of numbers, `[4, 0]`. */
  function PathText(path: seq<int>): string {
    "[" + Join(seq(|path|, i requires 0 <= i < |path| => IntToString(path[i])), ", ") + "]"
  }

  function LocationMissing(path: seq<int>, fileName: string): string {
    "The location with " + PathText(path) + " path should be present in \"" + fileName + "\"."
  }

  /** `List.indexOf`: the first position of `x`, or -1. */
  function IndexOf<T(==)>(s: seq<T>, x: T): (r: int)
    ensures -1 <= r < |s|
    ensures r >= 0 ==> s[r] == x && forall k :: 0 <= k < r ==> s[k] != x
    ensures r < 0 <==> x !in s
  {
    if |s| == 0 then -1
    else if s[0] == x then 0
    else
      var k := IndexOf(s[1..], x);
      if k < 0 then -1 else k + 1
  }

  /** `getTopLevelMessageIndex()`: the position of the rejection among the file's top-level
      messages; a state error when the file does not declare it. */
  function TopLevelMessageIndex(d: RejectionDeclaration): (r: Result<nat, Exception>)
    ensures r.Ok? <==> d.message in d.file.messages
    ensures r.Ok? ==> r.value < |d.file.messages| && d.file.messages[r.value] == d.message
                      && forall k :: 0 <= k < r.value ==> d.file.messages[k] != d.message
    ensures r.Err? ==> r.error == IllegalState(NotInFile(d))
  {
    var i := IndexOf(d.file.messages, d.message);
    if i < 0 then Err(IllegalState(NotInFile(d))) else Ok(i)
  }

  /** `getMessageLocationPath()`: the path of the rejection among the file's top-level
      messages. */
  function MessageLocationPath(d: RejectionDeclaration): (r: Result<seq<int>, Exception>)
    ensures r.Ok? <==> d.message in d.file.messages
    ensures r.Ok? ==>
      |r.value| == 2 && r.value[0] == MessageTypeFieldNumber
      && 0 <= r.value[1] < |d.file.messages| && d.file.messages[r.value[1]] == d.message
  {
    var i :- TopLevelMessageIndex(d);
    Ok([MessageTypeFieldNumber, i])
  }

  /** `getFieldLocationPath(field)`: the message path, then the field number of
      `DescriptorProto.field` and the field's position in the message. */
  function FieldLocationPath(d: RejectionDeclaration, f: FieldProto): (r: Result<seq<int>, Exception>)
    ensures r.Ok? <==> d.message in d.file.messages
    ensures r.Ok? ==>
      |r.value| == 4 && r.value[..2] == MessageLocationPath(d).value
      && r.value[2] == FieldFieldNumber
    ensures r.Ok? && f in d.message.fields ==>
      0 <= r.value[3] < |d.message.fields| && d.message.fields[r.value[3]] == f
    ensures r.Ok? && f !in d.message.fields ==> r.value[3] == -1
  {
    var p :- MessageLocationPath(d);
    Ok(p + [FieldFieldNumber, IndexOf(d.message.fields, f)])
  }

  /** The paths point at the rejection among the file's messages and at the field among the
      rejection's fields; both fail exactly when the file does not declare the rejection. */
  lemma LocationPaths(d: RejectionDeclaration, j: nat)
    requires j < |d.message.fields|
    requires forall k :: 0 <= k < j ==> d.message.fields[k] != d.message.fields[j]
    ensures MessageLocationPath(d).Ok? <==> d.message in d.file.messages
    ensures FieldLocationPath(d, d.message.fields[j]).Ok? <==> d.message in d.file.messages
    ensures MessageLocationPath(d).Ok? ==>
      var p := MessageLocationPath(d).value;
      |p| == 2 && p[0] == MessageTypeFieldNumber && d.file.messages[p[1]] == d.message
      && FieldLocationPath(d, d.message.fields[j]).value == p + [FieldFieldNumber, j]
  {
  }

  /** The first location recorded with exactly this path. */
  function FindLocation(locations: seq<Location>, path: seq<int>): (r: Option<Location>)
    ensures r.Some? ==> r.value in locations && r.value.path == path
    ensures r.None? <==> forall l :: l in locations ==> l.path != path
  {
    if |locations| == 0 then None
    else if locations[0].path == path then Some(locations[0])
    else
      assert forall l :: l in locations ==> l == locations[0] || l in locations[1..];
      FindLocation(locations[1..], path)
  }

  /** `getLeadingComments(path)`: a state error when the file carries no source information
      or no location has the path; otherwise the comments of the first such location, if
      it has any. */
  function LeadingComments(d: RejectionDeclaration, path: seq<int>): (r: Result<Option<string>, Exception>)
    ensures d.file.sourceInfo.None? ==> r == Err(IllegalState(SourceInfoMissing))
    ensures d.file.sourceInfo.Some? ==>
      (r.Err? <==> forall l :: l in d.file.sourceInfo.value ==> l.path != path)
    ensures r.Err? && d.file.sourceInfo.Some? ==> r.error == IllegalState(LocationMissing(path, d.file.name))
    ensures r.Ok? ==> exists l :: l in d.file.sourceInfo.value && l.path == path && r.value == l.leadingComments
  {
    if d.file.sourceInfo.None? then Err(IllegalState(SourceInfoMissing))
    else match FindLocation(d.file.sourceInfo.value, path)
      case None => Err(IllegalState(LocationMissing(path, d.file.name)))
      case Some(l) => Ok(l.leadingComments)
  }

  /** `getRejectionLeadingComments()`. */
  function RejectionLeadingComments(d: RejectionDeclaration): Result<Option<string>, Exception> {
    var p :- MessageLocationPath(d);
    LeadingComments(d, p)
  }

  /** `getFieldLeadingComments(field)`. */
  function FieldLeadingComments(d: RejectionDeclaration, f: FieldProto): Result<Option<string>, Exception> {
    var p :- FieldLocationPath(d, f);
    LeadingComments(d, p)
  }

  /** The rejection's comments are those of its location; the errors come in the order the
      code meets them: the missing rejection, then the missing source information, then
      the missing location. */
  lemma RejectionCommentsLookup(d: RejectionDeclaration)
    ensures d.message !in d.file.messages ==> RejectionLeadingComments(d) == Err(IllegalState(NotInFile(d)))
    ensures d.message in d.file.messages && d.file.sourceInfo.None? ==>
      RejectionLeadingComments(d) == Err(IllegalState(SourceInfoMissing))
    ensures d.message in d.file.messages && d.file.sourceInfo.Some? ==>
      var p := [MessageTypeFieldNumber, TopLevelMessageIndex(d).value];
      var loc := FindLocation(d.file.sourceInfo.value, p);
      RejectionLeadingComments(d) == if loc.None? then Err(IllegalState(LocationMissing(p, d.file.name)))
                                     else Ok(loc.value.leadingComments)
  {
  }

  /** `commentedFields.put(field, comment)` on a `LinkedHashMap`: a new key goes last, an
      existing key keeps its place and takes the new comment. */
  function Put(m: seq<CommentedField>, f: FieldProto, c: string): (r: seq<CommentedField>)
    ensures CommentedField(f, c) in r
    ensures forall e :: e in r ==> e == CommentedField(f, c) || e in m
    ensures |m| <= |r| <= |m| + 1
  {
    if |m| == 0 then [CommentedField(f, c)]
    else if m[0].field == f then [CommentedField(f, c)] + m[1..]
    else [m[0]] + Put(m[1..], f, c)
  }

  /** The keys of the map, in its iteration order. */
  function Keys(m: seq<CommentedField>): (r: seq<FieldProto>)
    ensures |r| == |m| && forall i :: 0 <= i < |m| ==> r[i] == m[i].field
  {
    if |m| == 0 then [] else [m[0].field] + Keys(m[1..])
  }

  /** The loop of `getCommentedFields()` over `fields`, starting from the map `acc`. */
  function CommentedFieldsFrom(d: RejectionDeclaration, fields: seq<FieldProto>, acc: seq<CommentedField>)
    : (r: Result<seq<CommentedField>, Exception>)
    ensures |fields| == 0 ==> r == Ok(acc)
    decreases |fields|
  {
    if |fields| == 0 then Ok(acc)
    else
      var c :- FieldLeadingComments(d, fields[0]);
      CommentedFieldsFrom(d, fields[1..], if c.Some? then Put(acc, fields[0], c.value) else acc)
  }

  /** `getCommentedFields()`: the fields of the rejection that carry a leading comment, each
      with its comment, in declaration order. */
  function CommentedFields(d: RejectionDeclaration): (r: Result<seq<CommentedField>, Exception>)
    ensures |d.message.fields| == 0 ==> r == Ok([])
    ensures r.Ok? <==> forall f :: f in d.message.fields ==> FieldLeadingComments(d, f).Ok?
  {
    CommentedFieldsFromFails(d, d.message.fields, []);
    CommentedFieldsFrom(d, d.message.fields, [])
  }

  /** The field has a leading comment. */
  predicate HasComment(d: RejectionDeclaration, f: FieldProto) {
    FieldLeadingComments(d, f).Ok? && FieldLeadingComments(d, f).value.Some?
  }

  /** Each commented field with its comment, in order: the reference description of the
      map `getCommentedFields()` builds. */
  function CommentedEntries(d: RejectionDeclaration, fields: seq<FieldProto>): (r: seq<CommentedField>)
    ensures forall e :: e in r ==> e.field in fields && FieldLeadingComments(d, e.field) == Ok(Some(e.comment))
    ensures forall f :: f in fields && HasComment(d, f) ==> f in Keys(r)
  {
    if |fields| == 0 then []
    else
      var rest := CommentedEntries(d, fields[1..]);
      assert forall f :: f in fields ==> f == fields[0] || f in fields[1..];
      if HasComment(d, fields[0]) then
        var e := CommentedField(fields[0], FieldLeadingComments(d, fields[0]).value.value);
        assert Keys([e] + rest) == [fields[0]] + Keys(rest);
        [e] + rest
      else rest
  }

  predicate NoDuplicates(fields: seq<FieldProto>) {
    forall i, j :: 0 <= i < j < |fields| ==> fields[i] != fields[j]
  }

  /** The loop fails exactly when looking up some field's comments fails. */
  lemma {:induction false} CommentedFieldsFromFails(d: RejectionDeclaration, fields: seq<FieldProto>, acc: seq<CommentedField>)
    ensures CommentedFieldsFrom(d, fields, acc).Ok? <==> forall f :: f in fields ==> FieldLeadingComments(d, f).Ok?
    decreases |fields|
  {
    if |fields| > 0 {
      assert forall f :: f in fields ==> f == fields[0] || f in fields[1..];
      var c := FieldLeadingComments(d, fields[0]);
      if c.Ok? {
        CommentedFieldsFromFails(d, fields[1..], if c.value.Some? then Put(acc, fields[0], c.value.value) else acc);
      }
    }
  }

  /** A later field of a duplicate-free list differs from the first one. */
  lemma TailFieldsDiffer(fields: seq<FieldProto>, g: FieldProto)
    requires |fields| > 0 && NoDuplicates(fields) && g in fields[1..]
    ensures g in fields && g != fields[0]
  {
    var k :| 0 <= k < |fields[1..]| && fields[1..][k] == g;
    assert fields[k + 1] == g;
  }

  /** The map after visiting the first of `fields`. */
  function StepAcc(d: RejectionDeclaration, f: FieldProto, acc: seq<CommentedField>): seq<CommentedField>
    requires FieldLeadingComments(d, f).Ok?
  {
    var c := FieldLeadingComments(d, f).value;
    if c.Some? then Put(acc, f, c.value) else acc
  }

  lemma FromUnfold(d: RejectionDeclaration, fields: seq<FieldProto>, acc: seq<CommentedField>)
    requires |fields| > 0 && FieldLeadingComments(d, fields[0]).Ok?
    ensures CommentedFieldsFrom(d, fields, acc) == CommentedFieldsFrom(d, fields[1..], StepAcc(d, fields[0], acc))
  {
  }

  lemma NoDuplicatesTail(fields: seq<FieldProto>)
    requires |fields| > 0 && NoDuplicates(fields)
    ensures NoDuplicates(fields[1..])
  {
    forall i, j | 0 <= i < j < |fields[1..]| ensures fields[1..][i] != fields[1..][j] {
      assert fields[1..][i] == fields[i + 1] && fields[1..][j] == fields[j + 1];
    }
  }

  /** A step keeps the remaining fields out of the map. */
  lemma StepKeepsFresh(d: RejectionDeclaration, fields: seq<FieldProto>, acc: seq<CommentedField>)
    requires |fields| > 0 && FieldLeadingComments(d, fields[0]).Ok?
    requires NoDuplicates(fields)
    requires forall f :: f in fields ==> f !in Keys(acc)
    ensures forall g :: g in fields[1..] ==> g !in Keys(StepAcc(d, fields[0], acc))
  {
    var f := fields[0];
    var c := FieldLeadingComments(d, f).value;
    if c.Some? {
      assert f in fields;
      PutAppends(acc, f, c.value);
      assert Keys(acc + [CommentedField(f, c.value)]) == Keys(acc) + [f];
    }
    forall g | g in fields[1..] ensures g !in Keys(StepAcc(d, f, acc)) {
      TailFieldsDiffer(fields, g);
    }
  }

  /** A step appends the entry of a commented field. */
  lemma StepAppends(d: RejectionDeclaration, fields: seq<FieldProto>, acc: seq<CommentedField>)
    requires |fields| > 0 && FieldLeadingComments(d, fields[0]).Ok?
    requires fields[0] !in Keys(acc)
    ensures StepAcc(d, fields[0], acc) + CommentedEntries(d, fields[1..]) == acc + CommentedEntries(d, fields)
  {
    var f := fields[0];
    var c := FieldLeadingComments(d, f).value;
    var rest := CommentedEntries(d, fields[1..]);
    if c.Some? {
      PutAppends(acc, f, c.value);
      var e := CommentedField(f, c.value);
      assert CommentedEntries(d, fields) == [e] + rest;
      AppendAssoc(acc, [e], rest);
    } else {
      assert CommentedEntries(d, fields) == rest;
    }
  }

  /** With distinct fields none of which is in the map yet, the loop appends exactly the
      commented fields, in order, each with its comment. */
  lemma {:induction false} CommentedFieldsFromContents(d: RejectionDeclaration, fields: seq<FieldProto>, acc: seq<CommentedField>)
    requires NoDuplicates(fields)
    requires forall f :: f in fields ==> f !in Keys(acc)
    requires CommentedFieldsFrom(d, fields, acc).Ok?
    ensures CommentedFieldsFrom(d, fields, acc) == Ok(acc + CommentedEntries(d, fields))
    decreases |fields|
  {
    if |fields| > 0 {
      FromUnfold(d, fields, acc);
      NoDuplicatesTail(fields);
      StepKeepsFresh(d, fields, acc);
      StepAppends(d, fields, acc);
      CommentedFieldsFromContents(d, fields[1..], StepAcc(d, fields[0], acc));
    } else {
      assert acc + CommentedEntries(d, fields) == acc;
    }
  }

  /** `Put` with a new key appends the entry. */
  lemma {:induction false} PutAppends(m: seq<CommentedField>, f: FieldProto, c: string)
    requires f !in Keys(m)
    ensures Put(m, f, c) == m + [CommentedField(f, c)]
  {
    if |m| > 0 {
      assert Keys(m) == [m[0].field] + Keys(m[1..]);
      assert f != m[0].field && f !in Keys(m[1..]);
      assert Put(m, f, c) == [m[0]] + Put(m[1..], f, c);
      PutAppends(m[1..], f, c);
      assert [m[0]] + (m[1..] + [CommentedField(f, c)]) == m + [CommentedField(f, c)];
    }
  }

  /** `getCommentedFields()` fails exactly when some field's comments cannot be looked up;
      for a message with distinct fields it holds exactly the commented fields, in
      declaration order, each with its comment. */
  lemma CommentedFieldsSpec(d: RejectionDeclaration)
    ensures CommentedFields(d).Ok? <==> forall f :: f in d.message.fields ==> FieldLeadingComments(d, f).Ok?
    ensures CommentedFields(d).Ok? && NoDuplicates(d.message.fields) ==>
      CommentedFields(d) == Ok(CommentedEntries(d, d.message.fields))
  {
    CommentedFieldsFromFails(d, d.message.fields, []);
    if CommentedFields(d).Ok? && NoDuplicates(d.message.fields) {
      CommentedFieldsFromContents(d, d.message.fields, []);
      assert [] + CommentedEntries(d, d.message.fields) == CommentedEntries(d, d.message.fields);
    }
  }

  /** `getMaxFieldNameLength(fields)` of a non-empty collection: the length of a longest
      name. */
  function MaxNameLength(fields: seq<FieldProto>): (r: nat)
    requires |fields| > 0
    ensures forall f :: f in fields ==> |f.name| <= r
    ensures exists f :: f in fields && |f.name| == r
  {
    if |fields| == 1 then |fields[0].name|
    else
      var rest := MaxNameLength(fields[1..]);
      assert forall f :: f in fields ==> f == fields[0] || f in fields[1..];
      if |fields[0].name| >= rest then |fields[0].name| else rest
  }

  /** `forClass()`: the escaped rejection comment between `<pre>` tags when there is one,
      then the line naming the proto type. */
  function ForClass(d: RejectionDeclaration, escape: string -> string): (r: Result<string, Exception>)
    ensures r.Ok? <==> RejectionLeadingComments(d).Ok?
    ensures r.Err? ==> r.error == RejectionLeadingComments(d).error
    ensures r.Ok? ==> EndsWith(r.value, TypeLine(d))
    ensures r.Ok? ==> (StartsWith(r.value, OpeningPre) <==> RejectionLeadingComments(d).value.Some?)
    ensures r.Ok? && RejectionLeadingComments(d).value.Some? ==>
      var text := escape(RejectionLeadingComments(d).value.value);
      |r.value| == |OpeningPre + LineSeparator| + |text| + |ClosingPre + LineSeparator + LineSeparator| + |TypeLine(d)|
      && r.value[|OpeningPre + LineSeparator|..|OpeningPre + LineSeparator| + |text|] == text
  {
    var comments :- RejectionLeadingComments(d);
    var pre := match comments
      case None => ""
      case Some(s) => OpeningPre + LineSeparator + escape(s) + ClosingPre + LineSeparator + LineSeparator;
    Ok(pre + TypeLine(d))
  }

  /** The line naming the proto type the rejection is based on. */
  function TypeLine(d: RejectionDeclaration): (r: string)
    ensures |r| > 0 && r[0] == 'R'
  {
    "Rejection based on proto type {@code " + d.javaPackage + "." + d.simpleClassName + "}" + LineSeparator
  }

  /** One `@param` entry: the tag, the Java name, `offset` spaces, and the comment. */
  function ParamLine(javaName: string, offset: nat, text: string): (r: string)
    ensures |r| == |ParamTag| + |javaName| + offset + |text|
    ensures r[..|ParamTag|] == ParamTag
    ensures r[|ParamTag|..|ParamTag| + |javaName|] == javaName
    ensures forall k :: |ParamTag| + |javaName| <= k < |ParamTag| + |javaName| + offset ==> r[k] == ' '
    ensures r[|ParamTag| + |javaName| + offset..] == text
  {
    ParamTag + javaName + Spaces(offset) + text
  }

  /** The `@param` entries of the constructor Javadoc, each comment padded to start after
      the longest proto field name; `Strings.repeat` rejects a negative padding. */
  function Params(entries: seq<CommentedField>, maxLen: nat, javaCase: string -> string, escape: string -> string)
    : (r: Result<string, Exception>)
    ensures r.Ok? <==> forall e :: e in entries ==> |javaCase(e.field.name)| <= maxLen + 1
  {
    if |entries| == 0 then Ok("")
    else
      var name := javaCase(entries[0].field.name);
      var offset := maxLen - |name| + 1;
      assert forall e :: e in entries ==> e == entries[0] || e in entries[1..];
      if offset < 0 then Err(IllegalArgument("invalid count: " + IntToString(offset)))
      else
        var rest :- Params(entries[1..], maxLen, javaCase, escape);
        Ok(ParamLine(name, offset, escape(entries[0].comment)) + rest)
  }

  /** The entries aligned on one column: every comment starts `maxLen + 1` characters after
      the tag. */
  function AlignedLines(entries: seq<CommentedField>, maxLen: nat, javaCase: string -> string, escape: string -> string)
    : (r: seq<string>)
    requires forall e :: e in entries ==> |javaCase(e.field.name)| <= maxLen + 1
    ensures |r| == |entries|
    ensures forall i :: 0 <= i < |r| ==>
      |ParamTag| + maxLen + 1 <= |r[i]| && r[i][|ParamTag| + maxLen + 1..] == escape(entries[i].comment)
      && r[i][..|ParamTag| + |javaCase(entries[i].field.name)|] == ParamTag + javaCase(entries[i].field.name)
  {
    if |entries| == 0 then []
    else
      assert entries[0] in entries;
      var name := javaCase(entries[0].field.name);
      var line := ParamLine(name, maxLen - |name| + 1, escape(entries[0].comment));
      assert line[..|ParamTag| + |name|] == ParamTag + name by {
        assert line[..|ParamTag|] == ParamTag;
        assert line[|ParamTag|..|ParamTag| + |name|] == name;
      }
      [line] + AlignedLines(entries[1..], maxLen, javaCase, escape)
  }

  function Concat(parts: seq<string>): (r: string)
    ensures |parts| == 0 ==> r == ""
  {
    if |parts| == 0 then "" else parts[0] + Concat(parts[1..])
  }

  /** When no Java name is longer than the padding allows, the entries are the aligned lines
      one after the other. */
  lemma {:induction false} ParamsAreAligned(entries: seq<CommentedField>, maxLen: nat, javaCase: string -> string, escape: string -> string)
    requires forall e :: e in entries ==> |javaCase(e.field.name)| <= maxLen + 1
    ensures Params(entries, maxLen, javaCase, escape) == Ok(Concat(AlignedLines(entries, maxLen, javaCase, escape)))
  {
    if |entries| > 0 {
      assert forall e :: e in entries[1..] ==> e in entries;
      ParamsAreAligned(entries[1..], maxLen, javaCase, escape);
    }
  }

  /** `forConstructor()`: the fixed first sentence, then, when some field is commented, an
      empty line and one `@param` entry per commented field in declaration order. */
  function ForConstructor(d: RejectionDeclaration, javaCase: string -> string, escape: string -> string)
    : (r: Result<string, Exception>)
    ensures CommentedFields(d).Err? ==> r == Err(CommentedFields(d).error)
    ensures CommentedFields(d) == Ok([]) ==> r == Ok(CtorHeader)
    ensures r.Ok? ==> StartsWith(r.value, CtorHeader)
    ensures r.Ok? && CommentedFields(d) != Ok([]) ==> StartsWith(r.value, CtorHeader + LineSeparator + LineSeparator)
  {
    var entries :- CommentedFields(d);
    if |entries| == 0 then Ok(CtorHeader)
    else
      var params :- Params(entries, MaxNameLength(Keys(entries)), javaCase, escape);
      var head := CtorHeader + LineSeparator + LineSeparator;
      var text := head + params;
      assert text[..|head|] == head;
      assert text[..|CtorHeader|] == head[..|CtorHeader|] == CtorHeader;
      Ok(text)
  }

  /** When the Java form of a name is never longer than the name (`javaCase` only drops
      underscores and changes case), the constructor Javadoc fails only when looking up
      the comments fails, and its entries are aligned on the column after the longest
      proto field name. */
  lemma ForConstructorAligned(d: RejectionDeclaration, javaCase: string -> string, escape: string -> string)
    requires forall n: string :: |javaCase(n)| <= |n|
    ensures ForConstructor(d, javaCase, escape).Ok? <==> CommentedFields(d).Ok?
    ensures CommentedFields(d).Ok? && |CommentedFields(d).value| > 0 ==>
      var entries := CommentedFields(d).value;
      var maxLen := MaxNameLength(Keys(entries));
      ForConstructor(d, javaCase, escape)
        == Ok(CtorHeader + LineSeparator + LineSeparator + Concat(AlignedLines(entries, maxLen, javaCase, escape)))
  {
    if CommentedFields(d).Ok? && |CommentedFields(d).value| > 0 {
      var entries := CommentedFields(d).value;
      var maxLen := MaxNameLength(Keys(entries));
      forall e | e in entries ensures |javaCase(e.field.name)| <= maxLen + 1 {
        var k :| 0 <= k < |entries| && entries[k] == e;
        assert Keys(entries)[k] == e.field;
      }
      ParamsAreAligned(entries, maxLen, javaCase, escape);
    }
  }
}
