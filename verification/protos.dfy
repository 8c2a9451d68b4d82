/** The parts of `descriptor.proto` records that the modelled code reads. */
module Protos {
  import opened Wrappers

  /** `FieldDescriptorProto.Label`. */
  datatype Label = LabelOptional | LabelRequired | LabelRepeated

  /** `FieldDescriptor.Type`, with the scalar kinds collapsed into one. */
  datatype FieldType = TypeMessage | TypeEnum | TypeScalar(kind: string)

  /** `FieldDescriptorProto`. `typeName` names the message or enum type of the field. */
  datatype FieldProto = FieldProto(name: string, number: int, fieldLabel: Label, fieldType: FieldType, typeName: string)

  /** `DescriptorProto`: a message type with its fields and nested message types;
      `mapEntry` is the `map_entry` message option. */
  datatype MessageProto = MessageProto(name: string, fields: seq<FieldProto>, nested: seq<MessageProto>, mapEntry: bool)

  /** The `java_package`, `java_multiple_files` and `java_outer_classname` file options;
      `None` stands for an undeclared outer class name. */
  datatype FileOptions = FileOptions(javaPackage: string, javaMultipleFiles: bool, javaOuterClassname: Option<string>)

  /** `SourceCodeInfo.Location`. */
  datatype Location = Location(path: seq<int>, leadingComments: Option<string>)

  /** `FileDescriptorProto`. `sourceInfo` is `None` when the descriptor set was written
      without source information. */
  datatype FileProto = FileProto(
    name: string,
    package: string,
    dependencies: seq<string>,
    messages: seq<MessageProto>,
    options: FileOptions,
    sourceInfo: Option<seq<Location>>)

  /** `FileDescriptorSet`. */
  datatype DescriptorSet = DescriptorSet(files: seq<FileProto>)

  /** Field numbers of `descriptor.proto` used in `SourceCodeInfo` location paths. */
  const MessageTypeFieldNumber: int := 4  // FileDescriptorProto.message_type
  const FieldFieldNumber: int := 2        // DescriptorProto.field
}
