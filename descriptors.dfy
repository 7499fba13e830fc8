/**
 * The parts of protobuf's descriptor messages (`FileDescriptorProto` and the
 * messages it holds) that the linker and the text emitter read, as plain
 * values. Enumerations are kept as their wire numbers, an unset string as the
 * empty string (protobuf's getters return "" for it), and an unknown-field set
 * as its entries in ascending field-number order.
 */
module Descriptors {
  import opened Bytes

  /** One entry of an `UnknownFieldSet`: the values seen for a field, per wire type. */
  datatype UnknownField = UnknownField(
    varints: seq<int>,
    fixed32s: seq<int>,
    fixed64s: seq<int>,
    lengthDelimited: seq<seq<byte>>)

  /** An `UnknownFieldSet` as `asMap()` lists it: field number and values, numbers ascending. */
  type FieldSet = seq<(int, UnknownField)>

  /**
   * The value of a set option field: a Kotlin `String`, or any other value,
   * kept as the text its `toString` gives.
   */
  datatype OptionValue = Str(s: string) | Other(text: string)

  /** One entry of `allFields`: the option field's name and its value. */
  datatype KnownOption = KnownOption(name: string, value: OptionValue)

  /**
   * An options message (`FileOptions`, `ServiceOptions`, `MethodOptions`): the
   * full name of its message type, the fields it has set and the fields it
   * could not recognise.
   */
  datatype Options = Options(fullName: string, known: seq<KnownOption>, unknown: FieldSet)

  /**
   * `FieldDescriptorProto`: its label and type are the enumeration numbers as
   * stored, read through the getters' defaults when printed.
   */
  datatype FieldProto = FieldProto(
    name: string,
    number: int,
    fieldLabel: int,
    fieldType: int,
    typeName: Option<string>)

  /** `DescriptorProto` as far as the emitter goes: name and fields. */
  datatype MessageProto = MessageProto(name: string, fields: seq<FieldProto>)

  /** `MethodDescriptorProto`. */
  datatype MethodProto = MethodProto(name: string, inputType: string, outputType: string, options: Options)

  /** `ServiceDescriptorProto`. */
  datatype ServiceProto = ServiceProto(name: string, methods: seq<MethodProto>, options: Options)

  /** `FileDescriptorProto`. */
  datatype FileProto = FileProto(
    name: string,
    pkg: string,
    dependencies: seq<string>,
    options: Options,
    messages: seq<MessageProto>,
    services: seq<ServiceProto>)
}
