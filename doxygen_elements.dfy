/**
  The records the Quickbook emitters read, reduced to the fields those
  emitters use. They mirror the structures of doxygen_elements.hpp (a file that
  is not part of this model) and the `configuration` the tool is run with.
*/
module DoxygenElements {

  /** A function or template parameter. */
  datatype Parameter = Parameter(
    name: string,
    typeName: string,
    fullType: string,
    defaultValue: string,
    briefDescription: string,
    skip: bool)

  /** function_type. */
  datatype FunctionType = ConstructorDestructor | Member | Free | Define | Unknown

  /** A documented function (or macro). */
  datatype Function = Function(
    kind: FunctionType,
    name: string,
    returnType: string,
    definition: string,
    parameters: seq<Parameter>,
    templateParameters: seq<Parameter>,
    briefDescription: string,
    returnDescription: string)

  /** markup_order_type. */
  datatype MarkupOrder = MarkupBefore | MarkupAfter | MarkupAny

  /** markup_type. */
  datatype MarkupType = MarkupSynopsis | MarkupDefault

  /** A piece of Quickbook markup attached to an element. */
  datatype Markup = Markup(kind: MarkupType, order: MarkupOrder, value: string)

  datatype EnumerationValue = EnumerationValue(name: string, initializer: string)

  datatype Enumeration = Enumeration(name: string, values: seq<EnumerationValue>)

  /** The command-line configuration, reduced to what the emitters read. */
  datatype Configuration = Configuration(
    skipNamespace: string,
    indexIdPath: string,
    convenienceHeaders: seq<string>,
    convenienceHeaderPath: string,
    startInclude: string)
}
