/** The closed set of documentation tags the builders consume. Each payload
    keeps the spans the builders read and the tag's own source span. */
module Tags {
  import opened Wrappers
  import opened Spans
  import opened WithinTags

  datatype ParamTag = ParamTag(name: Span, luaType: Span, desc: Span, source: Span)
  datatype ReturnTag = ReturnTag(luaType: Span, desc: Span, source: Span)
  datatype MarkerTag = MarkerTag(source: Span)
  datatype DeprecatedTag = DeprecatedTag(version: Span, desc: Option<Span>, source: Span)
  datatype SinceTag = SinceTag(version: Span, source: Span)
  datatype TypeTag = TypeTag(luaType: Span, source: Span)
  datatype FieldTag = FieldTag(name: Span, luaType: Span, desc: Span, source: Span)
  datatype CustomTag = CustomTag(name: Span, text: Span, source: Span)
  datatype PrivateTag = PrivateTag(source: Span)
  datatype IgnoreTag = IgnoreTag(source: Span)

  datatype Tag =
    | Param(param: ParamTag)
    | Return(returnTag: ReturnTag)
    | Marker(marker: MarkerTag)
    | Deprecated(deprecated: DeprecatedTag)
    | Since(since: SinceTag)
    | Type(typeTag: TypeTag)
    | Field(field: FieldTag)
    | Custom(custom: CustomTag)
    | Private(privateTag: PrivateTag)
    | Ignore(ignoreTag: IgnoreTag)
    | Within(within: WithinTag)
  {
    /** The span of the whole tag, where its diagnostics are anchored. */
    function Source(): Span {
      match this
      case Param(t) => t.source
      case Return(t) => t.source
      case Marker(t) => t.source
      case Deprecated(t) => t.source
      case Since(t) => t.source
      case Type(t) => t.source
      case Field(t) => t.source
      case Custom(t) => t.source
      case Private(t) => t.source
      case Ignore(t) => t.source
      case Within(t) => t.source
    }

    function ToDiagnostic(message: string): Diagnostic {
      Source().ToDiagnostic(message)
    }
  }
}
