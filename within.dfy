/** The `@within` tag: names the scope (class or module) an entry belongs to. */
module WithinTags {
  import opened Wrappers
  import opened Spans

  datatype WithinTag = WithinTag(name: Span, source: Span) {

    /** What every `@within` tag built from a span looks like: it names the
        span it was read from, and that span is not empty. */
    predicate Valid() {
      name == source && !name.IsEmpty()
    }
  }

  const StuffAfterMessage := "This tag has stuff after it"

  /** Builds a `@within` tag from the text after the tag name. */
  function TryFrom(span: Span): (r: Result<WithinTag, Diagnostic>)
    ensures r.Ok? <==> !span.IsEmpty()
    ensures r.Err? ==> r.error.span == span && r.error.message == StuffAfterMessage
    ensures r.Ok? ==> r.value.name == span && r.value.source == span
  {
    if span.IsEmpty() then
      Err(span.ToDiagnostic(StuffAfterMessage))
    else
      Ok(WithinTag(span, span))
  }

  /** The outcome depends only on whether the span is empty. */
  lemma OutcomeDependsOnlyOnEmptiness(a: Span, b: Span)
    requires a.IsEmpty() == b.IsEmpty()
    ensures TryFrom(a).Ok? == TryFrom(b).Ok?
  {
  }

  /** A span yields exactly the valid tags that name it; every built tag has
      a non-empty name. */
  lemma TryFromExactlyValid(span: Span, w: WithinTag)
    ensures TryFrom(span) == Ok(w) <==> w.Valid() && w.source == span
    ensures TryFrom(span).Ok? ==> TryFrom(span).value.Valid() && |TryFrom(span).value.name.text| > 0
  {
  }
}
