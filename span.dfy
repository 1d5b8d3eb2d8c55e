/** Spans and diagnostics: every tag value and every error is anchored to a
    located slice of the comment text. */
module Spans {

  /** A located slice of comment text: the characters it covers and the
      offset at which it starts in the comment buffer. */
  datatype Span = Span(text: string, start: nat) {

    predicate IsEmpty() {
      |text| == 0
    }

    /** A diagnostic anchored at this span. */
    function ToDiagnostic(message: string): Diagnostic {
      Diagnostic(this, message)
    }
  }

  /** One located error message. A batch of diagnostics is a `seq<Diagnostic>`. */
  datatype Diagnostic = Diagnostic(span: Span, message: string)
}
