/** What every entry builder is given, and the diagnostics batch it returns
    when some tags do not apply. */
module DocEntries {
  import opened Wrappers
  import opened Spans
  import opened Tags
  import opened Syntax

  /** Where the entry is displayed from: a file and a line. */
  datatype OutputSource = OutputSource(path: string, lineNumber: nat)

  /** The comment block an entry is built from, with the statement it documents. */
  datatype DocComment = DocComment(stmt: Option<Stmt>, outputSource: OutputSource)

  datatype DocEntryParseArguments = DocEntryParseArguments(
    name: string,
    desc: string,
    within: Option<string>,
    tags: seq<Tag>,
    source: DocComment)

  /** One diagnostic per tag, in tag order, each anchored at its tag. */
  function Diagnose(tags: seq<Tag>, message: string): (r: seq<Diagnostic>)
    ensures |r| == |tags|
    ensures forall k :: 0 <= k < |tags| ==> r[k] == Diagnostic(tags[k].Source(), message)
  {
    if tags == [] then []
    else Diagnose(tags[..|tags| - 1], message) + [tags[|tags| - 1].ToDiagnostic(message)]
  }
}
