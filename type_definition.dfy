/** Building a type documentation entry: fields read from a table-type
    declaration, then `@type`, `@field`, custom, `@private` and `@ignore`
    tags folded in. */
module TypeDefinition {
  import opened Wrappers
  import opened Spans
  import opened Text
  import opened Syntax
  import opened Tags
  import opened DocEntries
  import opened TagFold

  /** A field of a documented type, from the declaration or from a `@field` tag. */
  datatype Field = Field(name: string, luaType: string, desc: string)

  /** A `@field` tag as a field: its three texts copied unchanged. */
  function FieldFromTag(fieldTag: FieldTag): (f: Field)
    ensures f.name == fieldTag.name.text
    ensures f.luaType == fieldTag.luaType.text
    ensures f.desc == fieldTag.desc.text
  {
    Field.Field(fieldTag.name.text, fieldTag.luaType.text, fieldTag.desc.text)
  }

  /** The first identifier among a key's tokens, or the empty string. */
  function FirstIdentifier(tokens: seq<TokenType>): (name: string)
    ensures (forall k :: 0 <= k < |tokens| ==> !tokens[k].Identifier?) ==> name == ""
    ensures forall i :: 0 <= i < |tokens| && tokens[i].Identifier?
                        && (forall k :: 0 <= k < i ==> !tokens[k].Identifier?)
                        ==> name == tokens[i].identifier
  {
    if tokens == [] then ""
    else if tokens[0].Identifier? then tokens[0].identifier
    else FirstIdentifier(tokens[1..])
  }

  function TrimEach(lines: seq<string>): (r: seq<string>)
    ensures |r| == |lines|
  {
    seq(|lines|, k requires 0 <= k < |lines| => Trim(lines[k]))
  }

  /** The trimmed lines of the comments among some trivia, comment after
      comment; every other trivia contributes nothing. */
  function CommentLines(trivia: seq<TokenType>): (lines: seq<string>)
    ensures (forall k :: 0 <= k < |trivia| ==> !trivia[k].IsComment()) ==> lines == []
  {
    if trivia == [] then []
    else
      var first := match trivia[0]
        case SingleLineComment(comment) => TrimEach(Lines(comment))
        case MultiLineComment(comment) => TrimEach(Lines(comment))
        case _ => [];
      first + CommentLines(trivia[1..])
  }

  /** A structural field's description: its comment lines joined with
      newlines, then trimmed. */
  function FieldDesc(trivia: seq<TokenType>): (desc: string)
    ensures desc != [] ==> !IsWhitespace(desc[0]) && !IsWhitespace(desc[|desc| - 1])
    ensures (forall k :: 0 <= k < |trivia| ==> !trivia[k].IsComment()) ==> desc == ""
  {
    Trim(Join(CommentLines(trivia), "\n"))
  }

  /** A declared field: named by its key's first identifier ("" without
      one), typed by its value text, described by its key's comments. */
  function StructuralField(typeField: TypeField): (f: Field)
    ensures (forall k :: 0 <= k < |typeField.keyTokens| ==> !typeField.keyTokens[k].Identifier?) ==> f.name == ""
    ensures forall i :: 0 <= i < |typeField.keyTokens| && typeField.keyTokens[i].Identifier?
                        && (forall k :: 0 <= k < i ==> !typeField.keyTokens[k].Identifier?)
                        ==> f.name == typeField.keyTokens[i].identifier
    ensures f.luaType == typeField.value
    ensures f.desc != [] ==> !IsWhitespace(f.desc[0]) && !IsWhitespace(f.desc[|f.desc| - 1])
    ensures (forall k :: 0 <= k < |typeField.leadingTrivia| ==> !typeField.leadingTrivia[k].IsComment()) ==> f.desc == ""
  {
    Field.Field(FirstIdentifier(typeField.keyTokens), typeField.value, FieldDesc(typeField.leadingTrivia))
  }

  /** Whether the documented statement is an exported type declaration of a table type. */
  predicate IsTableDeclaration(stmt: Option<Stmt>) {
    stmt.Some? && stmt.value.ExportedTypeDeclaration?
    && stmt.value.typeDeclaration.typeDefinition.Table?
  }

  /** The fields a table-type declaration declares, in declaration order;
      any other statement, or none, declares no fields. */
  function StructuralFields(stmt: Option<Stmt>): (fields: seq<Field>)
    ensures !IsTableDeclaration(stmt) ==> fields == []
    ensures IsTableDeclaration(stmt) ==>
              var declared := stmt.value.typeDeclaration.typeDefinition.fields;
              && |fields| == |declared|
              && forall k :: 0 <= k < |declared| ==>
                   && fields[k].name == FirstIdentifier(declared[k].keyTokens)
                   && fields[k].luaType == declared[k].value
                   && fields[k].desc == FieldDesc(declared[k].leadingTrivia)
  {
    match stmt
    case Some(ExportedTypeDeclaration(declaration)) =>
      (match declaration.typeDefinition
       case Table(declared) => seq(|declared|, k requires 0 <= k < |declared| => StructuralField(declared[k]))
       case _ => [])
    case _ => []
  }

  lemma {:induction false} CommentLinesAppend(a: seq<TokenType>, b: seq<TokenType>)
    ensures CommentLines(a + b) == CommentLines(a) + CommentLines(b)
    decreases |a|
  {
    if a == [] {
      assert a + b == b;
    } else {
      assert (a + b)[1..] == a[1..] + b;
      CommentLinesAppend(a[1..], b);
    }
  }

  lemma CommentLinesSkip(a: seq<TokenType>, t: TokenType, b: seq<TokenType>)
    requires !t.IsComment()
    ensures CommentLines(a + [t] + b) == CommentLines(a + b)
  {
    assert CommentLines([t]) == [] by {
      assert [t][1..] == [];
    }
    CommentLinesAppend(a + [t], b);
    CommentLinesAppend(a, [t]);
    CommentLinesAppend(a, b);
  }

  /** Only comments count: trivia that is not a comment leaves the
      description as it is, wherever it stands. */
  lemma NonCommentIgnored(a: seq<TokenType>, t: TokenType, b: seq<TokenType>)
    requires !t.IsComment()
    ensures FieldDesc(a + [t] + b) == FieldDesc(a + b)
  {
    CommentLinesSkip(a, t, b);
  }

  /** Without comments the description is empty. */
  lemma {:induction false} NoCommentNoDesc(trivia: seq<TokenType>)
    requires forall k :: 0 <= k < |trivia| ==> !trivia[k].IsComment()
    ensures CommentLines(trivia) == []
    ensures FieldDesc(trivia) == ""
    decreases |trivia|
  {
    if trivia != [] {
      NoCommentNoDesc(trivia[1..]);
    }
  }

  lemma LinesOfOneLine(comment: string)
    requires '\n' !in comment
    ensures Join(TrimEach(Lines(comment)), "\n") == Trim(comment)
  {
    if comment != [] {
      assert IndexOfNewline(comment) == |comment|;
      assert Lines(comment) == [comment];
      assert TrimEach([comment]) == [Trim(comment)];
    }
  }

  lemma CommentLinesOfOne(token: TokenType)
    requires token.IsComment()
    ensures CommentLines([token]) == TrimEach(Lines(token.comment))
  {
    assert [token][1..] == [];
  }

  /** A single one-line comment gives its own text, trimmed. */
  lemma OneLineCommentDesc(token: TokenType)
    requires token.IsComment() && '\n' !in token.comment
    ensures FieldDesc([token]) == Trim(token.comment)
  {
    CommentLinesOfOne(token);
    LinesOfOneLine(token.comment);
    TrimIdempotent(token.comment);
  }

  lemma JoinTwo(a: string, b: string, sep: string)
    ensures Join([a, b], sep) == a + sep + b
  {
    assert [a, b][1..] == [b];
  }

  lemma CommentLinesOfTwo(first: TokenType, second: TokenType)
    requires first.IsComment() && second.IsComment()
    requires first.comment != [] && '\n' !in first.comment
    requires second.comment != [] && '\n' !in second.comment
    ensures CommentLines([first, second]) == [Trim(first.comment), Trim(second.comment)]
  {
    assert [first, second] == [first] + [second];
    CommentLinesAppend([first], [second]);
    CommentLinesOfOne(first);
    CommentLinesOfOne(second);
    assert IndexOfNewline(first.comment) == |first.comment|;
    assert IndexOfNewline(second.comment) == |second.comment|;
    assert TrimEach([first.comment]) == [Trim(first.comment)];
    assert TrimEach([second.comment]) == [Trim(second.comment)];
  }

  /** Two one-line comments give their trimmed texts on two lines, the
      whole trimmed again. */
  lemma TwoCommentsDesc(first: TokenType, second: TokenType)
    requires first.IsComment() && second.IsComment()
    requires first.comment != [] && '\n' !in first.comment
    requires second.comment != [] && '\n' !in second.comment
    ensures FieldDesc([first, second]) == Trim(Trim(first.comment) + "\n" + Trim(second.comment))
  {
    CommentLinesOfTwo(first, second);
    JoinTwo(Trim(first.comment), Trim(second.comment), "\n");
  }

  /** A documented type. */
  datatype TypeDocEntry = TypeDocEntry(
    name: string,
    desc: string,
    luaType: Option<string>,
    fields: seq<Field>,
    tags: seq<CustomTag>,
    private: bool,
    ignore: bool,
    outputSource: OutputSource,
    source: DocComment,
    within: string)
  {
    /** The keys a serialized entry has: an absent type, empty lists and
        false flags are left out; `output_source` is written as `source`,
        and neither the comment nor `within` is written. */
    function SerializedKeys(): (keys: set<string>)
      ensures "lua_type" in keys <==> luaType.Some?
      ensures "fields" in keys <==> fields != []
      ensures "private" in keys <==> private
      ensures "ignore" in keys <==> ignore
      ensures "tags" in keys <==> tags != []
      ensures "source" in keys
      ensures "within" !in keys
    {
      {"name", "desc", "source"}
      + (if luaType.Some? then {"lua_type"} else {})
      + (if fields != [] then {"fields"} else {})
      + (if tags != [] then {"tags"} else {})
      + (if private then {"private"} else {})
      + (if ignore then {"ignore"} else {})
    }
  }

  const UnusedMessage := "This tag is unused by type doc entries."

  function AsLuaType(t: Tag): Option<string> {
    if t.Type? then Some(t.typeTag.luaType.text) else None
  }

  function AsField(t: Tag): Option<Field> {
    if t.Field? then Some(FieldFromTag(t.field)) else None
  }

  function AsCustom(t: Tag): Option<CustomTag> {
    if t.Custom? then Some(t.custom) else None
  }

  predicate HasPrivate(tags: seq<Tag>) {
    exists i :: 0 <= i < |tags| && tags[i].Private?
  }

  predicate HasIgnore(tags: seq<Tag>) {
    exists i :: 0 <= i < |tags| && tags[i].Ignore?
  }

  /** The tag kinds a type entry accepts. */
  predicate Applies(t: Tag) {
    t.Type? || t.Field? || t.Custom? || t.Private? || t.Ignore?
  }

  function Unused(t: Tag): Option<Tag> {
    if Applies(t) then None else Some(t)
  }

  /** The entry after folding `tags` into the one the arguments start. */
  function Folded(args: DocEntryParseArguments, tags: seq<Tag>): (entry: TypeDocEntry)
    requires args.within.Some?
    ensures entry.name == args.name && entry.desc == args.desc && entry.within == args.within.value
    ensures entry.source == args.source && entry.outputSource == args.source.outputSource
    ensures var structural := StructuralFields(args.source.stmt);
            |entry.fields| >= |structural| && entry.fields[..|structural|] == structural
    ensures tags == [] ==> entry.luaType.None? && entry.tags == [] && !entry.private && !entry.ignore
  {
    TypeDocEntry(
      args.name,
      args.desc,
      LastPicked(tags, AsLuaType),
      StructuralFields(args.source.stmt) + Collect(tags, AsField),
      Collect(tags, AsCustom),
      HasPrivate(tags),
      HasIgnore(tags),
      args.source.outputSource,
      args.source,
      args.within.value)
  }

  /** Folding one more tag: `@type` overwrites the type, `@field` and custom
      tags are pushed, `@private` and `@ignore` set their flag, and any other
      tag leaves the entry as it is. */
  lemma FoldedSnoc(args: DocEntryParseArguments, tags: seq<Tag>, t: Tag)
    requires args.within.Some?
    ensures var before := Folded(args, tags);
            Folded(args, tags + [t]) == match t
              case Type(typeTag) => before.(luaType := Some(typeTag.luaType.text))
              case Field(fieldTag) => before.(fields := before.fields + [FieldFromTag(fieldTag)])
              case Custom(customTag) => before.(tags := before.tags + [customTag])
              case Private(_) => before.(private := true)
              case Ignore(_) => before.(ignore := true)
              case _ => before
  {
    var next := tags + [t];
    CollectSnoc(tags, t, AsLuaType);
    CollectSnoc(tags, t, AsField);
    CollectSnoc(tags, t, AsCustom);
    HasFlagSnoc(tags, t);
    var structural := StructuralFields(args.source.stmt);
    assert Folded(args, next).fields == structural + Collect(next, AsField);
    assert Folded(args, tags).fields == structural + Collect(tags, AsField);
  }

  lemma HasFlagSnoc(tags: seq<Tag>, t: Tag)
    ensures HasPrivate(tags + [t]) == (HasPrivate(tags) || t.Private?)
    ensures HasIgnore(tags + [t]) == (HasIgnore(tags) || t.Ignore?)
  {
    var next := tags + [t];
    assert forall k :: 0 <= k < |tags| ==> next[k] == tags[k];
    assert next[|tags|] == t;
  }

  /** The result of building a type entry: every tag applies and the entry
      is returned, or one diagnostic per inapplicable tag is. */
  function Build(args: DocEntryParseArguments): (r: Result<TypeDocEntry, seq<Diagnostic>>)
    requires args.within.Some?
    ensures r.Err? ==> r.error != [] && forall k :: 0 <= k < |r.error| ==> r.error[k].message == UnusedMessage
    ensures r.Ok? ==> r.value == Folded(args, args.tags)
  {
    var unused := Collect(args.tags, Unused);
    if unused != [] then Err(Diagnose(unused, UnusedMessage)) else Ok(Folded(args, args.tags))
  }

  /** The builder: pre-populate the structural fields, fold the tags into the
      entry while pushing unused tags, then turn those into diagnostics. */
  method Parse(args: DocEntryParseArguments) returns (r: Result<TypeDocEntry, seq<Diagnostic>>)
    requires args.within.Some?
    ensures r == Build(args)
  {
    var fields := StructuralFields(args.source.stmt);
    var docEntry := TypeDocEntry(args.name, args.desc, None, fields, [], false, false,
                                 args.source.outputSource, args.source, args.within.value);
    var tags := args.tags;
    var unusedTags: seq<Tag> := [];
    assert docEntry == Folded(args, tags[..0]);

    for i := 0 to |tags|
      invariant docEntry == Folded(args, tags[..i])
      invariant unusedTags == Collect(tags[..i], Unused)
    {
      var tag := tags[i];
      assert tags[..i + 1] == tags[..i] + [tag];
      FoldedSnoc(args, tags[..i], tag);
      CollectSnoc(tags[..i], tag, Unused);
      match tag
      case Type(typeTag) => docEntry := docEntry.(luaType := Some(typeTag.luaType.text));
      case Field(fieldTag) => docEntry := docEntry.(fields := docEntry.fields + [FieldFromTag(fieldTag)]);
      case Custom(customTag) => docEntry := docEntry.(tags := docEntry.tags + [customTag]);
      case Private(_) => docEntry := docEntry.(private := true);
      case Ignore(_) => docEntry := docEntry.(ignore := true);
      case _ => unusedTags := unusedTags + [tag];
    }
    assert tags[..|tags|] == tags;

    if unusedTags != [] {
      var diagnostics: seq<Diagnostic> := [];
      for j := 0 to |unusedTags|
        invariant diagnostics == Diagnose(unusedTags[..j], UnusedMessage)
      {
        assert unusedTags[..j + 1][..j] == unusedTags[..j];
        diagnostics := diagnostics + [unusedTags[j].ToDiagnostic(UnusedMessage)];
      }
      assert unusedTags[..|unusedTags|] == unusedTags;
      return Err(diagnostics);
    }
    return Ok(docEntry);
  }

  /** The build succeeds exactly when every tag is one a type entry accepts. */
  lemma BuildOkIff(args: DocEntryParseArguments)
    requires args.within.Some?
    ensures Build(args).Ok? <==> forall i :: 0 <= i < |args.tags| ==> Applies(args.tags[i])
  {
    CollectEmpty(args.tags, Unused);
  }

  /** On failure there is exactly one diagnostic per inapplicable tag, in tag
      order, anchored at that tag and carrying the type-entry message. */
  lemma BuildErr(args: DocEntryParseArguments)
    requires args.within.Some?
    ensures var r := Build(args);
            var rejected := Kept(args.tags, Unused);
            r.Err? ==> && r.error != []
                       && |r.error| == |rejected|
                       && (forall k :: 0 <= k < |rejected| ==>
                             !Applies(rejected[k])
                             && r.error[k] == Diagnostic(rejected[k].Source(), UnusedMessage))
                       && (forall t :: t in args.tags && !Applies(t) ==> t in rejected)
  {
    CollectSelf(args.tags, Unused);
    KeptMembers(args.tags, Unused);
    CollectIsKept(args.tags, Unused);
  }

  /** On success the arguments pass through, the fields are the structural
      fields followed by one field per `@field` tag in tag order, and the
      custom tags are the custom tags in tag order. */
  lemma BuildOkFields(args: DocEntryParseArguments)
    requires args.within.Some?
    ensures var r := Build(args);
            var structural := StructuralFields(args.source.stmt);
            var fieldTags := Kept(args.tags, AsField);
            var customTags := Kept(args.tags, AsCustom);
            r.Ok? ==>
              && r.value.name == args.name && r.value.desc == args.desc
              && r.value.within == args.within.value && r.value.source == args.source
              && r.value.outputSource == args.source.outputSource
              && |r.value.fields| == |structural| + |fieldTags|
              && r.value.fields[..|structural|] == structural
              && (forall k :: 0 <= k < |fieldTags| ==>
                    fieldTags[k].Field? && r.value.fields[|structural| + k] == FieldFromTag(fieldTags[k].field))
              && |r.value.tags| == |customTags|
              && (forall k :: 0 <= k < |customTags| ==> customTags[k] == Custom(r.value.tags[k]))
  {
    CollectIsKept(args.tags, AsField);
    CollectIsKept(args.tags, AsCustom);
  }

  /** On success the type is that of the last `@type` tag, or absent without
      one, and each flag is set exactly when a tag of its kind is present. */
  lemma BuildOkTypeAndFlags(args: DocEntryParseArguments)
    requires args.within.Some?
    ensures var r := Build(args);
            var tags := args.tags;
            r.Ok? ==>
              && (r.value.luaType.None? <==> forall i :: 0 <= i < |tags| ==> !tags[i].Type?)
              && (r.value.luaType.Some? ==>
                    exists i :: && 0 <= i < |tags| && tags[i].Type?
                                && tags[i].typeTag.luaType.text == r.value.luaType.value
                                && forall j :: i < j < |tags| ==> !tags[j].Type?)
              && (r.value.private <==> exists i :: 0 <= i < |tags| && tags[i].Private?)
              && (r.value.ignore <==> exists i :: 0 <= i < |tags| && tags[i].Ignore?)
  {
    LastPickedIsLast(args.tags, AsLuaType);
  }

  /** A statement that is not an exported table-type declaration starts the
      entry with no fields: only `@field` tags contribute. */
  lemma NoTableNoStructuralFields(args: DocEntryParseArguments)
    requires args.within.Some?
    requires !IsTableDeclaration(args.source.stmt)
    ensures Build(args).Ok? ==> Build(args).value.fields == Collect(args.tags, AsField)
    ensures Build(args).Ok? ==> |Build(args).value.fields| == |Kept(args.tags, AsField)|
  {
    BuildOkFields(args);
  }

  /** `@private` and `@ignore` are idempotent: another such tag changes
      nothing beyond setting its flag. */
  lemma FlagTagIdempotent(args: DocEntryParseArguments, t: Tag)
    requires args.within.Some?
    requires t.Private? || t.Ignore?
    ensures var before := Build(args);
            var after := Build(args.(tags := args.tags + [t]));
            && after.Ok? == before.Ok?
            && (after.Ok? && t.Private? ==> after.value == before.value.(private := true))
            && (after.Ok? && t.Ignore? ==> after.value == before.value.(ignore := true))
            && (after.Err? ==> after.error == before.error)
            && (HasPrivate(args.tags) && t.Private? ==> after == before)
            && (HasIgnore(args.tags) && t.Ignore? ==> after == before)
  {
    FoldedSnoc(args, args.tags, t);
    CollectSnoc(args.tags, t, Unused);
  }

  lemma ExampleTrim(comment: string, body: string)
    requires comment == " the x value" && body == "the x value"
    ensures Trim(comment) == body
  {
    assert comment == [' '] + body;
    TrimDropsLeading(' ', body);
    TrimUnchanged(body);
  }

  lemma ExampleComment(comment: string, body: string)
    requires comment == " the x value" && body == "the x value"
    ensures FieldDesc([SingleLineComment(comment)]) == body
  {
    ExampleTrim(comment, body);
    assert '\n' !in comment;
    OneLineCommentDesc(SingleLineComment(comment));
  }

  lemma ExampleField(declared: TypeField)
    requires declared == TypeField([Identifier("x")], [SingleLineComment(" the x value")], "number")
    ensures StructuralField(declared) == Field.Field("x", "number", "the x value")
  {
    ExampleComment(" the x value", "the x value");
    assert FirstIdentifier([Identifier("x")]) == "x";
  }

  /** The worked example of a table type `{ x: number }` whose field is
      preceded by the comment `-- the x value`, with no tags. */
  lemma CommentedTableField(args: DocEntryParseArguments, declared: TypeField)
    requires args.within.Some? && args.tags == []
    requires declared == TypeField([Identifier("x")], [SingleLineComment(" the x value")], "number")
    requires args.source.stmt == Some(ExportedTypeDeclaration(TypeDeclaration(Table([declared]))))
    ensures Build(args).Ok?
    ensures Build(args).value.fields == [Field.Field("x", "number", "the x value")]
  {
    ExampleField(declared);
    var structural := StructuralFields(args.source.stmt);
    assert structural == [StructuralField(declared)];
  }
}
