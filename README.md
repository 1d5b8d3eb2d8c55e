# Moonwave tag-to-entry folding, modelled in Dafny

Moonwave extracts documentation from Luau comments. A comment block is split
into tags (`@param`, `@return`, `@field`, `@type`, `@within`, `@deprecated`,
`@since`, `@private`, `@ignore`, markers and custom tags). Each tag is a value
anchored at a span of the comment text. A builder for the entry kind then folds
the ordered tags into a documentation entry. The outcome is all-or-nothing:
either every tag applies to that kind and the entry is returned, or the builder
returns one diagnostic per inapplicable tag, in tag order.

This project models three pieces of that pipeline:

- the `@within` tag validator (`WithinTag::try_from`);
- the function/method entry builder (`FunctionDocEntry::parse`);
- the type entry builder (`TypeDocEntry::parse`). Before folding its tags, this
  builder reads the fields of a table-type declaration from the syntax tree.

Layout, one module per file:

| file | module | contents |
|---|---|---|
| `wrappers.dfy` | `Wrappers` | `Option`, `Result` |
| `span.dfy` | `Spans` | `Span` (text and start offset), `Diagnostic` (span and message) |
| `within.dfy` | `WithinTags` | `WithinTag`, `TryFrom` |
| `tags.dfy` | `Tags` | the closed `Tag` sum type and its payloads; `Source()` is where a tag's diagnostics are anchored |
| `syntax.dfy` | `Syntax` | the parts of the Luau syntax tree that are read: token kinds, table fields, exported type declarations |
| `doc_entry.dfy` | `DocEntries` | `DocEntryParseArguments`, `DocComment`, `OutputSource`, `Diagnose` (one diagnostic per unused tag) |
| `tag_fold.dfy` | `TagFold` | the two fold shapes both builders use. `Collect` pushes every payload of one kind. `LastPicked` overwrites, so the last one wins. `Kept` is a front-to-back filter used as their reference |
| `text.dfy` | `Text` | Rust's `str::trim`, `str::lines` and `join`, as used for field descriptions |
| `function.dfy` | `FunctionEntry` | `FunctionType`, `FunctionDocEntry`, the builder |
| `type_definition.dfy` | `TypeDefinition` | `Field`, structural field extraction, `TypeDocEntry`, the builder |

Each builder has two parts:

- A pure function `Build` states the result.
- A method `Parse` runs the loops the source runs. The first loop pushes into
  the lists and overwrites the last-wins values. The second loop turns the
  unused tags into diagnostics. `Parse` is proved to return exactly `Build`.

The lemmas beside each builder state what `Build` means:

- when it succeeds;
- what its diagnostics are;
- that list fields keep tag order and duplicates;
- last-wins and idempotence.

The `within.unwrap()` in both builders aborts when no scope is supplied. It is
modelled as the precondition `args.within.Some?`.

Two behaviours of the code worth knowing:

- An empty `@within` argument is reported with the message
  "This tag has stuff after it" (src/tags/within.rs:16).
- A built entry's `within` is whatever scope string the caller supplied,
  the empty string included (src/doc_entry/function.rs:52,
  extractor/src/doc_entry/type_definition.rs:127). Only a scope read from a
  `@within` tag is known to be non-empty (`WithinTags.TryFromExactlyValid`).

## Model

| member | source | states |
|---|---|---|
| `WithinTags.TryFrom` | src/tags/within.rs:14-23 | The result is Ok exactly when the span is non-empty. An Err holds a diagnostic at that same span reading "This tag has stuff after it". An Ok tag has both `name` and `source` equal to the input span. |
| `WithinTags.TryFromExactlyValid` | src/tags/within.rs:14-23 | A span yields exactly the tags whose name and source are that span and that span is non-empty. Every tag that is built has a non-empty name. |
| `WithinTags.OutcomeDependsOnlyOnEmptiness` | src/tags/within.rs:15-17 | Two spans that are both empty, or both non-empty, get the same outcome. |
| `Text.TrimStart` | extractor/src/doc_entry/type_definition.rs:100 | The result is a suffix of the input. Everything removed is whitespace. The result does not start with whitespace. |
| `Text.TrimEnd` | extractor/src/doc_entry/type_definition.rs:104 | The result is a prefix of the input. Everything removed is whitespace. The result does not end with whitespace. |
| `Text.Trim` | extractor/src/doc_entry/type_definition.rs:104 | A non-empty result starts and ends with a character that is not whitespace. |
| `Text.TrimIsSlice` | extractor/src/doc_entry/type_definition.rs:100-104 | Trimming returns a contiguous slice of the input and removes only whitespace on either side of it. |
| `Text.TrimIdempotent` | extractor/src/doc_entry/type_definition.rs:100-104 | Trimming a trimmed string changes nothing. |
| `Text.TrimUnchanged` | extractor/src/doc_entry/type_definition.rs:104 | A string with no whitespace at either end is its own trim. |
| `Text.TrimDropsLeading` | extractor/src/doc_entry/type_definition.rs:104 | Leading whitespace does not reach the trimmed result. |
| `Text.IndexOfNewline` | extractor/src/doc_entry/type_definition.rs:100 | Returns the position of the first newline, or the length when there is none. |
| `Text.Lines` | extractor/src/doc_entry/type_definition.rs:100 | No line contains a newline. There are lines exactly when the text is non-empty. |
| `Text.JoinLines` | extractor/src/doc_entry/type_definition.rs:100-103 | Joining the lines of a text with "\n" gives the text back, except for a final newline: `lines` and `join` are inverse. |
| `TypeDefinition.FieldFromTag` | extractor/src/doc_entry/type_definition.rs:23-31 | A `@field` tag becomes a field whose name, type and description are the tag's texts, unchanged. |
| `TypeDefinition.FirstIdentifier` | extractor/src/doc_entry/type_definition.rs:79-88 | A structural field's name is the identifier of the first Identifier token of its key. It is the empty string when the key has none. |
| `TypeDefinition.NonCommentIgnored` | extractor/src/doc_entry/type_definition.rs:95-99 | Only single-line and multi-line comments count: trivia of any other kind can be removed anywhere without changing the description. |
| `TypeDefinition.NoCommentNoDesc` | extractor/src/doc_entry/type_definition.rs:90-105 | With no comment among the key's leading trivia, the description is empty. |
| `TypeDefinition.OneLineCommentDesc` | extractor/src/doc_entry/type_definition.rs:90-105 | A single comment without a newline gives its own text, trimmed, as the description. |
| `Text.Join` | extractor/src/doc_entry/type_definition.rs:103 | No parts give the empty string, one part gives itself, and otherwise the result starts with the first part followed by the separator. |
| `TypeDefinition.CommentLines` | extractor/src/doc_entry/type_definition.rs:95-102 | Trivia with no comment gives no lines. |
| `TypeDefinition.FieldDesc` | extractor/src/doc_entry/type_definition.rs:90-105 | The description neither starts nor ends with whitespace, and it is empty when the trivia holds no comment. |
| `TypeDefinition.TwoCommentsDesc` | extractor/src/doc_entry/type_definition.rs:90-105 | Two non-empty one-line comments give their trimmed texts joined by a newline, the whole trimmed again. |
| `TypeDefinition.StructuralField` | extractor/src/doc_entry/type_definition.rs:78-111 | A declared field is named by the first identifier of its key ("" without one) and typed by its value text. Its description has no surrounding whitespace and is empty without comments. |
| `TypeDefinition.StructuralFields` | extractor/src/doc_entry/type_definition.rs:70-119 | With no statement, a statement that is not an exported type declaration, or a type that is not a table, there are no fields. Otherwise there is one field per declared field, in declaration order. Each has the key's first identifier as its name, the value text as its type, and the description built from the key's comments. |
| `TypeDefinition.CommentedTableField` | extractor/src/doc_entry/type_definition.rs:76-113 | For a table `{ x: number }` whose field follows the comment `-- the x value`, with no tags, the entry's fields are exactly `Field("x", "number", "the x value")`. |
| `TypeDefinition.TypeDocEntry.SerializedKeys` | extractor/src/doc_entry/type_definition.rs:39-57 | The serialized entry has `lua_type` only when a type is set, `fields` only when there are fields, `tags` only when there are custom tags, and `private`/`ignore` only when true. `source` (the renamed output source) is always written; `within` is never written. |
| `TypeDefinition.FoldedSnoc` | extractor/src/doc_entry/type_definition.rs:136-151 | Folding one more tag: `@type` overwrites the type, `@field` and custom tags are appended, and `@private`/`@ignore` set their flag. Any other tag leaves the entry unchanged. |
| `TypeDefinition.HasFlagSnoc` | extractor/src/doc_entry/type_definition.rs:146-147 | After one more tag, a flag is set exactly when it was already set or the tag is of its kind. |
| `TypeDefinition.Folded` | extractor/src/doc_entry/type_definition.rs:121-151 | The folded entry takes name, desc, within, source and output source from the arguments and starts its fields with the structural fields. With no tags it has no type, no custom tags and both flags false. |
| `TypeDefinition.Build` | extractor/src/doc_entry/type_definition.rs:121-162 | An Err holds a non-empty batch whose every message reads "This tag is unused by type doc entries."; an Ok holds the entry folded from all the tags. |
| `TypeDefinition.Parse` | extractor/src/doc_entry/type_definition.rs:61-163 | The builder's loops return exactly `Build`: structural fields first, then the tag fold; Err with the diagnostics when any tag was unused. |
| `TypeDefinition.BuildOkIff` | extractor/src/doc_entry/type_definition.rs:149-162 | The build is Ok exactly when every tag is a Type, Field, Custom, Private or Ignore tag. |
| `TypeDefinition.BuildErr` | extractor/src/doc_entry/type_definition.rs:153-160 | An Err holds a non-empty batch with exactly one diagnostic per inapplicable tag, in tag order. Each is anchored at its tag and reads "This tag is unused by type doc entries.". Every inapplicable tag is reported. |
| `TypeDefinition.BuildOkFields` | extractor/src/doc_entry/type_definition.rs:121-147 | On Ok, name, desc, within, source and output source come from the arguments. The fields are the structural fields followed by one field per `@field` tag in tag order, so the count is the structural count plus the `@field` count. The custom tags are exactly the Custom tags, in order. |
| `TypeDefinition.BuildOkTypeAndFlags` | extractor/src/doc_entry/type_definition.rs:126-147 | On Ok, the type is absent exactly when there is no `@type` tag. Otherwise it is the type of the last `@type` tag. `private`/`ignore` are true exactly when at least one tag of their kind is present. |
| `TypeDefinition.NoTableNoStructuralFields` | extractor/src/doc_entry/type_definition.rs:114-118 | When the documented statement is not an exported table type, the fields are exactly the fields of the `@field` tags, in tag order. |
| `TypeDefinition.FlagTagIdempotent` | extractor/src/doc_entry/type_definition.rs:146-147 | One more `@private`/`@ignore` tag changes nothing but its flag, and changes nothing at all when the flag is already set. |
| `DocEntries.Diagnose` | extractor/src/doc_entry/type_definition.rs:154-157 | Gives one diagnostic per tag, in order, each anchored at its tag's source span with the given message. |
| `TagFold.CollectIsKept` | src/doc_entry/function.rs:60-64 | A push-in-a-loop collection takes one payload from each tag of its kind, in tag order. Nothing is dropped, merged or reordered, and duplicates are kept. |
| `TagFold.KeptMembers` | src/doc_entry/function.rs:60-67 | The kept tags are exactly the input tags of the kind in question. |
| `TagFold.KeptAppend` | src/doc_entry/function.rs:60-67 | Filtering a concatenation concatenates the filtered parts. |
| `TagFold.CollectAppend` | src/doc_entry/function.rs:60-67 | Collecting over a concatenation concatenates the collections. |
| `TagFold.CollectEmpty` | src/doc_entry/function.rs:67-71 | The collection is empty exactly when no tag is of the kind collected. |
| `TagFold.CollectSelf` | src/doc_entry/function.rs:67 | The unused-tag list is exactly the inapplicable tags, in order. |
| `TagFold.LastPickedIsLast` | src/doc_entry/function.rs:65-66 | Last wins: the result is absent exactly when no tag is of the kind. Otherwise it comes from a tag of that kind with no tag of that kind after it. |
| `TagFold.CollectSnoc` | src/doc_entry/function.rs:60-69 | One more tag is appended to a collection when it is of the kind, and replaces the last-wins value when it is of the kind. |
| `FunctionEntry.FunctionType.SerializedName` | src/doc_entry/function.rs:12-16 | Methods serialize as "method" and static functions as "static". |
| `FunctionEntry.FunctionDocEntry.SerializedKeys` | src/doc_entry/function.rs:29-36 | `since` and `deprecated` are written only when present; the comment source is never written. |
| `FunctionEntry.Build` | src/doc_entry/function.rs:52-91 | An Err holds a non-empty batch whose every message reads "This tag is unused by function doc entries."; an Ok entry carries the given name, desc, scope, source and function type. |
| `FunctionEntry.Parse` | src/doc_entry/function.rs:40-92 | The builder's two loops return exactly `Build`. |
| `FunctionEntry.BuildOkIff` | src/doc_entry/function.rs:67-78 | The build is Ok exactly when every tag is a Param, Return, Marker, Deprecated or Since tag. |
| `FunctionEntry.BuildErr` | src/doc_entry/function.rs:71-78 | An Err holds a non-empty batch with exactly one diagnostic per inapplicable tag, in tag order. Each is anchored at its tag and reads "This tag is unused by function doc entries.". Every inapplicable tag is reported. |
| `FunctionEntry.BuildOk` | src/doc_entry/function.rs:60-91 | On Ok, name, desc, within (the supplied scope), source and the function type pass through unchanged. params, returns and markers are exactly the tags of their kind, in order, duplicates kept. `deprecated` is the last `@deprecated` tag and `since` the version text of the last `@since` tag, each absent exactly when there is no such tag. |
| `FunctionEntry.DeprecatedLastWins` | src/doc_entry/function.rs:65 | Appending a `@deprecated` tag replaces the stored one and changes nothing else, whether the build succeeds or fails. |
| `FunctionEntry.ParamAppended` | src/doc_entry/function.rs:62 | Appending a `@param` tag adds it after the existing params, even when it duplicates one, and changes nothing else; a failed build keeps the same errors. |
| `FunctionEntry.OptionalKeysOmitted` | src/doc_entry/function.rs:29-33 | A built entry serializes `since` exactly when a `@since` tag is present, and `deprecated` exactly when a `@deprecated` tag is present. |

## Left out

- `ClassDocEntry::parse` (src/doc_entry/class.rs) is `unimplemented!()`, so there is no behaviour to model.
- cli/src/getDocusaurusConfig.ts builds configuration for the site generator from the file system, the working directory and the clock. It is not part of this model.
- Tag grammars and the tag parser are not shown, except for `@within`. Tags enter as already-parsed values. Their payloads keep only the spans the builders read, plus each tag's source span. `Tag::diagnostic` is not shown either. It is modelled as a diagnostic anchored at the tag's own source span.
- The Luau syntax tree (full_moon) is a foreign library. A table field is abstracted as:
  - the kinds of its key's tokens;
  - the trivia before its key;
  - its value type as opaque text.

  How full_moon prints a type (`value().to_string()`) is not modelled.
- `Span`'s internals are not shown. A span is its text and start offset, and it is empty when the text is. `Diagnostics::from` is taken to be the batch as a sequence.
- Text.Lines: Rust's `str::lines` also strips a `\r` before each `\n`. The model keeps that `\r`. Every line is trimmed right after splitting, and `\r` is whitespace, so the description is the same either way.
- Strings are sequences of Unicode scalar values rather than UTF-8 bytes. Trimming and line splitting give the same text either way.
- The abort when no scope is supplied (`within.unwrap()`) is a precondition of both builders, not a modelled runtime failure.
- Borrowing is not modelled. An entry holds a copy of the `DocComment` value where the source holds a reference with a lifetime.
- Serialization is modelled only as which keys an entry would have, not as the encoded output.
