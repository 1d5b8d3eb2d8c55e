/** The part of the Luau syntax tree the type-entry builder looks at: a
    statement that may be an exported type declaration whose type is a table,
    and each table field's key tokens, the trivia before its key, and its
    value type written out as text. */
module Syntax {

  /** The token kinds the builder distinguishes; every other kind is `OtherToken`. */
  datatype TokenType =
    | Identifier(identifier: string)
    | SingleLineComment(comment: string)
    | MultiLineComment(comment: string)
    | OtherToken(text: string)
  {
    predicate IsComment() {
      SingleLineComment? || MultiLineComment?
    }
  }

  /** One field of a table type: `keyTokens` are the tokens of its key,
      `leadingTrivia` the trivia before the key, `value` its type as text. */
  datatype TypeField = TypeField(keyTokens: seq<TokenType>, leadingTrivia: seq<TokenType>, value: string)

  datatype TypeInfo = Table(fields: seq<TypeField>) | OtherType

  datatype TypeDeclaration = TypeDeclaration(typeDefinition: TypeInfo)

  datatype Stmt = ExportedTypeDeclaration(typeDeclaration: TypeDeclaration) | OtherStmt
}
