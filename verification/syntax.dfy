/**
 The checker's view of a parsed translation unit. A `Node` holds exactly what the
 analysis reads from a libclang cursor: its kind, spelling, extent, tokens, the
 declared type as written and in canonical form, and its children in source order.
 */
module Syntax {
  import opened Results

  datatype CursorKind =
    | TranslationUnit
    | FunctionDecl
    | CompoundStmt
    | DeclStmt
    | VarDecl
    | OtherKind

  datatype Node = Node(
    kind: CursorKind,
    spelling: string,
    startFile: Option<string>,   // None when the extent has no file
    startLine: nat,
    startColumn: nat,
    endLine: nat,
    tokens: seq<string>,
    typeSpelling: string,
    canonicalSpelling: string,
    children: seq<Node>
  )

  /** Whether the declaration was written `auto` or `decltype(auto)`. */
  datatype AutoKind = Auto | DecltypeAuto {
    function Spelling(): string {
      match this
      case Auto => "auto"
      case DecltypeAuto => "decltype(auto)"
    }
  }

  /** One report: an `auto` declaration whose deduced type is an Eigen expression template. */
  datatype Issue = Issue(
    file: string,
    line: nat,
    column: nat,
    variable: string,
    canonicalType: string,
    typeAsWritten: string,
    autoKind: AutoKind,
    source: string
  )
}
