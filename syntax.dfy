/**
 * The parts of a Swift declaration group that the AddPreviews macro reads,
 * as plain data. Each datatype stands for the swift-syntax node of the same
 * name; the alternatives the macro never distinguishes are folded into one
 * `Other…` constructor.
 */
module Syntax {
  import opened Wrappers

  /** The two token kinds the macro tells apart: `.keyword(k)` and `.identifier(text)`. */
  datatype TokenKind = Keyword(keyword: string) | Identifier(text: string)

  function TokenText(k: TokenKind): string {
    match k
    case Keyword(keyword) => keyword
    case Identifier(text) => text
  }

  datatype SourcePresence = Present | Missing

  /** A token together with the whitespace and comments around it. */
  datatype Token = Token(
    kind: TokenKind,
    leadingTrivia: string,
    trailingTrivia: string,
    presence: SourcePresence)

  /** The token as it appears in source, trivia included. */
  function SourceText(t: Token): string {
    t.leadingTrivia + TokenText(t.kind) + t.trailingTrivia
  }

  datatype SomeOrAnySpecifier = SomeSpecifier | AnySpecifier

  /**
   * `some C` / `any C`, a plain type name, or any other type
   * (member types `A.B`, compositions `A & B`, optionals, tuples, ...).
   */
  datatype TypeSyntax =
    | SomeOrAnyType(specifier: SomeOrAnySpecifier, constraint: TypeSyntax)
    | IdentifierType(name: TokenKind)
    | OtherType

  datatype TypeAnnotation = TypeAnnotation(typeSyntax: TypeSyntax)

  /** `x` in `var x = ...`, or any other pattern (tuple, wildcard, ...). */
  datatype Pattern = IdentifierPattern(identifier: string) | OtherPattern

  datatype PatternBinding = PatternBinding(pattern: Pattern, typeAnnotation: Option<TypeAnnotation>)

  /** A declaration modifier such as `static`, `public`, `private` or `private(set)`. */
  datatype DeclModifier = DeclModifier(name: TokenKind, detail: Option<string>)

  /** One item of the member block: a `var`/`let` declaration, or anything else. */
  datatype MemberDecl =
    | VariableDecl(modifiers: seq<DeclModifier>, bindings: seq<PatternBinding>)
    | OtherMemberDecl

  /** The kinds of declaration group a member macro can be attached to. */
  datatype DeclKind = StructDecl | ActorDecl | ClassDecl | EnumDecl | ProtocolDecl | ExtensionDecl

  /** The attributed declaration: its kind, its introducer keyword token and its members in source order. */
  datatype Declaration = Declaration(kind: DeclKind, introducer: Token, members: seq<MemberDecl>)

  /** The type an extension macro is asked to extend, with the trivia around it. */
  datatype AttachedType = AttachedType(leadingTrivia: string, text: string, trailingTrivia: string)
}
