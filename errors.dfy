/**
 * What the macro reports: the fatal errors it throws, with the text each
 * shows the user, and the fix-it diagnostic for a declaration that is one
 * keyword away from a struct.
 */
module Errors {
  import opened Wrappers
  import opened Text
  import opened Syntax

  const MacroName := "AddPreviews"

  /** The most previews Xcode displays at once. */
  const MaxPreviews := 15

  /** `InvalidDeclaration.DeclarationError` and `TooManyPreviewsError(count:)`. */
  datatype ExpansionError = DeclarationError | TooManyPreviewsError(count: nat)

  const TooManyPreviewsPrefix :=
    "Xcode currently only supports displaying 15 previews at once, and you have "

  const TooManyPreviewsSuffix :=
    ".\n\nSome options are:\n"
    + "    1. If you're previewing a small view, put multiple variants together in a stack, "
    + "instead of as separate properties, like this:\n"
    + "        ```\n"
    + "        var tabVariants: some View {\n"
    + "            VStack {\n"
    + "                MyView(tab: .tab1)\n"
    + "                MyView(tab: .tab2)\n"
    + "            }\n"
    + "        }\n"
    + "        ```\n"
    + "    2. Break down your view to be composed of smaller component views with less state, "
    + "and add your thorough preview coverage on those, instead of the overall view that they're a part of."

  /** The count a too-many-previews message reports, read back from its text. */
  function ReportedCount(message: string): Option<nat>
  {
    var rest :- StripPrefix(message, TooManyPreviewsPrefix);
    var digits :- StripSuffix(rest, TooManyPreviewsSuffix);
    ParseDecimal(digits)
  }

  const DeclarationMessage := MacroName + " can only be used on structs"

  lemma DeclarationMessageText()
    ensures DeclarationMessage == "AddPreviews can only be used on structs"
  {
  }

  lemma DeclarationMessageReportsNoCount()
    ensures ReportedCount(DeclarationMessage) == None
  {
    assert |DeclarationMessage| < |TooManyPreviewsPrefix|;
  }

  /** The too-many-previews text carries its count where it can be read back. */
  lemma TooManyPreviewsReportsCount(count: nat)
    ensures ReportedCount(TooManyPreviewsPrefix + Decimal(count) + TooManyPreviewsSuffix) == Some(count)
  {
    StripAffixes(TooManyPreviewsPrefix, Decimal(count), TooManyPreviewsSuffix);
    ParseDecimalOfDecimal(count);
  }

  /** `DeclarationError().description`: a fixed sentence with no count in it. */
  function DeclarationDescription(): (r: string)
    ensures r == "AddPreviews can only be used on structs"
    ensures ReportedCount(r) == None
  {
    DeclarationMessageText();
    DeclarationMessageReportsNoCount();
    DeclarationMessage
  }

  /** `TooManyPreviewsError(count:).description`: an explanation that reports the count. */
  function TooManyPreviewsDescription(count: nat): (r: string)
    ensures ReportedCount(r) == Some(count)
  {
    TooManyPreviewsReportsCount(count);
    TooManyPreviewsPrefix + Decimal(count) + TooManyPreviewsSuffix
  }

  /**
   * The text shown for each error: the fixed declaration message, or the
   * too-many-previews explanation, which reports exactly the offending count.
   */
  function Description(e: ExpansionError): (r: string)
    ensures e.DeclarationError? ==> r == "AddPreviews can only be used on structs"
    ensures e.TooManyPreviewsError? <==> ReportedCount(r).Some?
    ensures e.TooManyPreviewsError? ==> ReportedCount(r) == Some(e.count)
  {
    match e
    case DeclarationError => DeclarationDescription()
    case TooManyPreviewsError(count) => TooManyPreviewsDescription(count)
  }

  datatype MessageID = MessageID(domain: string, id: string)

  /** `FixIt.replace(message:oldNode:newNode:)`. */
  datatype FixIt = Replace(message: string, fixItID: MessageID, oldNode: Token, newNode: Token)

  /** A diagnostic attached to a token, with its one fix-it. */
  datatype Diagnostic = Diagnostic(node: Token, message: string, fixIt: FixIt)

  /**
   * The diagnostic for an actor, class or enum: it points at the introducer
   * keyword, reports the declaration error's text, and offers to replace the
   * keyword by `struct`, keeping the keyword's trivia and presence, so the
   * source text changes in the keyword alone.
   */
  function InvalidDeclarationDiagnostic(keyword: Token): (d: Diagnostic)
    ensures d.node == keyword && d.fixIt.oldNode == keyword
    ensures d.message == Description(DeclarationError)
    ensures d.fixIt.message == "Replace with struct"
    ensures d.fixIt.fixItID == MessageID("AddPreviews", "invalid-declaration")
    ensures SourceText(d.fixIt.newNode) == keyword.leadingTrivia + "struct" + keyword.trailingTrivia
    ensures d.fixIt.newNode == keyword.(kind := Identifier("struct"))
  {
    var newNode := Token(Identifier("struct"), keyword.leadingTrivia, keyword.trailingTrivia, keyword.presence);
    Diagnostic(
      keyword,
      Description(DeclarationError),
      Replace("Replace with struct", MessageID(MacroName, "invalid-declaration"), keyword, newNode))
  }
}
