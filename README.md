# AddPreviews macro — a verified model

`@AddPreviews` is a Swift macro attached to a struct of SwiftUI preview
properties. Its member role does four things:

- It checks the kind of the declaration. A struct proceeds. An actor, class or enum gets a diagnostic whose fix-it replaces the keyword with `struct`. Anything else is a fatal error.
- It collects the eligible members: the variables without a `private` modifier whose first binding is a plain identifier, in source order.
- It refuses more than 15 eligible members, because Xcode shows at most 15 previews.
- It synthesizes three declarations: a cursor field `private var iterator = 0`, a `mutating func next() -> NamedView?` that switches on the cursor, and a `static var previews` that shows every eligible member labelled with its own name.

Its extension role makes the type conform to `Sequence & IteratorProtocol`, so
snapshot tests can walk the previews one by one. The macro implementation
provides both roles.

The model has these modules:

- `Syntax`: the swift-syntax nodes the macro reads, as plain data. This covers tokens with their trivia, declaration kinds, modifiers, pattern bindings and type annotations.
- `MemberFilter`: `isPrivateVariable`, `property`, `isGenericView` and the `filter`/`compactMap` pipeline. It also has an independent definition of eligibility and lemmas about order and exclusion.
- `Errors`: `DeclarationError` and `TooManyPreviewsError` with their exact message text, and the fix-it diagnostic for actors, classes and enums.
- `Generation`: the generated declarations as text. `previewsDeclaration` and `iteratorNextDeclaration` append to a string in a loop, so they are methods proved equal to specification functions. Each specification function has a reader that parses the text back, and round-trip lemmas show the text holds exactly the intended statements and cases, in order.
- `AddPreviewsMacro`: both roles.
  - The member role is written twice: as a function that states the outcome for every input, and as a method that follows the source step by step and calls the builder methods. The method is proved equal to the function.
  - Lemmas connect the declaration to the generated code (order, exclusion of private members, the empty case, the fix-it).
- `Runtime`: what the generated `next()` does when it runs. `PreviewProvider` is a class whose `cursor` field is the generated `iterator`. `Next` returns the case the cursor selects and advances the cursor by one on every path, like the `defer`. The library's `NamedView` is a name paired with opaque view content.
- `Text`: prefix and suffix stripping, line splitting and decimal rendering, each with its inverse.
- `Wrappers`: `Option`.
- `Scenarios`: a worked example in the style of the snapshot tests.

Where the macro implementation and the repository's other texts disagree, the model follows the implementation:

- The macro declaration (Sources/AddPreviews/AddPreviews.swift:26) is `@attached(member, names: named(previews))` only. It declares no extension role and does not name `iterator` or `next`, although the implementation provides the extension and generates both.
- The doc comment on the macro (Sources/AddPreviews/AddPreviews.swift:1-25) speaks of "static, nonprivate view properties" and shows `previews` listing bare member names. The implementation keeps instance members and members of any type, and labels each preview with `.previewDisplayName`.
- The NamedView tests (Tests/AddPreviewsTests/NamedViewTests.swift) build a `NamedView<Case>(case:view:)` whose name is the case's raw value. No source file defines that type, and the implementation generates no case enumeration. The `NamedView` the generated code builds holds a `name` and a `view`.
- In the `next()` switch, a member that is not declared `some View`/`any View` is returned as `Self.id`, unwrapped. The generated code compiles only if such a member already has type `NamedView?`. Every case and `previews` read members through `Self`/a static context, so the generated code also compiles only if every eligible member is `static`. The filter nevertheless keeps instance members (for example `var nonStaticView` and `var _1` ... `var _15` in Tests/AddPreviewsTests/AddPreviewsTests.swift). The runtime model assumes both conditions hold.
- Besides private members, the filter drops non-variable members and variables whose first binding is not a plain identifier.
- The extension role does not look at the declaration at all.
- With zero eligible members, only `previews` is generated, yet the extension role still declares `IteratorProtocol` conformance. The model reproduces this as written (`EmptyExpansionHasNoIterator`).
- The expected expansions in the snapshot tests show only `previews`. The code also emits `iterator` and `next()`, and the model follows the code.

## Model

| member | source | states |
|---|---|---|
| MemberFilter.IsPrivateVariable | Sources/AddPreviewsMacros/AddPreviewsMacro.swift:130-139 | a member is a private variable exactly when it is a variable declaration with a `private` keyword among its modifiers; `fileprivate` and non-variables are not |
| MemberFilter.Property | Sources/AddPreviewsMacros/AddPreviewsMacro.swift:147-157 | a member has a property exactly when it is a variable whose first binding is an identifier pattern; the property carries that identifier, and it is a generic view exactly when the binding has a type annotation that is `some View`/`any View`, so a missing annotation is not a generic view |
| MemberFilter.IsGenericView | Sources/AddPreviewsMacros/AddPreviewsMacro.swift:160-169 | a type annotation counts as a generic view exactly when it is `some View` or `any View` with `View` as a plain identifier type |
| MemberFilter.NonPrivate | Sources/AddPreviewsMacros/AddPreviewsMacro.swift:59-60 | the filter never lengthens the member list |
| MemberFilter.NonPrivateSound | Sources/AddPreviewsMacros/AddPreviewsMacro.swift:59-60 | every member the filter keeps comes from the input and is not a private variable |
| MemberFilter.CompactProperties | Sources/AddPreviewsMacros/AddPreviewsMacro.swift:61 | compactMap yields at most one view property per member |
| MemberFilter.CompactPropertiesSound | Sources/AddPreviewsMacros/AddPreviewsMacro.swift:61 | every view property compactMap produces is some member's `property` |
| MemberFilter.ViewProperties | Sources/AddPreviewsMacros/AddPreviewsMacro.swift:59-61 | at most one view property per member |
| MemberFilter.ViewPropertiesSound | Sources/AddPreviewsMacros/AddPreviewsMacro.swift:59-61 | every view property returned is the property of an eligible member of the declaration |
| MemberFilter.Identifiers | Sources/AddPreviewsMacros/AddPreviewsMacro.swift:66 | the identifiers are the view properties' names, position by position |
| MemberFilter.EligibleIffKept | Sources/AddPreviewsMacros/AddPreviewsMacro.swift:130-157 | the filter and compactMap pipeline keeps a member exactly when it is a variable with no `private` modifier whose first binding is an identifier, and the kept name is that binding's name |
| MemberFilter.NonPrivateAppend | Sources/AddPreviewsMacros/AddPreviewsMacro.swift:60 | filtering out private variables distributes over concatenation |
| MemberFilter.CompactPropertiesAppend | Sources/AddPreviewsMacros/AddPreviewsMacro.swift:61 | compactMap distributes over concatenation |
| MemberFilter.ViewPropertiesAppend | Sources/AddPreviewsMacros/AddPreviewsMacro.swift:59-61 | the member pipeline distributes over concatenation, so it never reorders members |
| MemberFilter.ViewPropertiesOfOne | Sources/AddPreviewsMacros/AddPreviewsMacro.swift:59-61 | a single member yields its property if it is eligible and nothing otherwise |
| MemberFilter.ViewPropertiesStep | Sources/AddPreviewsMacros/AddPreviewsMacro.swift:59-61 | each further member extends the result by its property exactly when it is eligible |
| MemberFilter.ViewPropertyAt | Sources/AddPreviewsMacros/AddPreviewsMacro.swift:59-61 | the eligible member at source position i is the result's entry whose index is the number of eligible members before i |
| MemberFilter.PrivateMemberContributesNothing | Sources/AddPreviewsMacros/AddPreviewsMacro.swift:59-61 | a private variable at any position contributes nothing: the result equals that of the members before it followed by those after it, and that of the members without it |
| MemberFilter.PrivateMemberExcluded | Sources/AddPreviewsMacros/AddPreviewsMacro.swift:131-139 | the name of a private variable is not among the identifiers, provided no other member declares the same name |
| MemberFilter.NonPrivateModifierIrrelevant | Sources/AddPreviewsMacros/AddPreviewsMacro.swift:132-138 | adding any modifier other than `private` (`fileprivate`, `public`, `static`, ...) does not change the result |
| Errors.DeclarationMessageReportsNoCount | Sources/AddPreviewsMacros/AddPreviewsMacro.swift:200-202 | the declaration error's message carries no preview count |
| Errors.TooManyPreviewsReportsCount | Sources/AddPreviewsMacros/AddPreviewsMacro.swift:175-190 | the too-many-previews message reports its count in decimal, and the count can be read back |
| Errors.DeclarationDescription | Sources/AddPreviewsMacros/AddPreviewsMacro.swift:200-202 | the declaration error's text is exactly "AddPreviews can only be used on structs" and reports no count |
| Errors.TooManyPreviewsDescription | Sources/AddPreviewsMacros/AddPreviewsMacro.swift:175-190 | the too-many-previews text reports exactly its count |
| Errors.Description | Sources/AddPreviewsMacros/AddPreviewsMacro.swift:172-205 | the declaration error reads "AddPreviews can only be used on structs"; a message reports a count exactly when it belongs to the too-many-previews error, and that count is the error's own |
| Errors.InvalidDeclarationDiagnostic | Sources/AddPreviewsMacros/AddPreviewsMacro.swift:37-52 | the diagnostic points at the keyword, carries the declaration error's message and a "Replace with struct" fix-it with ID `AddPreviews`/`invalid-declaration`, and the fix-it's new token is the keyword turned into the identifier `struct` with the same trivia and presence |
| Generation.UnlinesAppend | Sources/AddPreviewsMacros/AddPreviewsMacro.swift:123-125 | appending newline-terminated statements distributes over concatenation |
| Generation.PreviewsRoundTrip | Sources/AddPreviewsMacros/AddPreviewsMacro.swift:121-128 | reading the `previews` text back gives exactly the single-line statements it was built from, in order |
| Generation.PreviewsDeclaration | Sources/AddPreviewsMacros/AddPreviewsMacro.swift:121-128 | the loop that appends each statement and a newline builds the `previews` text |
| Generation.DisplayNameRoundTrip | Sources/AddPreviewsMacros/AddPreviewsMacro.swift:73 | `id.previewDisplayName("id")` is one line, and both the member it previews and its label are `id` |
| Generation.DisplayNameStatements | Sources/AddPreviewsMacros/AddPreviewsMacro.swift:72-73 | one display-name statement per identifier, position by position |
| Generation.ReadDisplayNameStatements | Sources/AddPreviewsMacros/AddPreviewsMacro.swift:72-73 | the statements for plain identifiers read back as those identifiers, in order, and each is a single line |
| Generation.AggregatorRoundTrip | Sources/AddPreviewsMacros/AddPreviewsMacro.swift:72-78 | the `previews` text built from plain identifiers previews exactly those identifiers, in order |
| Generation.CaseTable | Sources/AddPreviewsMacros/AddPreviewsMacro.swift:97-105 | case k wraps member k in a `NamedView` named after it when it is a generic view, and otherwise returns `Self.id` |
| Generation.DisplayNameSplit | Sources/AddPreviewsMacros/AddPreviewsMacro.swift:73 | a display-name statement splits at its first dot into the identifier and the `.previewDisplayName("id")` call |
| Generation.NamedViewCaseRoundTrip | Sources/AddPreviewsMacros/AddPreviewsMacro.swift:100-102 | a `NamedView(name: "id", view: Self.id)` case body is one line and reads back as the name and member it was built from |
| Generation.MemberReferenceCaseRoundTrip | Sources/AddPreviewsMacros/AddPreviewsMacro.swift:103-104 | a `Self.id` case body is one line and reads back as the member it references |
| Generation.CaseExprRoundTrip | Sources/AddPreviewsMacros/AddPreviewsMacro.swift:100-105 | each case body is one line and reads back as the case it was built from |
| Generation.CaseLabelsDistinct | Sources/AddPreviewsMacros/AddPreviewsMacro.swift:98 | different cursor values get different `case k:` labels |
| Generation.CaseLinesAppend | Sources/AddPreviewsMacros/AddPreviewsMacro.swift:97-107 | one more view property appends its label line and its body line |
| Generation.CaseLinesSingleLine | Sources/AddPreviewsMacros/AddPreviewsMacro.swift:97-107 | every line the cases contribute is a single line |
| Generation.CaseLinesRoundTrip | Sources/AddPreviewsMacros/AddPreviewsMacro.swift:97-107 | the case lines read back as the case table, labels counting up from the start |
| Generation.NextRoundTrip | Sources/AddPreviewsMacros/AddPreviewsMacro.swift:89-115 | the `next()` text switches on the cursor with exactly one case per view property, labelled 0, 1, ... in order |
| Generation.CaseStep | Sources/AddPreviewsMacros/AddPreviewsMacro.swift:97-107 | one loop iteration appends exactly the next case's two lines |
| Generation.IteratorNextDeclaration | Sources/AddPreviewsMacros/AddPreviewsMacro.swift:89-115 | the loop that appends `case k:` and the case body for each property builds the `next()` text |
| AddPreviewsMacro.FixableKeyword | Sources/AddPreviewsMacros/AddPreviewsMacro.swift:23-35 | a keyword to fix is found exactly for an actor, class or enum, and it is the declaration's introducer keyword |
| AddPreviewsMacro.MemberExpansion | Sources/AddPreviewsMacros/AddPreviewsMacro.swift:22-79 | an actor, class or enum yields one fix-it diagnostic and no declarations; another non-struct throws the declaration error; only fixable kinds produce diagnostics; declarations are returned exactly for a struct with at most 15 eligible members; more than 15 throws with the count; zero yields the `EmptyView()` previews; otherwise three declarations, the cursor field first |
| AddPreviewsMacro.Expansion | Sources/AddPreviewsMacros/AddPreviewsMacro.swift:17-80 | the member role, step by step with the builder loops, yields the outcome `MemberExpansion` states |
| AddPreviewsMacro.GeneratedCodeReadsBack | Sources/AddPreviewsMacros/AddPreviewsMacro.swift:72-79 | in a normal expansion, `next()` reads back as the case table of the eligible members and `previews` as their identifiers |
| AddPreviewsMacro.ExpansionFollowsSourceOrder | Sources/AddPreviewsMacros/AddPreviewsMacro.swift:59-79 | the eligible member at source position i is case k of `next()` and preview k, where k counts the eligible members before it |
| AddPreviewsMacro.ExpansionOmitsPrivateMember | Sources/AddPreviewsMacros/AddPreviewsMacro.swift:59-79 | deleting a private member, wherever it stands, leaves the whole expansion unchanged, for every declaration kind |
| AddPreviewsMacro.ExpansionOmitsPrivateName | Sources/AddPreviewsMacros/AddPreviewsMacro.swift:59-79 | when no other member declares the same name, a private member's name is neither a case of `next()` nor a preview |
| AddPreviewsMacro.EmptyExpansionHasNoIterator | Sources/AddPreviewsMacros/AddPreviewsMacro.swift:62-64 | with no eligible member the expansion is one `previews` whose only statement is `EmptyView()`, with no cursor field and no `next()`, while the extension still declares the conformance |
| AddPreviewsMacro.KindOfIntroducer | Sources/AddPreviewsMacros/AddPreviewsMacro.swift:38-43 | a word read back as a declaration kind is that kind's introducer keyword |
| AddPreviewsMacro.KindOfIntroducerRoundTrip | Sources/AddPreviewsMacros/AddPreviewsMacro.swift:38-43 | each kind's introducer keyword reads back as that kind |
| AddPreviewsMacro.ApplyFixIt | Sources/AddPreviewsMacros/AddPreviewsMacro.swift:47-51 | applying a replacement keeps the members, puts the new token in place of the keyword, and re-reads the kind from the new token's text; no declaration results when that text is no introducer keyword |
| AddPreviewsMacro.FixedDeclarationExpands | Sources/AddPreviewsMacros/AddPreviewsMacro.swift:37-52 | applying the fix-it offered for an actor, class or enum gives a struct with the same members, which expands without diagnostics to the struct's output |
| AddPreviewsMacro.FixItTokenDecidesKind | Sources/AddPreviewsMacros/AddPreviewsMacro.swift:38-43 | a replacement token whose text is not `struct` never yields a struct |
| AddPreviewsMacro.ExtensionExpansion | Sources/AddPreviewsMacros/AddPreviewsMacro.swift:84-85 | exactly one extension, which extends the trimmed attached type to `Sequence & IteratorProtocol` |
| AddPreviewsMacro.ExtensionIndependentOfDeclaration | Sources/AddPreviewsMacros/AddPreviewsMacro.swift:83-86 | the extension does not depend on the declaration's kind or members |
| Runtime.NextValue | Sources/AddPreviewsMacros/AddPreviewsMacro.swift:89-113 | a cursor outside 0..n-1 gives nil (the `default:` branch); case k gives a `NamedView` named after a generic-view member with that member's view, and otherwise the member's own value |
| Runtime.NextValues | Sources/AddPreviewsMacros/AddPreviewsMacro.swift:89-113 | successive cursor values give successive `next()` values |
| Runtime.EnumeratesOnceThenNil | Sources/AddPreviewsMacros/AddPreviewsMacro.swift:89-113 | from cursor 0, n + extra calls return every case once, in order, then nil extra times |
| Runtime.RunsGeneratedSwitch | Sources/AddPreviewsMacros/AddPreviewsMacro.swift:97-111 | case k of the `next()` text generated for a declaration evaluates to the runtime value for cursor k |
| Runtime.PreviewProvider.constructor | Sources/AddPreviewsMacros/AddPreviewsMacro.swift:117-119 | a new instance starts with cursor 0 |
| Runtime.PreviewProvider.Next | Sources/AddPreviewsMacros/AddPreviewsMacro.swift:91-113 | returns the value the old cursor selects, and the cursor grows by exactly one on every path, including nil |
| Runtime.PreviewProvider.Take | Sources/AddPreviewsMacros/AddPreviewsMacro.swift:85 | count successive calls, as iterating the sequence makes them, return the next count values and advance the cursor by count |
| Text.ParseDecimalOfDecimal | Sources/AddPreviewsMacros/AddPreviewsMacro.swift:98 | the decimal rendering of a count reads back as that count |
| Text.DecimalInjective | Sources/AddPreviewsMacros/AddPreviewsMacro.swift:98 | different counts render differently |
| Scenarios.AlphaKept | Tests/AddPreviewsTests/AddPreviewsTests.swift:27 | a `static public` member of type `some View` is kept as a generic view |
| Scenarios.HiddenDropped | Tests/AddPreviewsTests/AddPreviewsTests.swift:34 | a `static private` view member is dropped |
| Scenarios.BetaKept | Tests/AddPreviewsTests/AddPreviewsTests.swift:31-36 | an instance member of type `Int` is kept, and is not a generic view |
| Scenarios.MixedMembersKept | Tests/AddPreviewsTests/AddPreviewsTests.swift:19-68 | a public view, a private view and an `Int` instance member give the view properties `alpha` (generic) and `beta` (not generic), so the previews `alpha` and `beta`, in that order |

## Left out

- Parsing and printing with SwiftSyntax are not modelled. Members and tokens are plain data, and the generated declarations are text. Re-parsing the text (`DeclSyntax(stringLiteral:)`) is replaced by small readers that recover the statements and cases.
- Whitespace of the generated text is modelled exactly as the builders append it. How the Swift formatter re-indents it is not modelled.
- Trivia of the attached type is not modelled: `type.trimmed` is taken as given.
- Plugin registration (`AddPreviewsPlugin`) and the package manifests are not modelled; they are build wiring.
- SwiftUI rendering is not modelled: `View`, `AnyView`, `body` and `SnapshottableView`. A view is an opaque type parameter.
- The repository defines `NamedView` twice, in Sources/AddPreviews/NamedView.swift and Sources/AddPreviews/SnapshottableView.swift. Both are the same name/view pair, modelled once.
- `NamedView<Case>`, which the NamedView tests exercise, is not defined by any source file, so it is not modelled.
- Snapshot-image I/O in the example project's test helpers is not modelled.
- Runtime.PreviewProvider.Next: the cursor is an unbounded integer. Swift's `Int` would trap on overflow after 2^63 - 1 calls, and that is not modelled.
- Runtime.NextValue: defined only for members whose values fit the generated switch. A generic view supplies view content; any other member must already be a `NamedView?`. The runtime model also assumes every eligible member is `static`, since the generated `Self.id` reads only static members. Other inputs would not compile in Swift, although the macro itself accepts instance members.
- MemberFilter.IsGenericView: generic arguments on the `View` identifier type are not represented. `IdentifierType` carries only the name token.
- Generation.NextRoundTrip, AddPreviewsMacro.GeneratedCodeReadsBack and AddPreviewsMacro.ExpansionFollowsSourceOrder assume identifiers without `.`, `"` or line breaks, which Swift identifiers never contain. That is what lets the text be read back.
- AddPreviewsMacro.ExpansionOmitsPrivateName and MemberFilter.PrivateMemberExcluded assume no other member declares the same name. Swift allows a static and an instance property to share a name, and then the name can appear through the other member. AddPreviewsMacro.ExpansionOmitsPrivateMember states the exclusion by position, without this assumption.
- `MacroExpansionContext.diagnose` is a call into the compiler. The model returns the diagnostics as part of the outcome instead.
- `variableIdentifier` (AddPreviewsMacro.swift:141-145) is not modelled: the macro never uses it.
