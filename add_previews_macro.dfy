/**
 * The `AddPreviews` macro's two roles. The member role checks the
 * declaration kind, filters the members, enforces the 15-preview bound and
 * synthesizes the cursor field, `next()` and `previews`; the extension role
 * declares `Sequence & IteratorProtocol` conformance.
 */
module AddPreviewsMacro {
  import opened Wrappers
  import opened Text
  import opened Syntax
  import opened MemberFilter
  import opened Errors
  import opened Generation

  /** One member-role expansion: the diagnostics reported and the declarations returned, or the error thrown. */
  datatype Outcome = Returned(diagnostics: seq<Diagnostic>, decls: seq<string>) | Thrown(error: ExpansionError)

  /** Actors, classes and enums are one keyword away from a struct. */
  predicate IsFixableKind(k: DeclKind) {
    k == ActorDecl || k == ClassDecl || k == EnumDecl
  }

  /** The keyword token a fix-it can replace, for the kinds that have one. */
  function FixableKeyword(d: Declaration): (r: Option<Token>)
    ensures r.Some? <==> IsFixableKind(d.kind)
    ensures r.Some? ==> r.value == d.introducer
  {
    match d.kind
    case ActorDecl => Some(d.introducer)
    case ClassDecl => Some(d.introducer)
    case EnumDecl => Some(d.introducer)
    case _ => None
  }

  /**
   * The member role, as a function of the declaration: a fix-it diagnostic and
   * nothing else for an actor, class or enum; an error for any other
   * non-struct; for a struct, a placeholder `previews` when no member is
   * eligible, an error when more than 15 are, and otherwise the cursor field,
   * a `next()` whose cases are the eligible members in order, and a `previews`
   * that shows each of them under its own name, in order.
   */
  function MemberExpansion(d: Declaration): (r: Outcome)
    ensures IsFixableKind(d.kind) ==> r == Returned([InvalidDeclarationDiagnostic(d.introducer)], [])
    ensures d.kind == ProtocolDecl || d.kind == ExtensionDecl ==> r == Thrown(DeclarationError)
    ensures r.Returned? && r.diagnostics != [] ==> IsFixableKind(d.kind)
    ensures r.Returned? && r.decls != [] <==> d.kind == StructDecl && |ViewProperties(d.members)| <= MaxPreviews
    ensures d.kind == StructDecl && |ViewProperties(d.members)| > MaxPreviews ==>
      r == Thrown(TooManyPreviewsError(|ViewProperties(d.members)|))
    ensures d.kind == StructDecl && ViewProperties(d.members) == [] ==>
      r == Returned([], [PreviewsText([EmptyViewStatement])])
    ensures d.kind == StructDecl && 0 < |ViewProperties(d.members)| <= MaxPreviews ==>
      r.Returned? && r.diagnostics == [] && |r.decls| == 3 && r.decls[0] == IteratorDeclaration
  {
    if d.kind != StructDecl then
      match FixableKeyword(d)
      case Some(keyword) => Returned([InvalidDeclarationDiagnostic(keyword)], [])
      case None => Thrown(DeclarationError)
    else
      var viewProperties := ViewProperties(d.members);
      if viewProperties == [] then
        Returned([], [PreviewsText([EmptyViewStatement])])
      else if |viewProperties| > MaxPreviews then
        Thrown(TooManyPreviewsError(|viewProperties|))
      else
        var identifiers := Identifiers(viewProperties);
        Returned([], [IteratorDeclaration, NextText(viewProperties), PreviewsText(DisplayNameStatements(identifiers))])
  }

  /** The struct expands to 1..15 previews and every eligible member's name is a plain Swift identifier. */
  predicate ExpandsNormally(d: Declaration) {
    && d.kind == StructDecl
    && 0 < |ViewProperties(d.members)| <= MaxPreviews
    && AllPlain(ViewProperties(d.members))
  }

  /**
   * In a normal expansion, the `next()` switch has case `k` for the `k`-th
   * eligible member and nothing else, and `previews` shows exactly the
   * eligible members' names, in order.
   */
  lemma GeneratedCodeReadsBack(d: Declaration)
    requires ExpandsNormally(d)
    ensures var r := MemberExpansion(d);
      && ParseNext(r.decls[1]) == Some(CaseTable(ViewProperties(d.members)))
      && PreviewedIdentifiers(r.decls[2]) == Some(Identifiers(ViewProperties(d.members)))
  {
    NextRoundTrip(ViewProperties(d.members));
    AggregatorRoundTrip(Identifiers(ViewProperties(d.members)));
  }

  /**
   * Source order survives into the generated code: the eligible member at
   * source position `i` is case `k` of `next()` and the `k`-th preview, where
   * `k` counts the eligible members before it.
   */
  lemma ExpansionFollowsSourceOrder(d: Declaration, i: nat)
    requires ExpandsNormally(d)
    requires i < |d.members| && IsEligible(d.members[i])
    ensures var r := MemberExpansion(d);
      var k := |ViewProperties(d.members[..i])|;
      && ParseNext(r.decls[1]).Some? && k < |ParseNext(r.decls[1]).value|
      && ParseNext(r.decls[1]).value[k] == CaseExprOf(Property(d.members[i]).value)
      && PreviewedIdentifiers(r.decls[2]).Some? && k < |PreviewedIdentifiers(r.decls[2]).value|
      && PreviewedIdentifiers(r.decls[2]).value[k] == DeclaredName(d.members[i]).value
  {
    GeneratedCodeReadsBack(d);
    ViewPropertyAt(d.members, i);
    EligibleIffKept(d.members[i]);
  }

  /**
   * A private member, wherever it stands and whatever the declaration's kind,
   * leaves no trace: the expansion is the one of the declaration without it.
   */
  lemma ExpansionOmitsPrivateMember(d: Declaration, i: nat)
    requires i < |d.members| && IsPrivateVariable(d.members[i])
    ensures MemberExpansion(d) == MemberExpansion(d.(members := d.members[..i] + d.members[i + 1..]))
  {
    PrivateMemberContributesNothing(d.members, i);
  }

  /**
   * When no other member declares the same name, a private member's name is
   * neither a case of `next()` nor a preview.
   */
  lemma ExpansionOmitsPrivateName(d: Declaration, i: nat)
    requires ExpandsNormally(d) && UniqueNames(d.members)
    requires i < |d.members| && IsPrivateVariable(d.members[i]) && DeclaredName(d.members[i]).Some?
    ensures var r := MemberExpansion(d);
      var name := DeclaredName(d.members[i]).value;
      && ParseNext(r.decls[1]).Some? && PreviewedIdentifiers(r.decls[2]).Some?
      && (forall e :: e in ParseNext(r.decls[1]).value ==> e.member != name)
      && name !in PreviewedIdentifiers(r.decls[2]).value
  {
    GeneratedCodeReadsBack(d);
    PrivateMemberExcluded(d.members, i);
    var ps := ViewProperties(d.members);
    forall e | e in CaseTable(ps)
      ensures e.member != DeclaredName(d.members[i]).value
    {
      var k :| 0 <= k < |ps| && CaseTable(ps)[k] == e;
      assert e.member == Identifiers(ps)[k];
    }
  }

  /**
   * With no eligible member the expansion is a lone `previews` showing
   * `EmptyView()`: no cursor field and no `next()`, although the extension
   * role still declares `IteratorProtocol` conformance for the type.
   */
  lemma EmptyExpansionHasNoIterator(d: Declaration, t: AttachedType)
    requires d.kind == StructDecl && ViewProperties(d.members) == []
    ensures var r := MemberExpansion(d);
      && r.Returned? && |r.decls| == 1
      && ParsePreviews(r.decls[0]) == Some([EmptyViewStatement])
      && IteratorDeclaration !in r.decls
      && ParseNext(r.decls[0]) == None
      && ExtendedType(ExtensionExpansion(d, t)[0]) == Some(t.text)
  {
    var text := PreviewsText([EmptyViewStatement]);
    assert SingleLine(EmptyViewStatement);
    PreviewsRoundTrip([EmptyViewStatement]);
    assert text[0] == 's';
    assert NextHeader[0] == 'm';
    assert text != IteratorDeclaration by {
      assert IteratorDeclaration[0] == 'p';
    }
  }

  /** The keyword that introduces a declaration of each kind. */
  function IntroducerText(k: DeclKind): string
  {
    match k
    case StructDecl => "struct"
    case ActorDecl => "actor"
    case ClassDecl => "class"
    case EnumDecl => "enum"
    case ProtocolDecl => "protocol"
    case ExtensionDecl => "extension"
  }

  /** The kind of declaration an introducer keyword starts, as the parser reads it back; `None` for any other word. */
  function KindOfIntroducer(text: string): (r: Option<DeclKind>)
    ensures r.Some? ==> IntroducerText(r.value) == text
  {
    if text == "struct" then Some(StructDecl)
    else if text == "actor" then Some(ActorDecl)
    else if text == "class" then Some(ClassDecl)
    else if text == "enum" then Some(EnumDecl)
    else if text == "protocol" then Some(ProtocolDecl)
    else if text == "extension" then Some(ExtensionDecl)
    else None
  }

  /** Each kind's keyword reads back as that kind. */
  lemma KindOfIntroducerRoundTrip(k: DeclKind)
    ensures KindOfIntroducer(IntroducerText(k)) == Some(k)
  {
  }

  /**
   * The source after the fix-it is applied, re-parsed: the same members
   * behind the inserted token, whose text decides the declaration's kind;
   * `None` when that text introduces no declaration group.
   */
  function ApplyFixIt(d: Declaration, fix: FixIt): (r: Option<Declaration>)
    requires fix.oldNode == d.introducer
    ensures r.Some? <==> KindOfIntroducer(TokenText(fix.newNode.kind)).Some?
    ensures r.Some? ==> r.value.members == d.members && r.value.introducer == fix.newNode
    ensures r.Some? ==> IntroducerText(r.value.kind) == TokenText(fix.newNode.kind)
  {
    var kind :- KindOfIntroducer(TokenText(fix.newNode.kind));
    Some(d.(kind := kind, introducer := fix.newNode))
  }

  /**
   * Accepting the fix-it offered for an actor, class or enum leaves a struct
   * with the same members, which expands without any diagnostic, to the same
   * output as the struct it should have been.
   */
  lemma FixedDeclarationExpands(d: Declaration)
    requires IsFixableKind(d.kind)
    ensures var fix := InvalidDeclarationDiagnostic(d.introducer).fixIt;
      var fixed := ApplyFixIt(d, fix);
      && fixed.Some? && fixed.value.kind == StructDecl && fixed.value.members == d.members
      && var r := MemberExpansion(fixed.value);
      && (r.Returned? ==> r.diagnostics == [])
      && r == MemberExpansion(d.(kind := StructDecl))
  {
    var fix := InvalidDeclarationDiagnostic(d.introducer).fixIt;
    assert TokenText(fix.newNode.kind) == "struct";
  }

  /** A fix-it that inserts any other word than `struct` does not produce a struct. */
  lemma FixItTokenDecidesKind(d: Declaration, fix: FixIt)
    requires fix.oldNode == d.introducer && TokenText(fix.newNode.kind) != "struct"
    ensures ApplyFixIt(d, fix).None? || ApplyFixIt(d, fix).value.kind != StructDecl
  {
  }

  /** `AddPreviews.expansion(of:providingMembersOf:in:)`, step by step as the macro runs it. */
  method Expansion(d: Declaration) returns (r: Outcome)
    ensures r == MemberExpansion(d)
  {
    if d.kind != StructDecl {
      var node := FixableKeyword(d);
      if node.Some? {
        r := Returned([InvalidDeclarationDiagnostic(node.value)], []);
        return;
      }
      r := Thrown(DeclarationError);
      return;
    }
    var viewProperties := ViewProperties(d.members);
    if |viewProperties| == 0 {
      var previews := PreviewsDeclaration([EmptyViewStatement]);
      r := Returned([], [previews]);
      return;
    }
    var viewIdentifiers := Identifiers(viewProperties);
    var viewPropertiesCount := |viewProperties|;
    if viewPropertiesCount > MaxPreviews {
      r := Thrown(TooManyPreviewsError(viewPropertiesCount));
      return;
    }
    var rawMembers := DisplayNameStatements(viewIdentifiers);
    var next := IteratorNextDeclaration(viewProperties);
    var previews := PreviewsDeclaration(rawMembers);
    r := Returned([], [IteratorDeclaration, next, previews]);
  }

  const ConformanceSuffix := ": Sequence & IteratorProtocol {}"

  /** The type an extension declaration extends, when it declares exactly the iterator conformance. */
  function ExtendedType(decl: string): Option<string>
  {
    var rest :- StripPrefix(decl, "extension ");
    StripSuffix(rest, ConformanceSuffix)
  }

  /**
   * `AddPreviews.expansion(of:attachedTo:providingExtensionsOf:...)`: exactly
   * one extension of the trimmed attached type to `Sequence & IteratorProtocol`,
   * whatever the declaration's kind or members.
   */
  function ExtensionExpansion(d: Declaration, t: AttachedType): (r: seq<string>)
    ensures |r| == 1 && ExtendedType(r[0]) == Some(t.text)
  {
    StripAffixes("extension ", t.text, ConformanceSuffix);
    ["extension " + t.text + ConformanceSuffix]
  }

  /** The extension role reads nothing of the declaration: its kind and members make no difference. */
  lemma ExtensionIndependentOfDeclaration(d: Declaration, d': Declaration, t: AttachedType)
    ensures ExtensionExpansion(d, t) == ExtensionExpansion(d', t)
  {
  }
}
