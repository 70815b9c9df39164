/** Small declarations in the style of the macro's snapshot tests, worked out on the model. */
module Scenarios {
  import opened Wrappers
  import opened Syntax
  import opened MemberFilter
  import opened Errors
  import opened Generation
  import opened AddPreviewsMacro

  function Modifiers(names: seq<string>): seq<DeclModifier>
  {
    seq(|names|, i requires 0 <= i < |names| => DeclModifier(Keyword(names[i]), None))
  }

  /** `<modifiers> var <name>[: <type>]` */
  function Var(modifiers: seq<string>, name: string, annotation: Option<TypeAnnotation>): MemberDecl
  {
    VariableDecl(Modifiers(modifiers), [PatternBinding(IdentifierPattern(name), annotation)])
  }

  const SomeView := Some(TypeAnnotation(SomeOrAnyType(SomeSpecifier, IdentifierType(Identifier("View")))))
  const IntType := Some(TypeAnnotation(IdentifierType(Identifier("Int"))))

  /** `static public var alpha: some View` */
  const Alpha := Var(["static", "public"], "alpha", SomeView)
  /** `static private var hidden: some View` */
  const Hidden := Var(["static", "private"], "hidden", SomeView)
  /** `var beta: Int` */
  const Beta := Var([], "beta", IntType)

  /** A public view, a private view, and an instance member of type `Int`. */
  const MixedMembers := [Alpha, Hidden, Beta]

  lemma SomeViewIsGeneric()
    ensures IsGenericView(SomeView.value)
  {
  }

  lemma IntIsNotGeneric()
    ensures !IsGenericView(IntType.value)
  {
  }

  lemma AlphaKept()
    ensures ViewProperties([Alpha]) == [ViewProperty(true, "alpha")]
  {
    SomeViewIsGeneric();
    ViewPropertiesOfOne(Alpha);
    assert forall k :: 0 <= k < |Alpha.modifiers| ==> Alpha.modifiers[k].name != Keyword("private");
  }

  lemma HiddenDropped()
    ensures ViewProperties([Hidden]) == []
  {
    ViewPropertiesOfOne(Hidden);
    assert Hidden.modifiers[1].name == Keyword("private");
  }

  lemma BetaKept()
    ensures ViewProperties([Beta]) == [ViewProperty(false, "beta")]
  {
    IntIsNotGeneric();
    ViewPropertiesOfOne(Beta);
  }

  /** Three members in a row are filtered one at a time. */
  lemma ViewPropertiesOfThree(a: MemberDecl, b: MemberDecl, c: MemberDecl)
    ensures ViewProperties([a, b, c]) == ViewProperties([a]) + ViewProperties([b]) + ViewProperties([c])
  {
    assert [a, b, c] == [a] + ([b] + [c]);
    ViewPropertiesAppend([b], [c]);
    ViewPropertiesAppend([a], [b] + [c]);
  }

  /**
   * The private member is dropped; the instance member of another type is
   * kept after the public view, as a plain member reference rather than a
   * named view.
   */
  lemma MixedMembersKept()
    ensures ViewProperties(MixedMembers) == [ViewProperty(true, "alpha"), ViewProperty(false, "beta")]
    ensures Identifiers(ViewProperties(MixedMembers)) == ["alpha", "beta"]
  {
    ViewPropertiesOfThree(Alpha, Hidden, Beta);
    AlphaKept();
    HiddenDropped();
    BetaKept();
  }
}
