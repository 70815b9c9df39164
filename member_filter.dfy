/**
 * Which members of the attributed struct become previews: the pipeline
 * `members.filter { !$0.isPrivateVariable }.compactMap { $0.property }`.
 */
module MemberFilter {
  import opened Wrappers
  import opened Syntax

  /** What the macro keeps of an eligible member: its name and whether it is declared `some View`/`any View`. */
  datatype ViewProperty = ViewProperty(isGenericView: bool, identifier: string)

  const ViewType := IdentifierType(Identifier("View"))

  predicate IsPrivateModifier(m: DeclModifier) {
    m.name == Keyword("private")
  }

  /** The token kinds of a list of modifiers, in order. */
  function ModifierNames(modifiers: seq<DeclModifier>): (r: seq<TokenKind>)
    ensures |r| == |modifiers|
    ensures forall k :: 0 <= k < |r| ==> r[k] == modifiers[k].name
  {
    seq(|modifiers|, k requires 0 <= k < |modifiers| => modifiers[k].name)
  }

  /**
   * A variable member with a `private` modifier (`private(set)` included);
   * any other member is not one, and neither is a `fileprivate` variable.
   */
  predicate IsPrivateVariable(m: MemberDecl): (r: bool)
    ensures r <==> m.VariableDecl? && Keyword("private") in ModifierNames(m.modifiers)
  {
    var r := m.VariableDecl? && exists k :: 0 <= k < |m.modifiers| && IsPrivateModifier(m.modifiers[k]);
    assert r <==> m.VariableDecl? && Keyword("private") in ModifierNames(m.modifiers) by {
      if m.VariableDecl? && Keyword("private") in ModifierNames(m.modifiers) {
        var k :| 0 <= k < |m.modifiers| && ModifierNames(m.modifiers)[k] == Keyword("private");
        assert IsPrivateModifier(m.modifiers[k]);
      }
    }
    r
  }

  /** Whether a type annotation reads `some View` or `any View`, and nothing else. */
  function IsGenericView(t: TypeAnnotation): (r: bool)
    ensures r <==> (t.typeSyntax == SomeOrAnyType(SomeSpecifier, ViewType)
                 || t.typeSyntax == SomeOrAnyType(AnySpecifier, ViewType))
  {
    match t.typeSyntax
    case SomeOrAnyType(_, IdentifierType(Identifier(text))) =>
      assert t.typeSyntax.constraint == ViewType ==> text == "View";
      assert t.typeSyntax.specifier == SomeSpecifier || t.typeSyntax.specifier == AnySpecifier;
      text == "View"
    case _ => false
  }

  /**
   * The member as a view property, when it is a variable whose first binding
   * is a plain identifier; a missing annotation is not a generic view.
   */
  function Property(m: MemberDecl): (r: Option<ViewProperty>)
    ensures r.Some? <==> m.VariableDecl? && |m.bindings| > 0 && m.bindings[0].pattern.IdentifierPattern?
    ensures r.Some? ==> r.value.identifier == m.bindings[0].pattern.identifier
    ensures r.Some? ==>
      (r.value.isGenericView <==> m.bindings[0].typeAnnotation.Some? && IsGenericView(m.bindings[0].typeAnnotation.value))
    ensures r.Some? && m.bindings[0].typeAnnotation.None? ==> !r.value.isGenericView
  {
    match m
    case OtherMemberDecl => None
    case VariableDecl(_, bindings) =>
      if |bindings| == 0 then None
      else match bindings[0].pattern
        case OtherPattern => None
        case IdentifierPattern(identifier) =>
          var isGenericView := match bindings[0].typeAnnotation
            case None => false
            case Some(t) => IsGenericView(t);
          Some(ViewProperty(isGenericView, identifier))
  }

  /** The name the member's first binding declares, if it is a plain identifier. */
  function DeclaredName(m: MemberDecl): Option<string>
  {
    if m.VariableDecl? && |m.bindings| > 0 && m.bindings[0].pattern.IdentifierPattern?
    then Some(m.bindings[0].pattern.identifier)
    else None
  }

  /**
   * Eligibility stated directly: a variable without a `private` modifier whose
   * first binding is an identifier. Other modifiers (`fileprivate`, `public`,
   * `static`, ...) and the declared type play no part.
   */
  predicate IsEligible(m: MemberDecl) {
    && m.VariableDecl?
    && (forall k :: 0 <= k < |m.modifiers| ==> m.modifiers[k].name != Keyword("private"))
    && |m.bindings| > 0
    && m.bindings[0].pattern.IdentifierPattern?
  }

  /** `.filter { !$0.isPrivateVariable }` */
  function NonPrivate(members: seq<MemberDecl>): (r: seq<MemberDecl>)
    ensures |r| <= |members|
  {
    if members == [] then []
    else (if IsPrivateVariable(members[0]) then [] else [members[0]]) + NonPrivate(members[1..])
  }

  /** `.compactMap { $0.property }` */
  function CompactProperties(members: seq<MemberDecl>): (r: seq<ViewProperty>)
    ensures |r| <= |members|
  {
    if members == [] then []
    else
      (match Property(members[0]) case None => [] case Some(p) => [p]) + CompactProperties(members[1..])
  }

  /** The eligible members as view properties, in source order. */
  function ViewProperties(members: seq<MemberDecl>): (r: seq<ViewProperty>)
    ensures |r| <= |members|
  {
    CompactProperties(NonPrivate(members))
  }

  /** The filter keeps only members of the input that are not private variables. */
  lemma {:induction false} NonPrivateSound(members: seq<MemberDecl>)
    ensures forall m :: m in NonPrivate(members) ==> m in members && !IsPrivateVariable(m)
  {
    if members != [] {
      NonPrivateSound(members[1..]);
      var head := if IsPrivateVariable(members[0]) then [] else [members[0]];
      assert NonPrivate(members) == head + NonPrivate(members[1..]);
      forall m | m in NonPrivate(members)
        ensures m in members && !IsPrivateVariable(m)
      {
        if m !in NonPrivate(members[1..]) {
          assert m in head;
        } else {
          var j :| 0 <= j < |members[1..]| && members[1..][j] == m;
          assert members[j + 1] == m;
        }
      }
    }
  }

  /** Every property compactMap produces is some member's `property`. */
  lemma {:induction false} CompactPropertiesSound(members: seq<MemberDecl>)
    ensures forall p :: p in CompactProperties(members) ==> exists m :: m in members && Property(m) == Some(p)
  {
    if members != [] {
      CompactPropertiesSound(members[1..]);
      var head := match Property(members[0]) case None => [] case Some(p) => [p];
      assert CompactProperties(members) == head + CompactProperties(members[1..]);
      forall p | p in CompactProperties(members)
        ensures exists m :: m in members && Property(m) == Some(p)
      {
        if p !in CompactProperties(members[1..]) {
          assert p in head;
          assert Property(members[0]) == Some(p);
        } else {
          var m :| m in members[1..] && Property(m) == Some(p);
          var j :| 0 <= j < |members[1..]| && members[1..][j] == m;
          assert members[j + 1] == m;
        }
      }
    }
  }

  /** Every view property the pipeline returns is the property of an eligible member. */
  lemma ViewPropertiesSound(members: seq<MemberDecl>)
    ensures forall p :: p in ViewProperties(members) ==>
      exists i :: 0 <= i < |members| && IsEligible(members[i]) && Property(members[i]) == Some(p)
  {
    NonPrivateSound(members);
    CompactPropertiesSound(NonPrivate(members));
    forall p | p in ViewProperties(members)
      ensures exists i :: 0 <= i < |members| && IsEligible(members[i]) && Property(members[i]) == Some(p)
    {
      var m :| m in NonPrivate(members) && Property(m) == Some(p);
      var i :| 0 <= i < |members| && members[i] == m;
      EligibleIffKept(m);
    }
  }

  /** `viewProperties.map(\.identifier)` */
  function Identifiers(ps: seq<ViewProperty>): (r: seq<string>)
    ensures |r| == |ps|
    ensures forall i :: 0 <= i < |ps| ==> r[i] == ps[i].identifier
  {
    seq(|ps|, i requires 0 <= i < |ps| => ps[i].identifier)
  }

  /** The two-stage pipeline keeps exactly the members `IsEligible` describes. */
  lemma EligibleIffKept(m: MemberDecl)
    ensures IsEligible(m) <==> !IsPrivateVariable(m) && Property(m).Some?
    ensures Property(m).Some? ==> DeclaredName(m) == Some(Property(m).value.identifier)
  {
    if m.VariableDecl? && !IsEligible(m) && |m.bindings| > 0 && m.bindings[0].pattern.IdentifierPattern? {
      var k :| 0 <= k < |m.modifiers| && m.modifiers[k].name == Keyword("private");
      assert IsPrivateModifier(m.modifiers[k]);
    }
  }

  lemma {:induction false} NonPrivateAppend(a: seq<MemberDecl>, b: seq<MemberDecl>)
    ensures NonPrivate(a + b) == NonPrivate(a) + NonPrivate(b)
  {
    if a != [] {
      assert (a + b)[1..] == a[1..] + b;
      NonPrivateAppend(a[1..], b);
    } else {
      assert a + b == b;
    }
  }

  lemma {:induction false} CompactPropertiesAppend(a: seq<MemberDecl>, b: seq<MemberDecl>)
    ensures CompactProperties(a + b) == CompactProperties(a) + CompactProperties(b)
  {
    if a != [] {
      var head := match Property(a[0]) case None => [] case Some(p) => [p];
      assert (a + b)[0] == a[0];
      assert (a + b)[1..] == a[1..] + b;
      assert CompactProperties(a + b) == head + CompactProperties(a[1..] + b);
      assert CompactProperties(a) == head + CompactProperties(a[1..]);
      CompactPropertiesAppend(a[1..], b);
    } else {
      assert a + b == b;
    }
  }

  /** Filtering distributes over concatenation: it never reorders across a boundary. */
  lemma ViewPropertiesAppend(a: seq<MemberDecl>, b: seq<MemberDecl>)
    ensures ViewProperties(a + b) == ViewProperties(a) + ViewProperties(b)
  {
    NonPrivateAppend(a, b);
    CompactPropertiesAppend(NonPrivate(a), NonPrivate(b));
  }

  lemma ViewPropertiesOfOne(m: MemberDecl)
    ensures ViewProperties([m]) == if IsEligible(m) then [Property(m).value] else []
  {
    EligibleIffKept(m);
    assert [m][1..] == [];
    assert NonPrivate([m]) == if IsPrivateVariable(m) then [] else [m];
  }

  /**
   * The result read member by member: each prefix of the members yields the
   * result of the shorter prefix, extended by the next member's property
   * exactly when that member is eligible.
   */
  lemma ViewPropertiesStep(members: seq<MemberDecl>, i: nat)
    requires i < |members|
    ensures ViewProperties(members[..i + 1]) ==
      ViewProperties(members[..i]) + (if IsEligible(members[i]) then [Property(members[i]).value] else [])
  {
    assert members[..i + 1] == members[..i] + [members[i]];
    ViewPropertiesAppend(members[..i], [members[i]]);
    ViewPropertiesOfOne(members[i]);
  }

  /**
   * Order preservation: the eligible member at source position `i` is the
   * result's entry number "eligible members before `i`".
   */
  lemma ViewPropertyAt(members: seq<MemberDecl>, i: nat)
    requires i < |members| && IsEligible(members[i])
    ensures |ViewProperties(members[..i])| < |ViewProperties(members)|
    ensures ViewProperties(members)[|ViewProperties(members[..i])|] == Property(members[i]).value
  {
    assert members == members[..i + 1] + members[i + 1..];
    ViewPropertiesAppend(members[..i + 1], members[i + 1..]);
    ViewPropertiesStep(members, i);
  }

  /**
   * No two members declare the same name. Swift does not demand this of a
   * static and an instance property, so it is an assumption, not a given.
   */
  predicate UniqueNames(members: seq<MemberDecl>) {
    forall i, j :: 0 <= i < j < |members| && DeclaredName(members[i]).Some? ==>
      DeclaredName(members[i]) != DeclaredName(members[j])
  }

  /** A private member, wherever it stands, contributes nothing: the result is that of the other members. */
  lemma PrivateMemberContributesNothing(members: seq<MemberDecl>, i: nat)
    requires i < |members| && IsPrivateVariable(members[i])
    ensures ViewProperties(members) == ViewProperties(members[..i]) + ViewProperties(members[i + 1..])
    ensures ViewProperties(members) == ViewProperties(members[..i] + members[i + 1..])
  {
    assert members == members[..i + 1] + members[i + 1..];
    ViewPropertiesAppend(members[..i + 1], members[i + 1..]);
    ViewPropertiesStep(members, i);
    EligibleIffKept(members[i]);
    ViewPropertiesAppend(members[..i], members[i + 1..]);
  }

  /** When no other member shares its name, a private member's name appears nowhere among the identifiers. */
  lemma PrivateMemberExcluded(members: seq<MemberDecl>, i: nat)
    requires i < |members| && UniqueNames(members)
    requires IsPrivateVariable(members[i]) && DeclaredName(members[i]).Some?
    ensures DeclaredName(members[i]).value !in Identifiers(ViewProperties(members))
  {
    var r := ViewProperties(members);
    var name := DeclaredName(members[i]).value;
    ViewPropertiesSound(members);
    if name in Identifiers(r) {
      var k :| 0 <= k < |r| && Identifiers(r)[k] == name;
      assert r[k] in r;
      var j :| 0 <= j < |members| && IsEligible(members[j]) && Property(members[j]) == Some(r[k]);
      EligibleIffKept(members[j]);
      EligibleIffKept(members[i]);
      assert false;
    }
  }

  /** Adding any modifier other than `private` (`fileprivate`, `public`, `static`, ...) changes nothing. */
  lemma NonPrivateModifierIrrelevant(
    modifiers: seq<DeclModifier>, extra: DeclModifier, bindings: seq<PatternBinding>)
    requires extra.name != Keyword("private")
    ensures ViewProperties([VariableDecl(modifiers + [extra], bindings)])
         == ViewProperties([VariableDecl(modifiers, bindings)])
  {
    var m := VariableDecl(modifiers, bindings);
    var m' := VariableDecl(modifiers + [extra], bindings);
    ViewPropertiesOfOne(m);
    ViewPropertiesOfOne(m');
    assert IsEligible(m) <==> IsEligible(m') by {
      assert forall k :: 0 <= k < |modifiers| ==> m'.modifiers[k] == modifiers[k];
    }
  }
}
