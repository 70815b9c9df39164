/**
 * The declarations the member role synthesizes, as the text it hands to
 * the compiler: the `iterator` cursor field, the `next()` method that
 * switches on it, and the `previews` aggregator. The two builders that
 * append to a string in a loop are methods, each proved equal to a
 * function of its input; each such function has a reader that recovers
 * what was written, so the generated text provably carries exactly the
 * statements and cases intended.
 */
module Generation {
  import opened Wrappers
  import opened Text
  import opened MemberFilter

  /** `iteratorDeclaration`: the cursor field that the generated `next()` advances. */
  const IteratorDeclaration := "private var iterator = 0"

  /** Identifiers as Swift spells them: no dot, no double quote, no line break. */
  predicate IsPlainIdentifier(s: string) {
    '.' !in s && '"' !in s && '\n' !in s
  }

  predicate AllPlain(ps: seq<ViewProperty>) {
    forall k :: 0 <= k < |ps| ==> IsPlainIdentifier(ps[k].identifier)
  }

  lemma UnlinesAppend(a: seq<string>, b: seq<string>)
    ensures Unlines(a + b) == Unlines(a) + Unlines(b)
  {
    if a != [] {
      assert (a + b)[1..] == a[1..] + b;
      UnlinesAppend(a[1..], b);
    } else {
      assert a + b == b;
    }
  }

  // ---------------------------------------------------------------- previews

  const PreviewsHeader := "static var previews: some View {"
  const PreviewsFooter := "}"
  const EmptyViewStatement := "EmptyView()"
  const DisplayNameCall := "." + "previewDisplayName(\""
  const DisplayNameEnd := "\")"

  /** The `previews` declaration: every statement on a line of its own, in order, inside the braces. */
  function PreviewsText(statements: seq<string>): string
  {
    PreviewsHeader + Unlines(statements) + PreviewsFooter
  }

  /** The statements of a `previews` declaration, read back line by line. */
  function ParsePreviews(text: string): Option<seq<string>>
  {
    var rest :- StripPrefix(text, PreviewsHeader);
    var body :- StripSuffix(rest, PreviewsFooter);
    Some(Lines(body))
  }

  /** The `previews` text holds exactly the given statements, in order. */
  lemma PreviewsRoundTrip(statements: seq<string>)
    requires forall i :: 0 <= i < |statements| ==> SingleLine(statements[i])
    ensures ParsePreviews(PreviewsText(statements)) == Some(statements)
  {
    StripAffixes(PreviewsHeader, Unlines(statements), PreviewsFooter);
    LinesOfUnlines(statements);
  }

  /** `previewsDeclaration(statements:)`: appends each statement and a newline. */
  method PreviewsDeclaration(statements: seq<string>) returns (decl: string)
    ensures decl == PreviewsText(statements)
  {
    decl := PreviewsHeader;
    for i := 0 to |statements|
      invariant decl == PreviewsHeader + Unlines(statements[..i])
    {
      assert statements[..i + 1] == statements[..i] + [statements[i]];
      UnlinesAppend(statements[..i], [statements[i]]);
      decl := decl + statements[i] + "\n";
    }
    assert statements[..|statements|] == statements;
    decl := decl + PreviewsFooter;
  }

  /** `id.previewDisplayName("id")`: the preview of `id`, labelled with its own name. */
  function DisplayNameStatement(identifier: string): string
  {
    identifier + DisplayNameCall + identifier + DisplayNameEnd
  }

  /** The identifier a display-name statement previews, provided its label repeats it. */
  function DisplayedIdentifier(statement: string): Option<string>
  {
    var i :- IndexOf(statement, '.');
    var identifier := statement[..i];
    if statement[i..] == DisplayNameCall + identifier + DisplayNameEnd then Some(identifier) else None
  }

  /** A display-name statement splits at its first dot into the identifier and the label call. */
  lemma DisplayNameSplit(identifier: string)
    requires '.' !in identifier
    ensures var s := DisplayNameStatement(identifier);
      && IndexOf(s, '.') == Some(|identifier|)
      && s[..|identifier|] == identifier
      && s[|identifier|..] == DisplayNameCall + identifier + DisplayNameEnd
  {
    var tail := "previewDisplayName(\"" + identifier + DisplayNameEnd;
    assert DisplayNameStatement(identifier) == identifier + ['.'] + tail;
    assert DisplayNameCall + identifier + DisplayNameEnd == ['.'] + tail;
    SplitAtSeparator(identifier, '.', tail);
  }

  lemma DisplayNameSingleLine(identifier: string)
    requires '\n' !in identifier
    ensures SingleLine(DisplayNameStatement(identifier))
  {
    assert '\n' !in DisplayNameCall && '\n' !in DisplayNameEnd;
  }

  /** A display-name statement is one line, and names the identifier it previews and labels. */
  lemma DisplayNameRoundTrip(identifier: string)
    requires IsPlainIdentifier(identifier)
    ensures DisplayedIdentifier(DisplayNameStatement(identifier)) == Some(identifier)
    ensures SingleLine(DisplayNameStatement(identifier))
  {
    DisplayNameSplit(identifier);
    DisplayNameSingleLine(identifier);
  }

  /** `viewIdentifiers.map { "\($0).previewDisplayName(\"\($0)\")" }` */
  function DisplayNameStatements(identifiers: seq<string>): (r: seq<string>)
    ensures |r| == |identifiers|
    ensures forall i :: 0 <= i < |r| ==> r[i] == DisplayNameStatement(identifiers[i])
  {
    seq(|identifiers|, i requires 0 <= i < |identifiers| => DisplayNameStatement(identifiers[i]))
  }

  /** The identifiers a list of display-name statements previews; `None` if any statement has another form. */
  function ReadIdentifiers(statements: seq<string>): Option<seq<string>>
  {
    if statements == [] then Some([])
    else
      var identifier :- DisplayedIdentifier(statements[0]);
      var rest :- ReadIdentifiers(statements[1..]);
      Some([identifier] + rest)
  }

  /** The identifiers a `previews` declaration previews, in order. */
  function PreviewedIdentifiers(text: string): Option<seq<string>>
  {
    var statements :- ParsePreviews(text);
    ReadIdentifiers(statements)
  }

  lemma {:induction false} ReadDisplayNameStatements(identifiers: seq<string>)
    requires forall i :: 0 <= i < |identifiers| ==> IsPlainIdentifier(identifiers[i])
    ensures ReadIdentifiers(DisplayNameStatements(identifiers)) == Some(identifiers)
    ensures forall i :: 0 <= i < |identifiers| ==> SingleLine(DisplayNameStatements(identifiers)[i])
  {
    if identifiers != [] {
      DisplayNameRoundTrip(identifiers[0]);
      ReadDisplayNameStatements(identifiers[1..]);
      var statements := DisplayNameStatements(identifiers);
      assert statements[1..] == DisplayNameStatements(identifiers[1..]);
      assert statements[0] == DisplayNameStatement(identifiers[0]);
      assert [identifiers[0]] + identifiers[1..] == identifiers;
      forall i | 1 <= i < |identifiers|
        ensures SingleLine(DisplayNameStatements(identifiers)[i])
      {
        assert DisplayNameStatements(identifiers)[i] == DisplayNameStatements(identifiers[1..])[i - 1];
      }
    }
  }

  /**
   * The aggregator built for plain identifiers previews exactly those
   * identifiers, in the given order, each labelled with its own name.
   */
  lemma AggregatorRoundTrip(identifiers: seq<string>)
    requires forall i :: 0 <= i < |identifiers| ==> IsPlainIdentifier(identifiers[i])
    ensures PreviewedIdentifiers(PreviewsText(DisplayNameStatements(identifiers))) == Some(identifiers)
  {
    ReadDisplayNameStatements(identifiers);
    PreviewsRoundTrip(DisplayNameStatements(identifiers));
  }

  // ------------------------------------------------------------------ next()

  /**
   * What a `case k:` of the generated switch returns: for a `some View` or
   * `any View` member, a fresh `NamedView(name: "id", view: Self.id)`; for any
   * other member, the member `Self.id` itself.
   */
  datatype CaseExpr = WrapInNamedView(name: string, member: string) | MemberReference(member: string)

  function CaseExprOf(p: ViewProperty): CaseExpr
  {
    if p.isGenericView then WrapInNamedView(p.identifier, p.identifier) else MemberReference(p.identifier)
  }

  /** The switch's cases, case `k` for the `k`-th view property. */
  function CaseTable(ps: seq<ViewProperty>): (r: seq<CaseExpr>)
    ensures |r| == |ps|
    ensures forall k :: 0 <= k < |r| ==> r[k] == CaseExprOf(ps[k])
  {
    seq(|ps|, k requires 0 <= k < |ps| => CaseExprOf(ps[k]))
  }

  const NamedViewOpen := "\tNamedView(name: \""
  const NamedViewMiddle := "\"" + ", view: Self."
  const NamedViewClose := ")"
  const SelfPrefix := "Self."

  function CaseExprText(e: CaseExpr): string
  {
    match e
    case WrapInNamedView(name, member) => NamedViewOpen + name + NamedViewMiddle + member + NamedViewClose
    case MemberReference(member) => SelfPrefix + member
  }

  /** Reads one case body back; `None` when the line has neither form. */
  function ParseCaseExpr(line: string): Option<CaseExpr>
  {
    if NamedViewOpen <= line then
      var rest :- StripPrefix(line, NamedViewOpen);
      var inner :- StripSuffix(rest, NamedViewClose);
      var i :- IndexOf(inner, '"');
      var member :- StripPrefix(inner[i..], NamedViewMiddle);
      Some(WrapInNamedView(inner[..i], member))
    else
      var member :- StripPrefix(line, SelfPrefix);
      Some(MemberReference(member))
  }

  /** The inside of a `NamedView(...)` case splits at its first double quote into the name and the member. */
  lemma NamedViewInner(name: string, member: string)
    requires '"' !in name
    ensures var inner := name + NamedViewMiddle + member;
      && IndexOf(inner, '"') == Some(|name|)
      && inner[..|name|] == name
      && StripPrefix(inner[|name|..], NamedViewMiddle) == Some(member)
  {
    var tail := ", view: Self." + member;
    assert name + NamedViewMiddle + member == name + ['"'] + tail;
    assert NamedViewMiddle + member == ['"'] + tail;
    SplitAtSeparator(name, '"', tail);
    StripAffixes(NamedViewMiddle, member, "");
    assert NamedViewMiddle + member + "" == NamedViewMiddle + member;
  }

  lemma NamedViewCaseSingleLine(name: string, member: string)
    requires '\n' !in name && '\n' !in member
    ensures SingleLine(CaseExprText(WrapInNamedView(name, member)))
  {
    assert '\n' !in NamedViewOpen && '\n' !in NamedViewMiddle && '\n' !in NamedViewClose;
  }

  lemma NamedViewCaseRoundTrip(name: string, member: string)
    requires '"' !in name && '\n' !in name && '\n' !in member
    ensures ParseCaseExpr(CaseExprText(WrapInNamedView(name, member))) == Some(WrapInNamedView(name, member))
    ensures SingleLine(CaseExprText(WrapInNamedView(name, member)))
  {
    var inner := name + NamedViewMiddle + member;
    var line := CaseExprText(WrapInNamedView(name, member));
    assert line == NamedViewOpen + inner + NamedViewClose;
    StripAffixes(NamedViewOpen, inner, NamedViewClose);
    NamedViewInner(name, member);
    NamedViewCaseSingleLine(name, member);
  }

  lemma MemberReferenceCaseRoundTrip(member: string)
    requires '\n' !in member
    ensures ParseCaseExpr(CaseExprText(MemberReference(member))) == Some(MemberReference(member))
    ensures SingleLine(CaseExprText(MemberReference(member)))
  {
    var line := CaseExprText(MemberReference(member));
    assert line[0] == 'S' && NamedViewOpen[0] == '\t';
    assert (SelfPrefix + member)[|SelfPrefix|..] == member;
    assert '\n' !in SelfPrefix;
  }

  /** Each case body is one line, and reads back as the case it was built from. */
  lemma CaseExprRoundTrip(e: CaseExpr)
    requires '"' !in e.member && '\n' !in e.member
    requires e.WrapInNamedView? ==> '"' !in e.name && '\n' !in e.name
    ensures ParseCaseExpr(CaseExprText(e)) == Some(e)
    ensures SingleLine(CaseExprText(e))
  {
    match e
    case WrapInNamedView(name, member) => NamedViewCaseRoundTrip(name, member);
    case MemberReference(member) => MemberReferenceCaseRoundTrip(member);
  }

  /** `case k:` */
  function CaseLabel(k: nat): string
  {
    "case " + Decimal(k) + ":"
  }

  /** No two cases share a label, so each cursor value selects at most one case. */
  lemma CaseLabelsDistinct(j: nat, k: nat)
    requires j != k
    ensures CaseLabel(j) != CaseLabel(k)
  {
    if CaseLabel(j) == CaseLabel(k) {
      var a := CaseLabel(j);
      assert a[5..|a| - 1] == Decimal(j);
      assert CaseLabel(k)[5..|a| - 1] == Decimal(k);
      DecimalInjective(j, k);
      assert false;
    }
  }

  /** The lines of the cases for `ps`, numbered from `start`: a label line, then a body line. */
  function CaseLines(ps: seq<ViewProperty>, start: nat): seq<string>
  {
    if ps == [] then []
    else [CaseLabel(start), CaseExprText(CaseExprOf(ps[0]))] + CaseLines(ps[1..], start + 1)
  }

  lemma {:induction false} CaseLinesAppend(ps: seq<ViewProperty>, p: ViewProperty, start: nat)
    ensures CaseLines(ps + [p], start)
         == CaseLines(ps, start) + [CaseLabel(start + |ps|), CaseExprText(CaseExprOf(p))]
  {
    if ps == [] {
      assert [p][1..] == [];
    } else {
      assert (ps + [p])[1..] == ps[1..] + [p];
      CaseLinesAppend(ps[1..], p, start + 1);
    }
  }

  const NextSignature := "mutating func next() -> NamedView? {"
  const NextHeader := NextSignature + "\ndefer { iterator += 1 }\n\nreturn switch iterator {"
  const NextFooter := "default:\n    nil\n}\n}"

  /**
   * The `next()` declaration: it defers the cursor increment, then switches on
   * the cursor with one `case k:` per view property and a `default:` of `nil`.
   */
  function NextText(ps: seq<ViewProperty>): string
  {
    NextHeader + Unlines(CaseLines(ps, 0)) + NextFooter
  }

  /** The case lines read back: labels must count up from `start`. */
  function ParseCases(lines: seq<string>, start: nat): Option<seq<CaseExpr>>
    decreases |lines|
  {
    if lines == [] then Some([])
    else if |lines| < 2 || lines[0] != CaseLabel(start) then None
    else
      var e :- ParseCaseExpr(lines[1]);
      var rest :- ParseCases(lines[2..], start + 1);
      Some([e] + rest)
  }

  /** The switch of a `next()` declaration, read back from its text. */
  function ParseNext(text: string): Option<seq<CaseExpr>>
  {
    var rest :- StripPrefix(text, NextHeader);
    var body :- StripSuffix(rest, NextFooter);
    ParseCases(Lines(body), 0)
  }

  lemma CaseLabelSingleLine(k: nat)
    ensures SingleLine(CaseLabel(k))
  {
    assert CaseLabel(k) == "case " + Decimal(k) + ":";
    assert forall i :: 0 <= i < |Decimal(k)| ==> Decimal(k)[i] != '\n';
  }

  /** The first case's two lines, and the cases after it. */
  lemma CaseLinesHead(ps: seq<ViewProperty>, start: nat)
    requires ps != []
    ensures var lines := CaseLines(ps, start);
      && |lines| >= 2
      && lines[0] == CaseLabel(start)
      && lines[1] == CaseExprText(CaseExprOf(ps[0]))
      && lines[2..] == CaseLines(ps[1..], start + 1)
  {
  }

  lemma {:induction false} CaseLinesSingleLine(ps: seq<ViewProperty>, start: nat)
    requires AllPlain(ps)
    ensures forall i :: 0 <= i < |CaseLines(ps, start)| ==> SingleLine(CaseLines(ps, start)[i])
  {
    if ps != [] {
      var lines := CaseLines(ps, start);
      CaseLinesHead(ps, start);
      CaseExprRoundTrip(CaseExprOf(ps[0]));
      CaseLabelSingleLine(start);
      assert AllPlain(ps[1..]) by {
        assert forall k :: 0 <= k < |ps[1..]| ==> ps[1..][k] == ps[k + 1];
      }
      CaseLinesSingleLine(ps[1..], start + 1);
      forall i | 2 <= i < |lines|
        ensures SingleLine(lines[i])
      {
        assert lines[i] == lines[2..][i - 2];
      }
    }
  }

  lemma {:induction false} CaseLinesRoundTrip(ps: seq<ViewProperty>, start: nat)
    requires AllPlain(ps)
    ensures ParseCases(CaseLines(ps, start), start) == Some(CaseTable(ps))
  {
    if ps != [] {
      var e := CaseExprOf(ps[0]);
      CaseLinesHead(ps, start);
      CaseExprRoundTrip(e);
      assert AllPlain(ps[1..]) by {
        assert forall k :: 0 <= k < |ps[1..]| ==> ps[1..][k] == ps[k + 1];
      }
      CaseLinesRoundTrip(ps[1..], start + 1);
      assert CaseTable(ps) == [e] + CaseTable(ps[1..]);
    }
  }

  /**
   * The generated `next()` holds exactly one case per view property, labelled
   * 0, 1, ... in order, and case `k` returns what `CaseExprOf(ps[k])` says.
   */
  lemma NextRoundTrip(ps: seq<ViewProperty>)
    requires AllPlain(ps)
    ensures ParseNext(NextText(ps)) == Some(CaseTable(ps))
  {
    var lines := CaseLines(ps, 0);
    StripAffixes(NextHeader, Unlines(lines), NextFooter);
    CaseLinesSingleLine(ps, 0);
    CaseLinesRoundTrip(ps, 0);
    LinesOfUnlines(lines);
  }

  lemma TwoLinesAppended(before: string, first: string, second: string, after: string)
    requires after == before + (first + "\n") + second + "\n"
    ensures after == before + Unlines([first, second])
  {
    var l: seq<string> := [];
    assert [first, second][1..] == [second];
    assert [second][1..] == l;
    assert second + "\n" + Unlines(l) == second + "\n";
    assert Unlines([first, second]) == first + "\n" + (second + "\n");
    assert before + (first + "\n") + second + "\n" == before + (first + "\n" + (second + "\n"));
  }

  lemma LabelLine(count: nat)
    ensures "case " + Decimal(count) + ":\n" == CaseLabel(count) + "\n"
  {
    assert ":\n" == ":" + "\n";
  }

  lemma LinesAppended(header: string, prev: seq<string>, first: string, second: string, before: string, after: string)
    requires before == header + Unlines(prev)
    requires after == before + (first + "\n") + second + "\n"
    ensures after == header + Unlines(prev + [first, second])
  {
    TwoLinesAppended(before, first, second, after);
    UnlinesAppend(prev, [first, second]);
  }

  /** One more case appended to the text built so far. */
  lemma CaseStep(ps: seq<ViewProperty>, count: nat, header: string, before: string, after: string)
    requires count < |ps|
    requires before == header + Unlines(CaseLines(ps[..count], 0))
    requires after == before + ("case " + Decimal(count) + ":\n") + CaseExprText(CaseExprOf(ps[count])) + "\n"
    ensures after == header + Unlines(CaseLines(ps[..count + 1], 0))
  {
    LabelLine(count);
    LinesAppended(header, CaseLines(ps[..count], 0), CaseLabel(count), CaseExprText(CaseExprOf(ps[count])), before, after);
    assert ps[..count + 1] == ps[..count] + [ps[count]];
    CaseLinesAppend(ps[..count], ps[count], 0);
  }

  /** `iteratorNextDeclaration(viewProperties:)`: appends one case per property. */
  method IteratorNextDeclaration(viewProperties: seq<ViewProperty>) returns (decl: string)
    ensures decl == NextText(viewProperties)
  {
    decl := NextHeader;
    for count := 0 to |viewProperties|
      invariant decl == NextHeader + Unlines(CaseLines(viewProperties[..count], 0))
    {
      var viewProperty := viewProperties[count];
      ghost var before := decl;
      decl := decl + "case " + Decimal(count) + ":\n";
      var caseBody;
      if viewProperty.isGenericView {
        var identifier := viewProperty.identifier;
        caseBody := NamedViewOpen + identifier + NamedViewMiddle + identifier + NamedViewClose;
      } else {
        caseBody := SelfPrefix + viewProperty.identifier;
      }
      decl := decl + caseBody + "\n";
      CaseStep(viewProperties, count, NextHeader, before, decl);
    }
    assert viewProperties[..|viewProperties|] == viewProperties;
    decl := decl + NextFooter;
  }
}
