/**
 * What the generated code does when it runs: a struct expanded by the macro
 * holds its view members and the `iterator` cursor, and every call of the
 * generated `next()` returns the case the cursor selects (nil past the last
 * case) and then advances the cursor by one, whichever branch was taken.
 */
module Runtime {
  import opened Wrappers
  import opened MemberFilter
  import opened Syntax
  import opened Generation
  import opened AddPreviewsMacro

  /** The `NamedView` the library defines: a name and opaque view content. */
  datatype NamedView<V> = NamedView(name: string, view: V)

  /**
   * The value a member reads as: view content for a `some View`/`any View`
   * member; for any other member the generated `return switch` compiles only
   * if the member already has type `NamedView?`, and its value is returned as is.
   * Every case reads the member as `Self.id`, so the generated code compiles
   * only when each eligible member is `static`; the model assumes they all are.
   */
  datatype MemberValue<V> = Content(view: V) | Named(named: Option<NamedView<V>>)

  /** A case's expression and the member it reads agree in type. */
  predicate Conforms<V>(e: CaseExpr, v: MemberValue<V>) {
    e.WrapInNamedView? <==> v.Content?
  }

  predicate WellTyped<V>(ps: seq<ViewProperty>, values: seq<MemberValue<V>>) {
    |values| == |ps| && forall k :: 0 <= k < |ps| ==> Conforms(CaseExprOf(ps[k]), values[k])
  }

  /** What one case of the switch evaluates to, given the value of the member it reads. */
  function Evaluate<V>(e: CaseExpr, v: MemberValue<V>): Option<NamedView<V>>
    requires Conforms(e, v)
  {
    match e
    case WrapInNamedView(name, _) => Some(NamedView(name, v.view))
    case MemberReference(_) => v.named
  }

  /**
   * The value `next()` returns for a cursor value: the case the cursor selects
   * in the generated switch, or nil from the `default:` branch. A generic view
   * comes back named after its own member.
   */
  function NextValue<V>(ps: seq<ViewProperty>, values: seq<MemberValue<V>>, cursor: int): (r: Option<NamedView<V>>)
    requires WellTyped(ps, values)
    ensures !(0 <= cursor < |ps|) ==> r == None
    ensures 0 <= cursor < |ps| && ps[cursor].isGenericView ==>
      r == Some(NamedView(ps[cursor].identifier, values[cursor].view))
    ensures 0 <= cursor < |ps| && !ps[cursor].isGenericView ==> r == values[cursor].named
  {
    if 0 <= cursor < |ps| then Evaluate(CaseTable(ps)[cursor], values[cursor]) else None
  }

  /** The values of `next()` for cursors 0, 1, ..., count - 1 from `start`. */
  function NextValues<V>(ps: seq<ViewProperty>, values: seq<MemberValue<V>>, start: int, count: nat)
    : (r: seq<Option<NamedView<V>>>)
    requires WellTyped(ps, values)
    ensures |r| == count
    ensures forall k :: 0 <= k < count ==> r[k] == NextValue(ps, values, start + k)
  {
    seq(count, k requires 0 <= k < count => NextValue(ps, values, start + k))
  }

  /**
   * From a fresh cursor, `n + extra` calls return every case once in order
   * (generic views named after their members) and then nil `extra` times.
   */
  lemma EnumeratesOnceThenNil<V>(ps: seq<ViewProperty>, values: seq<MemberValue<V>>, extra: nat)
    requires WellTyped(ps, values)
    ensures var r := NextValues(ps, values, 0, |ps| + extra);
      && (forall k :: 0 <= k < |ps| && ps[k].isGenericView ==>
            r[k] == Some(NamedView(ps[k].identifier, values[k].view)))
      && (forall k :: 0 <= k < |ps| && !ps[k].isGenericView ==> r[k] == values[k].named)
      && r[|ps|..] == seq(extra, _ => None)
  {
  }

  /**
   * At run time, case `k` of the `next()` the macro generated for `d` is what
   * the call with cursor `k` evaluates: for an eligible generic-view member
   * that is the `NamedView` named after the member.
   */
  lemma RunsGeneratedSwitch<V>(d: Declaration, values: seq<MemberValue<V>>, k: nat)
    requires ExpandsNormally(d)
    requires WellTyped(ViewProperties(d.members), values)
    requires k < |ViewProperties(d.members)|
    ensures var table := ParseNext(MemberExpansion(d).decls[1]);
      && table.Some? && k < |table.value|
      && Conforms(table.value[k], values[k])
      && NextValue(ViewProperties(d.members), values, k) == Evaluate(table.value[k], values[k])
  {
    GeneratedCodeReadsBack(d);
  }

  /** The attributed struct after expansion, as it behaves at run time. */
  class PreviewProvider<V> {
    const properties: seq<ViewProperty>
    const values: seq<MemberValue<V>>
    /** The generated `iterator` field (`iterator` is a reserved word here). */
    var cursor: int

    ghost predicate Valid()
      reads this
    {
      WellTyped(properties, values) && cursor >= 0
    }

    /** A new instance: the cursor field starts at 0. */
    constructor (properties: seq<ViewProperty>, values: seq<MemberValue<V>>)
      requires WellTyped(properties, values)
      ensures Valid()
      ensures this.properties == properties && this.values == values && cursor == 0
    {
      this.properties := properties;
      this.values := values;
      cursor := 0;
    }

    /**
     * The generated `mutating func next()`: the value the cursor selects,
     * after which the deferred `iterator += 1` runs on every path.
     */
    method Next() returns (r: Option<NamedView<V>>)
      requires Valid()
      modifies this`cursor
      ensures Valid()
      ensures cursor == old(cursor) + 1
      ensures r == NextValue(properties, values, old(cursor))
    {
      r := if 0 <= cursor < |properties| then Evaluate(CaseTable(properties)[cursor], values[cursor]) else None;
      cursor := cursor + 1;
    }

    /**
     * A caller calling `next()` on this instance `count` times in a row, nil
     * results included (a `for`-in loop would stop at the first nil, and works
     * on a copy of the struct).
     */
    method Take(count: nat) returns (results: seq<Option<NamedView<V>>>)
      requires Valid()
      modifies this`cursor
      ensures Valid()
      ensures cursor == old(cursor) + count
      ensures results == NextValues(properties, values, old(cursor), count)
    {
      results := [];
      var i := 0;
      while i < count
        invariant 0 <= i <= count
        invariant Valid() && cursor == old(cursor) + i
        invariant results == NextValues(properties, values, old(cursor), i)
      {
        var r := Next();
        results := results + [r];
        i := i + 1;
      }
    }
  }
}
