/** AxiomFormatter: each axiom in two notations, a compact symbolic one
    (`A ⊑ ∃R.C`, `i : C`, `s p o`) and the ontology library's own
    functional-syntax text. That text (OWLAxiom.toString) is not modelled:
    it is the parameter `functional`. */
module AxiomFormatter {
  import opened Owl
  import opened Benchmark

  const AnonymousClass := "AnonymousClass"
  const AnonymousProperty := "AnonymousProperty"
  const AnonymousIndividual := "AnonymousIndividual"

  /** The short name of a named class; a placeholder for any anonymous one. */
  function ClassName(e: ClassExpr): string {
    if e.Named? then e.name else AnonymousClass
  }

  /** The short name of a named property; a placeholder for an inverse,
      which is anonymous (so no `^-1` appears in the symbolic text). */
  function PropName(p: PropExpr): string {
    if p.NamedProp? then p.name else AnonymousProperty
  }

  function IndividualName(i: Individual): string {
    if i.NamedInd? then i.name else AnonymousIndividual
  }

  /** `∃R.C` for an existential restriction (its filler by name only);
      the class name or placeholder otherwise. */
  function FormatClassExpression(e: ClassExpr): string {
    match e
    case SomeValuesFrom(p, f) => "∃" + PropName(p) + "." + ClassName(f)
    case _ => ClassName(e)
  }

  function FormatSubClassOfAxiom(sub: ClassExpr, sup: ClassExpr): string {
    ClassName(sub) + " ⊑ " + FormatClassExpression(sup)
  }

  function FormatClassAssertionAxiom(i: Individual, e: ClassExpr): string {
    IndividualName(i) + " : " + ClassName(e)
  }

  function FormatObjectPropertyAssertionAxiom(s: Individual, p: PropExpr, o: Individual): string {
    IndividualName(s) + " " + PropName(p) + " " + IndividualName(o)
  }

  /** The symbolic notation; an unsupported kind falls back to its
      functional text. Every supported kind renders to a non-empty text. */
  function ToSymbolicString(ax: Axiom, functional: Axiom -> string): (r: string)
    ensures ax.Other? ==> r == functional(ax)
    ensures !ax.Other? ==> |r| > 0
  {
    match ax
    case SubClassOf(sub, sup) => FormatSubClassOfAxiom(sub, sup)
    case PropAssertion(s, p, o) => FormatObjectPropertyAssertionAxiom(s, p, o)
    case ClassAssertion(i, e) => FormatClassAssertionAxiom(i, e)
    case Other(_) => functional(ax)
  }

  /** The {symbolic, functional} record of one axiom: the functional entry
      is the axiom's own text, and for an unsupported kind the symbolic
      entry repeats it. */
  function FormatAxiom(ax: Axiom, functional: Axiom -> string): (r: RenderedAxiom)
    ensures r.functional == functional(ax)
    ensures ax.Other? ==> r.symbolic == r.functional
    ensures !ax.Other? ==> |r.symbolic| > 0
  {
    RenderedAxiom(ToSymbolicString(ax, functional), functional(ax))
  }

  /** Every axiom of a group, formatted in the group's order. */
  function FormatAll(axs: seq<Axiom>, functional: Axiom -> string): (r: seq<RenderedAxiom>)
    ensures |r| == |axs|
    ensures forall i :: 0 <= i < |axs| ==> r[i] == FormatAxiom(axs[i], functional)
  {
    seq(|axs|, i requires 0 <= i < |axs| => FormatAxiom(axs[i], functional))
  }

  lemma ClassNameAvoids(e: ClassExpr)
    requires ClassAvoids(e, '∃')
    ensures '∃' !in ClassName(e)
  {
    assert '∃' !in AnonymousClass;
  }

  lemma PropNameAvoids(p: PropExpr)
    requires PropAvoids(p, '∃')
    ensures '∃' !in PropName(p)
  {
    assert '∃' !in AnonymousProperty;
  }

  lemma IndividualNameAvoids(i: Individual)
    requires IndividualAvoids(i, '∃')
    ensures '∃' !in IndividualName(i)
  {
    assert '∃' !in AnonymousIndividual;
  }

  /** When no name holds the glyph, the symbolic text of a supported axiom
      contains `∃` exactly when the axiom is `A ⊑ ∃R.C`: the glyph the
      profile extender looks for marks the key-axiom shape and nothing
      else. */
  lemma ExistsGlyphIffKey(ax: Axiom, functional: Axiom -> string)
    requires !ax.Other? && AxiomAvoids(ax, '∃')
    ensures '∃' in FormatAxiom(ax, functional).symbolic <==> IsKeyAxiom(ax)
  {
    var s := FormatAxiom(ax, functional).symbolic;
    match ax
    case SubClassOf(sub, sup) =>
      ClassNameAvoids(sub);
      if sup.SomeValuesFrom? {
        assert s[|ClassName(sub) + " ⊑ "|] == '∃';
      } else {
        ClassNameAvoids(sup);
        assert s == ClassName(sub) + " ⊑ " + ClassName(sup);
      }
    case ClassAssertion(i, e) =>
      IndividualNameAvoids(i);
      ClassNameAvoids(e);
      assert s == IndividualName(i) + " : " + ClassName(e);
    case PropAssertion(sj, p, o) =>
      IndividualNameAvoids(sj);
      PropNameAvoids(p);
      IndividualNameAvoids(o);
      assert s == IndividualName(sj) + " " + PropName(p) + " " + IndividualName(o);
  }

  /** A property assertion over an inverse role names the role by the
      anonymous-property placeholder, so no `^` (as in `^-1`) appears in
      the text unless an individual's name holds one. */
  lemma InverseRoleUnmarked(s: Individual, p: PropExpr, o: Individual, functional: Axiom -> string)
    requires IndividualAvoids(s, '^') && IndividualAvoids(o, '^')
    ensures FormatAxiom(PropAssertion(s, Inverse(p), o), functional).symbolic
            == IndividualName(s) + " " + AnonymousProperty + " " + IndividualName(o)
    ensures '^' !in FormatAxiom(PropAssertion(s, Inverse(p), o), functional).symbolic
  {
    assert '^' !in AnonymousIndividual;
    assert '^' !in AnonymousProperty;
  }

  /** The rendering checked by the formatter's unit test. */
  lemma FormatsNamedSubClass(functional: Axiom -> string)
    ensures FormatAxiom(SubClassOf(Named("A"), Named("B")), functional).symbolic == "A ⊑ B"
  {
  }
}
