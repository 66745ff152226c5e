/** The OWL objects the pipeline inspects, as a closed tagged variant.
    A named entity carries its IRI's short form as `name`; every other
    axiom kind of the ontology is `Other`, told apart by an opaque tag. */
module Owl {

  /** An object property expression: a named role or the inverse of one. */
  datatype PropExpr = NamedProp(name: string) | Inverse(base: PropExpr)

  /** A class expression: a named class, an existential restriction
      ObjectSomeValuesFrom(prop, filler), or any other anonymous expression
      (intersection, union, ...). */
  datatype ClassExpr =
    | Named(name: string)
    | SomeValuesFrom(prop: PropExpr, filler: ClassExpr)
    | OtherAnon

  datatype Individual = NamedInd(name: string) | AnonInd

  datatype Axiom =
    | SubClassOf(sub: ClassExpr, sup: ClassExpr)
    | ClassAssertion(ind: Individual, cls: ClassExpr)
    | PropAssertion(subject: Individual, prop: PropExpr, obj: Individual)
    | Other(tag: string)

  /** The shape the benchmark is built around: a subclass axiom whose
      superclass is an existential restriction, `A ⊑ ∃R.C`. */
  predicate IsKeyAxiom(ax: Axiom) {
    ax.SubClassOf? && ax.sup.SomeValuesFrom?
  }

  // No name mentioned anywhere inside an object contains the character c.

  predicate PropAvoids(p: PropExpr, c: char) {
    match p
    case NamedProp(n) => c !in n
    case Inverse(b) => PropAvoids(b, c)
  }

  predicate ClassAvoids(e: ClassExpr, c: char) {
    match e
    case Named(n) => c !in n
    case SomeValuesFrom(p, f) => PropAvoids(p, c) && ClassAvoids(f, c)
    case OtherAnon => true
  }

  predicate IndividualAvoids(i: Individual, c: char) {
    i.NamedInd? ==> c !in i.name
  }

  predicate AxiomAvoids(ax: Axiom, c: char) {
    match ax
    case SubClassOf(sub, sup) => ClassAvoids(sub, c) && ClassAvoids(sup, c)
    case ClassAssertion(i, e) => IndividualAvoids(i, c) && ClassAvoids(e, c)
    case PropAssertion(s, p, o) => IndividualAvoids(s, c) && PropAvoids(p, c) && IndividualAvoids(o, c)
    case Other(_) => true
  }
}
