/** QueryGenerator: finds a group's key axiom (its first `A ⊑ ∃R.C`),
    turns it into a yes/no question, paraphrases questions, and removes an
    axiom from a list for the remove-key-axiom variant. */
module QueryGenerator {
  import opened Text
  import opened Owl

  const NoQuery := "No suitable query generated."
  const AnonymousClass := "AnonymousClass"
  const AnonymousProperty := "anonymousProperty"

  /** The short name of a named class, a placeholder for an anonymous one. */
  function ClassName(e: ClassExpr): string {
    if e.Named? then e.name else AnonymousClass
  }

  /** The short name of a named property, a lower-case placeholder for an
      anonymous (inverse) one. */
  function PropName(p: PropExpr): string {
    if p.NamedProp? then p.name else AnonymousProperty
  }

  /** The role as the question names it: an inverse role is its base
      property's name followed by `^-1`. */
  function RoleLabel(p: PropExpr): (r: string)
    ensures p.Inverse? ==> r == PropName(p.base) + "^-1"
    ensures p.NamedProp? ==> r == p.name
    ensures p.Inverse? && p.base.Inverse? ==> r == AnonymousProperty + "^-1"
  {
    if p.Inverse? then PropName(p.base) + "^-1" else PropName(p)
  }

  /** The question asked about a key axiom `A ⊑ ∃R.C`. */
  function Question(ax: Axiom): string
    requires IsKeyAxiom(ax)
  {
    "Does every " + ClassName(ax.sub) + " have "
      + RoleLabel(ax.sup.prop) + "." + ClassName(ax.sup.filler) + "?"
  }

  /** No question is the fallback text. */
  lemma QuestionIsNotFallback(ax: Axiom)
    requires IsKeyAxiom(ax)
    ensures Question(ax) != NoQuery
  {
    assert Question(ax)[0..2] == "Do";
    assert NoQuery[0..2] == "No";
  }

  /** The key axiom of a group: its first key-shaped axiom, if any. */
  function KeyAxiom(axs: seq<Axiom>): (r: Option<Axiom>)
    ensures r.Some? ==> IsKeyAxiom(r.value)
  {
    if axs == [] then None
    else if IsKeyAxiom(axs[0]) then Some(axs[0])
    else KeyAxiom(axs[1..])
  }

  /** A group has no key axiom exactly when none of its axioms is
      key-shaped, and otherwise its key axiom is the first key-shaped one. */
  lemma {:induction false} KeyAxiomFirst(axs: seq<Axiom>)
    ensures KeyAxiom(axs).None? <==> forall i :: 0 <= i < |axs| ==> !IsKeyAxiom(axs[i])
    ensures KeyAxiom(axs).Some? ==>
              exists i :: 0 <= i < |axs| && axs[i] == KeyAxiom(axs).value
                          && forall j :: 0 <= j < i ==> !IsKeyAxiom(axs[j])
  {
    if axs != [] && !IsKeyAxiom(axs[0]) {
      var tail := axs[1..];
      KeyAxiomFirst(tail);
      assert forall i :: 0 < i < |axs| ==> axs[i] == tail[i - 1];
      if KeyAxiom(tail).Some? {
        var i :| 0 <= i < |tail| && tail[i] == KeyAxiom(tail).value
                 && forall j :: 0 <= j < i ==> !IsKeyAxiom(tail[j]);
        assert axs[i + 1] == KeyAxiom(axs).value;
      }
    }
  }

  /** The question of a group, or the fallback text when it has no key. */
  function QueryOf(axs: seq<Axiom>): (q: string)
    ensures q == NoQuery <==> KeyAxiom(axs).None?
  {
    match KeyAxiom(axs)
    case None => NoQuery
    case Some(ax) => QuestionIsNotFallback(ax); Question(ax)
  }

  /** getQueryAxiom: scans the group in order and stops at the first key
      axiom; none when there is no such axiom (Java's null). */
  method GetQueryAxiom(axs: seq<Axiom>) returns (r: Option<Axiom>)
    ensures r == KeyAxiom(axs)
    ensures r.None? <==> forall i :: 0 <= i < |axs| ==> !IsKeyAxiom(axs[i])
    ensures r.Some? ==> exists i :: 0 <= i < |axs| && axs[i] == r.value && IsKeyAxiom(axs[i])
                                   && forall j :: 0 <= j < i ==> !IsKeyAxiom(axs[j])
  {
    var i := 0;
    while i < |axs|
      invariant 0 <= i <= |axs|
      invariant forall j :: 0 <= j < i ==> !IsKeyAxiom(axs[j])
      invariant KeyAxiom(axs) == KeyAxiom(axs[i..])
    {
      var ax := axs[i];
      if ax.SubClassOf? {
        if ax.sup.SomeValuesFrom? {
          KeyAxiomFirst(axs);
          return Some(ax);
        }
      }
      assert axs[i..][1..] == axs[i + 1..];
      i := i + 1;
    }
    KeyAxiomFirst(axs);
    return None;
  }

  /** generateQuery: the same scan as getQueryAxiom; renders the question
      of the first key axiom and returns at once, or falls back. */
  method GenerateQuery(axs: seq<Axiom>) returns (q: string)
    ensures q == QueryOf(axs)
    ensures q == NoQuery <==> forall i :: 0 <= i < |axs| ==> !IsKeyAxiom(axs[i])
  {
    var i := 0;
    while i < |axs|
      invariant 0 <= i <= |axs|
      invariant KeyAxiom(axs) == KeyAxiom(axs[i..])
    {
      var ax := axs[i];
      if ax.SubClassOf? {
        var superClass := ax.sup;
        var subClass := ax.sub;
        if superClass.SomeValuesFrom? {
          var property := superClass.prop;
          var propertyName := PropName(property);
          if property.Inverse? {
            propertyName := PropName(property.base) + "^-1";
          }
          KeyAxiomFirst(axs);
          return "Does every " + ClassName(subClass) + " have "
            + propertyName + "." + ClassName(superClass.filler) + "?";
        }
      }
      assert axs[i..][1..] == axs[i + 1..];
      i := i + 1;
    }
    KeyAxiomFirst(axs);
    return NoQuery;
  }

  /** A one-axiom group asks the question of that axiom. */
  lemma QueryOfSingle(ax: Axiom)
    requires IsKeyAxiom(ax)
    ensures QueryOf([ax]) == Question(ax)
  {
    assert KeyAxiom([ax]) == Some(ax);
  }

  /** The question the generator's unit test expects for `A ⊑ ∃hasPart.B`. */
  lemma QuestionExample()
    ensures QueryOf([SubClassOf(Named("A"), SomeValuesFrom(NamedProp("hasPart"), Named("B")))])
            == "Does every A have hasPart.B?"
  {
    var ax := SubClassOf(Named("A"), SomeValuesFrom(NamedProp("hasPart"), Named("B")));
    QueryOfSingle(ax);
    assert Question(ax) == "Does every " + "A" + " have " + "hasPart" + "." + "B" + "?";
  }

  /** The question the generator's unit test expects for `A ⊑ ∃hasPart⁻.B`. */
  lemma InverseQuestionExample()
    ensures QueryOf([SubClassOf(Named("A"), SomeValuesFrom(Inverse(NamedProp("hasPart")), Named("B")))])
            == "Does every A have hasPart^-1.B?"
  {
    var ax := SubClassOf(Named("A"), SomeValuesFrom(Inverse(NamedProp("hasPart")), Named("B")));
    QueryOfSingle(ax);
    assert Question(ax) == "Does every " + "A" + " have " + "hasPart^-1" + "." + "B" + "?";
    assert "Does every " + "A" + " have " == "Does every A have ";
    assert "hasPart^-1" + "." + "B" + "?" == "hasPart^-1.B?";
    assert "Does every A have " + "hasPart^-1.B?" == "Does every A have hasPart^-1.B?";
  }

  /** paraphraseQuery: every "Does every" becomes "Is it true that all",
      then every "have" becomes "contain", inside names too. */
  function ParaphraseQuery(original: string): string {
    ReplaceAll(ReplaceAll(original, "Does every", "Is it true that all"), "have", "contain")
  }

  /** A text containing neither phrase is returned unchanged. */
  lemma ParaphraseUnchanged(s: string)
    requires NoOccurrence(s, "Does every") && NoOccurrence(s, "have")
    ensures ParaphraseQuery(s) == s
  {
    ReplaceNoOccurrence(s, "Does every", "Is it true that all");
    ReplaceNoOccurrence(s, "have", "contain");
  }

  /** A character in neither phrase splits the paraphrase: the text on each
      side of it is paraphrased on its own. */
  lemma ParaphraseAround(x: string, c: char, y: string)
    requires c !in "Does every" && c !in "have"
    ensures ParaphraseQuery(x + [c] + y) == ParaphraseQuery(x) + [c] + ParaphraseQuery(y)
  {
    var o, i := "Does every", "Is it true that all";
    ReplaceAround(x, c, y, o, i);
    ReplaceAround(ReplaceAll(x, o, i), c, ReplaceAll(y, o, i), "have", "contain");
  }

  /** The replacement of the opening brings no "have" of its own. */
  lemma OpeningHasNoVerb()
    ensures NoOccurrence("Is it true that all", "have")
  {
    var s := "Is it true that all";
    forall p | 0 <= p < |s| ensures !OccursAt(s, p, "have") {
      if p + 4 <= |s| {
        if p == 12 {
          assert s[p..p + 4][2] == s[14] == 't';
        } else {
          assert s[p..p + 4][0] == s[p] != 'h';
        }
      }
    }
  }

  /** The first rewrite on a question: its opening is replaced, and the
      name and the rest are rewritten each on its own. */
  lemma OpeningRewrite(a: string, tail: string)
    ensures ReplaceAll("Does every " + a + " have " + tail, "Does every", "Is it true that all")
            == "Is it true that all " + ReplaceAll(a, "Does every", "Is it true that all")
               + " have " + ReplaceAll(tail, "Does every", "Is it true that all")
  {
    var o, i, v := "Does every", "Is it true that all", "have";
    SpacedLiterals();
    SpaceRegroup("Does every ", o, a, " have ", v, tail, ' ');
    assert o[0] != ' ' && o[|o| - 1] != ' ' && v[0] !in o && o[0] !in v;
    ReplaceOpening(o, i, a, v, tail, ' ');
    SpaceRegroup("Is it true that all ", i, ReplaceAll(a, o, i), " have ", v, ReplaceAll(tail, o, i), ' ');
  }

  /** The second rewrite on a rewritten question: its verb is replaced, and
      the name and the rest are rewritten each on its own. */
  lemma VerbRewrite(a: string, tail: string)
    ensures ReplaceAll("Is it true that all " + a + " have " + tail, "have", "contain")
            == "Is it true that all " + ReplaceAll(a, "have", "contain")
               + " contain " + ReplaceAll(tail, "have", "contain")
  {
    var i, v, w := "Is it true that all", "have", "contain";
    SpacedLiterals();
    SpaceRegroup("Is it true that all ", i, a, " have ", v, tail, ' ');
    ReplaceJoined(i, a, v, tail, ' ', v, w);
    VerbInLiterals();
    SpaceRegroup("Is it true that all ", i, ReplaceAll(a, v, w), " contain ", w, ReplaceAll(tail, v, w), ' ');
  }

  /** The second rewrite leaves the new opening alone and turns the verb
      into its replacement. */
  lemma VerbInLiterals()
    ensures ReplaceAll("Is it true that all", "have", "contain") == "Is it true that all"
    ensures ReplaceAll("have", "have", "contain") == "contain"
  {
    OpeningHasNoVerb();
    ReplaceNoOccurrence("Is it true that all", "have", "contain");
    ReplaceHead("have", "contain", []);
    assert "have" + [] == "have";
  }

  /** The literals of a question, split at their spaces. */
  lemma SpacedLiterals()
    ensures "Does every " == "Does every" + [' ']
    ensures "Is it true that all " == "Is it true that all" + [' ']
    ensures " have " == [' '] + "have" + [' ']
    ensures " contain " == [' '] + "contain" + [' ']
  {
  }

  lemma SpaceRegroup(p: string, o: string, a: string, q: string, v: string, t: string, c: char)
    requires p == o + [c] && q == [c] + v + [c]
    ensures p + a + q + t == o + [c] + a + [c] + v + [c] + t
  {
  }

  /** Paraphrasing a question "Does every A have T" (A a name, T the rest of
      the question) rewrites its opening and its verb, and rewrites A and T
      each on its own: a phrase inside a name is rewritten as well. */
  lemma ParaphraseQuestionText(a: string, tail: string)
    ensures ParaphraseQuery("Does every " + a + " have " + tail)
            == "Is it true that all " + ParaphraseQuery(a) + " contain " + ParaphraseQuery(tail)
  {
    var o, i := "Does every", "Is it true that all";
    OpeningRewrite(a, tail);
    VerbRewrite(ReplaceAll(a, o, i), ReplaceAll(tail, o, i));
  }

  /** The paraphrase of a key axiom's question: the name, the role and the
      filler are each paraphrased on their own. */
  lemma ParaphraseQuestion(ax: Axiom)
    requires IsKeyAxiom(ax)
    ensures ParaphraseQuery(Question(ax))
            == "Is it true that all " + ParaphraseQuery(ClassName(ax.sub)) + " contain "
               + ParaphraseQuery(RoleLabel(ax.sup.prop)) + "." + ParaphraseQuery(ClassName(ax.sup.filler)) + "?"
  {
    var a, r, c := ClassName(ax.sub), RoleLabel(ax.sup.prop), ClassName(ax.sup.filler);
    TailRegroup("Does every " + a + " have ", r, ".", c, "?");
    ParaphraseQuestionText(a, r + "." + c + "?");
    ParaphraseTail(r, c);
    TailRegroup("Is it true that all " + ParaphraseQuery(a) + " contain ", ParaphraseQuery(r), ".", ParaphraseQuery(c), "?");
  }

  /** The rest of a question, a role and a filler, is paraphrased piece by
      piece: neither `.` nor `?` is part of a phrase. */
  lemma ParaphraseTail(r: string, c: string)
    ensures ParaphraseQuery(r + "." + c + "?") == ParaphraseQuery(r) + "." + ParaphraseQuery(c) + "?"
  {
    ParaphraseAround(r, '.', c + ['?'] + []);
    ParaphraseAround(c, '?', []);
    assert ParaphraseQuery([]) == [];
    assert r + "." + c + "?" == r + ['.'] + (c + ['?'] + []);
    assert ParaphraseQuery(r) + ['.'] + (ParaphraseQuery(c) + ['?'] + [])
           == ParaphraseQuery(r) + "." + ParaphraseQuery(c) + "?";
  }

  lemma TailRegroup(q: string, r: string, d: string, c: string, e: string)
    ensures q + r + d + c + e == q + (r + d + c + e)
  {
  }

  /** The question and its paraphrase for the key axiom `A ⊑ ∃hasPart.B`. */
  lemma ParaphraseExample()
    ensures ParaphraseQuery("Does every " + "A" + " have " + "hasPart.B?")
            == "Is it true that all " + "A" + " contain " + "hasPart.B?"
  {
    var tail := "hasPart.B?";
    forall p | 0 <= p < |tail| ensures !OccursAt(tail, p, "have") {
      if p + 4 <= |tail| {
        if p == 0 {
          assert tail[p..p + 4][2] == tail[2] != 'v';
        } else {
          assert tail[p..p + 4][0] == tail[p] != 'h';
        }
      }
    }
    NoOccurrenceChar(tail, "Does every");
    NoOccurrenceChar("A", "Does every");
    NoOccurrenceChar("A", "have");
    ParaphraseUnchanged(tail);
    ParaphraseUnchanged("A");
    ParaphraseQuestionText("A", tail);
  }

  /** A name whose `h` does not start a "have" is left alone: the question
      about `Margherita` keeps its names. */
  lemma ParaphraseMargheritaExample()
    ensures ParaphraseQuery("Does every " + "Margherita" + " have " + "hasTopping" + "." + "Mozzarella" + "?")
            == "Is it true that all " + "Margherita" + " contain " + "hasTopping" + "." + "Mozzarella" + "?"
  {
    var o, v := "Does every", "have";
    var m, t, z := "Margherita", "hasTopping", "Mozzarella";
    forall p | 0 <= p < |m| ensures !OccursAt(m, p, v) {
      if p + 4 <= |m| {
        if p == 4 {
          assert m[p..p + 4][1] == m[5] != 'a';
        } else {
          assert m[p..p + 4][0] == m[p] != 'h';
        }
      }
    }
    forall p | 0 <= p < |t| ensures !OccursAt(t, p, v) {
      if p + 4 <= |t| {
        if p == 0 {
          assert t[p..p + 4][2] == t[2] != 'v';
        } else {
          assert t[p..p + 4][0] == t[p] != 'h';
        }
      }
    }
    NoOccurrenceChar(m, o);
    NoOccurrenceChar(t, o);
    NoOccurrenceChar(z, o);
    NoOccurrenceChar(z, v);
    ParaphraseUnchanged(m);
    ParaphraseUnchanged(t);
    ParaphraseUnchanged(z);
    TailRegroup("Does every " + m + " have ", t, ".", z, "?");
    ParaphraseQuestionText(m, t + "." + z + "?");
    ParaphraseTail(t, z);
    TailRegroup("Is it true that all " + m + " contain ", t, ".", z, "?");
  }

  /** A name with "have" inside it is rewritten too: the question about
      `Behaver` is paraphrased about `Becontainr`. */
  lemma ParaphraseInsideName()
    ensures ParaphraseQuery("Does every " + "Behaver" + " have " + "x?")
            == "Is it true that all " + "Becontainr" + " contain " + "x?"
  {
    var o, i, v, w := "Does every", "Is it true that all", "have", "contain";
    NoOccurrenceChar("Behaver", o);
    ReplaceNoOccurrence("Behaver", o, i);
    assert "Behaver" == "Be" + (v + "r");
    ReplaceSkipChar("Be", v + "r", v, w);
    ReplaceHead(v, w, "r");
    ReplaceAbsent("r", v, w);
    assert "Be" + (w + "r") == "Becontainr";
    NoOccurrenceChar("x?", o);
    NoOccurrenceChar("x?", v);
    ParaphraseUnchanged("x?");
    ParaphraseQuestionText("Behaver", "x?");
  }

  /** The elements of `axs` other than `x`, in order. */
  function Without(axs: seq<Axiom>, x: Axiom): seq<Axiom> {
    if axs == [] then []
    else
      var init := axs[..|axs| - 1];
      var last := axs[|axs| - 1];
      if last == x then Without(init, x) else Without(init, x) + [last]
  }

  /** Every occurrence of `x` goes and every other element stays as often
      as it was there. */
  lemma {:induction false} WithoutCount(axs: seq<Axiom>, x: Axiom)
    ensures x !in Without(axs, x)
    ensures |Without(axs, x)| == |axs| - multiset(axs)[x]
    ensures multiset(Without(axs, x)) == multiset(axs)[x := 0]
  {
    if axs != [] {
      var init := axs[..|axs| - 1];
      var last := axs[|axs| - 1];
      WithoutCount(init, x);
      assert axs == init + [last];
      assert multiset(axs) == multiset(init) + multiset{last};
      if last != x {
        assert multiset(Without(axs, x)) == multiset(Without(init, x)) + multiset{last};
      }
    }
  }

  lemma WithoutSnoc(s: seq<Axiom>, y: Axiom, x: Axiom)
    ensures Without(s + [y], x) == if y == x then Without(s, x) else Without(s, x) + [y]
  {
    assert (s + [y])[..|s|] == s;
  }

  /** Removing splits over concatenation, so the kept elements stay in
      their original order. */
  lemma {:induction false} WithoutConcat(a: seq<Axiom>, b: seq<Axiom>, x: Axiom)
    ensures Without(a + b, x) == Without(a, x) + Without(b, x)
    decreases |b|
  {
    if b == [] {
      assert a + b == a;
    } else {
      var init := b[..|b| - 1];
      assert (a + b)[..|a + b| - 1] == a + init;
      assert (a + b)[|a + b| - 1] == b[|b| - 1];
      WithoutConcat(a, init, x);
    }
  }

  /** removeQueryAxiom: a new list of every element not equal to
      `toRemove`. */
  method RemoveQueryAxiom(axs: seq<Axiom>, toRemove: Axiom) returns (result: seq<Axiom>)
    ensures result == Without(axs, toRemove)
  {
    result := [];
    var i := 0;
    while i < |axs|
      invariant 0 <= i <= |axs|
      invariant result == Without(axs[..i], toRemove)
    {
      var ax := axs[i];
      assert axs[..i + 1] == axs[..i] + [ax];
      WithoutSnoc(axs[..i], ax, toRemove);
      if ax != toRemove {
        result := result + [ax];
      }
      i := i + 1;
    }
    assert axs[..|axs|] == axs;
  }
}
