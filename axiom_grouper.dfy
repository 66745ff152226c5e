/** AxiomGrouper: the subclass axioms of an ontology, bucketed by the
    short name of their left-hand side. The ontology's axiom set is given
    as a sequence in the order the library iterates it; that order is not
    specified and nothing here depends on it beyond "in that order". */
module AxiomGrouper {
  import opened Text
  import opened Owl

  /** The bucket key of an axiom: the name of the left-hand side of a
      SubClassOf axiom when that side is a named class; none for an
      anonymous left-hand side and for every other kind of axiom. */
  function SubjectOf(ax: Axiom): (r: Option<string>)
    ensures r.Some? <==> ax.SubClassOf? && ax.sub.Named?
    ensures r.Some? ==> r.value == ax.sub.name
  {
    if ax.SubClassOf? && ax.sub.Named? then Some(ax.sub.name) else None
  }

  /** The axioms of `axs` keyed by `k`, in order. */
  function Bucket(axs: seq<Axiom>, k: string): seq<Axiom> {
    if axs == [] then []
    else
      var prev := Bucket(axs[..|axs| - 1], k);
      if SubjectOf(axs[|axs| - 1]) == Some(k) then prev + [axs[|axs| - 1]] else prev
  }

  /** The axioms of `axs` that get a bucket at all, in order. */
  function Qualifying(axs: seq<Axiom>): seq<Axiom> {
    if axs == [] then []
    else
      var prev := Qualifying(axs[..|axs| - 1]);
      if SubjectOf(axs[|axs| - 1]).Some? then prev + [axs[|axs| - 1]] else prev
  }

  /** The map the grouping loop has built after the axioms `axs`: the
      bucket of the last axiom's key, created empty when absent, gets the
      axiom appended. */
  function Grouped(axs: seq<Axiom>): map<string, seq<Axiom>> {
    if axs == [] then map[]
    else
      var g := Grouped(axs[..|axs| - 1]);
      var ax := axs[|axs| - 1];
      var s := SubjectOf(ax);
      if s.None? then g
      else g[s.value := (if s.value in g then g[s.value] else []) + [ax]]
  }

  /** groupBySubject. */
  method GroupBySubject(axs: seq<Axiom>) returns (groups: map<string, seq<Axiom>>)
    ensures groups == Grouped(axs)
  {
    groups := map[];
    var i := 0;
    while i < |axs|
      invariant 0 <= i <= |axs|
      invariant groups == Grouped(axs[..i])
    {
      var ax := axs[i];
      assert axs[..i + 1][..i] == axs[..i];
      if ax.SubClassOf? {
        var lhs := ax.sub;
        if lhs.Named? {
          var className := lhs.name;
          var bucket := if className in groups then groups[className] else [];
          groups := groups[className := bucket + [ax]];
        }
      }
      i := i + 1;
    }
    assert axs[..|axs|] == axs;
  }

  /** The keys are exactly the names of the named left-hand sides, and the
      bucket under each key is the in-order list of the axioms with that
      key: nothing else, nothing missing, nothing reordered. */
  lemma {:induction false} GroupedBuckets(axs: seq<Axiom>)
    ensures forall k :: k in Grouped(axs) <==> exists i :: 0 <= i < |axs| && SubjectOf(axs[i]) == Some(k)
    ensures forall k :: k in Grouped(axs) ==> Grouped(axs)[k] == Bucket(axs, k)
  {
    if axs != [] {
      var init := axs[..|axs| - 1];
      var ax := axs[|axs| - 1];
      GroupedBuckets(init);
      BucketEmpty(init);
      forall k ensures k in Grouped(axs) <==> exists i :: 0 <= i < |axs| && SubjectOf(axs[i]) == Some(k) {
        if exists i :: 0 <= i < |init| && SubjectOf(init[i]) == Some(k) {
          var i :| 0 <= i < |init| && SubjectOf(init[i]) == Some(k);
          assert axs[i] == init[i];
        }
        if exists i :: 0 <= i < |axs| && SubjectOf(axs[i]) == Some(k) {
          var i :| 0 <= i < |axs| && SubjectOf(axs[i]) == Some(k);
          if i < |init| {
            assert init[i] == axs[i];
          }
        }
      }
    }
  }

  /** A key no axiom carries has an empty bucket. */
  lemma {:induction false} BucketEmpty(axs: seq<Axiom>)
    ensures forall k :: (forall i :: 0 <= i < |axs| ==> SubjectOf(axs[i]) != Some(k)) ==> Bucket(axs, k) == []
  {
    if axs != [] {
      var init := axs[..|axs| - 1];
      BucketEmpty(init);
      forall k | forall i :: 0 <= i < |axs| ==> SubjectOf(axs[i]) != Some(k)
        ensures Bucket(axs, k) == []
      {
        assert forall i :: 0 <= i < |init| ==> init[i] == axs[i];
        assert SubjectOf(axs[|axs| - 1]) != Some(k);
      }
    }
  }

  /** A bucket holds each axiom as often as the input does when the axiom
      carries its key, and never otherwise: only SubClassOf axioms with a
      named left-hand side called `k` are placed under `k`. */
  lemma {:induction false} BucketContents(axs: seq<Axiom>, k: string)
    ensures forall a :: multiset(Bucket(axs, k))[a] == if SubjectOf(a) == Some(k) then multiset(axs)[a] else 0
  {
    if axs != [] {
      var init := axs[..|axs| - 1];
      var ax := axs[|axs| - 1];
      BucketContents(init, k);
      assert axs == init + [ax];
      assert multiset(axs) == multiset(init) + multiset{ax};
    }
  }

  /** Every bucket is non-empty. */
  lemma {:induction false} BucketsNonEmpty(axs: seq<Axiom>)
    ensures forall k :: k in Grouped(axs) ==> |Grouped(axs)[k]| > 0
  {
    GroupedBuckets(axs);
    forall k | k in Grouped(axs) ensures |Grouped(axs)[k]| > 0 {
      var i :| 0 <= i < |axs| && SubjectOf(axs[i]) == Some(k);
      BucketContents(axs, k);
      assert axs[i] in multiset(axs);
      assert axs[i] in multiset(Bucket(axs, k));
    }
  }

  /** Every member of a bucket is a SubClassOf axiom whose named left-hand
      side carries the bucket's key. */
  lemma {:induction false} BucketMembers(axs: seq<Axiom>)
    ensures forall k, a :: k in Grouped(axs) && a in Grouped(axs)[k] ==>
              a.SubClassOf? && a.sub.Named? && a.sub.name == k
  {
    GroupedBuckets(axs);
    forall k, a | k in Grouped(axs) && a in Grouped(axs)[k]
      ensures a.SubClassOf? && a.sub.Named? && a.sub.name == k
    {
      BucketContents(axs, k);
      assert a in multiset(Bucket(axs, k));
    }
  }

  /** Input made only of axioms without a named left-hand side (anonymous
      subclasses, other kinds) gives the empty map. */
  lemma {:induction false} GroupedEmpty(axs: seq<Axiom>)
    requires forall i :: 0 <= i < |axs| ==> SubjectOf(axs[i]).None?
    ensures Grouped(axs) == map[]
  {
    if axs != [] {
      GroupedEmpty(axs[..|axs| - 1]);
    }
  }

  // ---------------------------------------------------------------------
  // bucket sizes

  /** The sum of the bucket sizes of a map. */
  ghost function TotalSize(g: map<string, seq<Axiom>>): nat
    decreases |g.Keys|
  {
    if g == map[] then 0
    else
      var k :| k in g;
      assert |(g - {k}).Keys| < |g.Keys| by {
        assert (g - {k}).Keys == g.Keys - {k};
      }
      |g[k]| + TotalSize(g - {k})
  }

  /** The sum does not depend on which key is taken first. */
  lemma TotalSizeRemove(g: map<string, seq<Axiom>>, k: string)
    requires k in g
    ensures TotalSize(g) == |g[k]| + TotalSize(g - {k})
    decreases |g.Keys|
  {
    var j :| j in g && TotalSize(g) == |g[j]| + TotalSize(g - {j});
    if j != k {
      assert (g - {j}).Keys == g.Keys - {j};
      assert (g - {k}).Keys == g.Keys - {k};
      TotalSizeRemove(g - {j}, k);
      TotalSizeRemove(g - {k}, j);
      assert g - {j} - {k} == g - {k} - {j};
    }
  }

  /** Replacing one bucket changes the sum by the change in its size. */
  lemma TotalSizeUpdate(g: map<string, seq<Axiom>>, k: string, s: seq<Axiom>)
    ensures TotalSize(g[k := s]) + (if k in g then |g[k]| else 0) == TotalSize(g) + |s|
  {
    TotalSizeRemove(g[k := s], k);
    assert g[k := s] - {k} == g - {k};
    if k in g {
      TotalSizeRemove(g, k);
    } else {
      assert g - {k} == g;
    }
  }

  /** Each qualifying axiom lands in exactly one bucket: the bucket sizes
      add up to the number of axioms with a named left-hand side. */
  lemma {:induction false} GroupedTotalSize(axs: seq<Axiom>)
    ensures TotalSize(Grouped(axs)) == |Qualifying(axs)|
  {
    if axs != [] {
      var init := axs[..|axs| - 1];
      var ax := axs[|axs| - 1];
      GroupedTotalSize(init);
      var g := Grouped(init);
      var s := SubjectOf(ax);
      if s.Some? {
        TotalSizeUpdate(g, s.value, (if s.value in g then g[s.value] else []) + [ax]);
      }
    }
  }

  // ---------------------------------------------------------------------
  // the unit tests' inputs

  lemma GroupedSnoc(axs: seq<Axiom>, ax: Axiom)
    ensures Grouped(axs + [ax])
            == var g := Grouped(axs);
               var s := SubjectOf(ax);
               if s.None? then g else g[s.value := (if s.value in g then g[s.value] else []) + [ax]]
  {
    assert (axs + [ax])[..|axs|] == axs;
  }

  /** Two subclass axioms about Margherita share one bucket. */
  lemma GroupsMargherita()
    ensures var a1 := SubClassOf(Named("Margherita"), Named("Pizza"));
            var a2 := SubClassOf(Named("Margherita"), Named("Cheese"));
            Grouped([a1, a2]) == map["Margherita" := [a1, a2]]
  {
    var a1 := SubClassOf(Named("Margherita"), Named("Pizza"));
    var a2 := SubClassOf(Named("Margherita"), Named("Cheese"));
    GroupedSnoc([], a1);
    GroupedSnoc([a1], a2);
    assert [] + [a1] == [a1];
    assert [a1] + [a2] == [a1, a2];
  }

  /** An anonymous subclass, ∃hasIngredient.Tomato ⊑ Topping, is not grouped. */
  lemma IgnoresAnonymousSubclass()
    ensures Grouped([SubClassOf(SomeValuesFrom(NamedProp("hasIngredient"), Named("Tomato")), Named("Topping"))]) == map[]
  {
    var ax := SubClassOf(SomeValuesFrom(NamedProp("hasIngredient"), Named("Tomato")), Named("Topping"));
    assert [ax][..0] == [];
  }
}
