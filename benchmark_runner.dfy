/** BenchmarkRunner: the group loop of main. Each group with a key axiom
    becomes one EL test case with the next `test_N` id, its question, the
    reasoner's verdict on the key axiom as Yes/No and every axiom of the
    group formatted. The groups arrive in the map's iteration order (the
    sequence `groups`); the reasoner and the functional text are the
    parameters `entailed` and `functional`. */
module BenchmarkRunner {
  import opened Text
  import opened Owl
  import opened Benchmark
  import QueryGenerator
  import AxiomFormatter

  const IdPrefix := "test_"

  /** The id of the n-th emitted test case. */
  function TestId(n: nat): string {
    IdPrefix + NatToString(n)
  }

  /** The test case built from a group that has a key axiom, numbered `n`;
      `ids` names the numbers (the runner uses TestId). */
  function Case(group: seq<Axiom>, n: nat, ids: nat -> string, entailed: Axiom -> bool, functional: Axiom -> string): TestCase
    requires QueryGenerator.KeyAxiom(group).Some?
  {
    var target := QueryGenerator.KeyAxiom(group).value;
    TestCase(map[IdKey := ids(n),
                 ProfileKey := EL,
                 QueryKey := QueryGenerator.QueryOf(group),
                 ExpectedKey := if entailed(target) then Yes else No],
             AxiomFormatter.FormatAll(group, functional))
  }

  /** The groups that are not skipped, in order. */
  function Emitted(groups: seq<seq<Axiom>>): seq<seq<Axiom>> {
    if groups == [] then []
    else if QueryGenerator.KeyAxiom(groups[0]).None? then Emitted(groups[1..])
    else [groups[0]] + Emitted(groups[1..])
  }

  /** The output of the loop over `groups` when the id counter starts at
      `next`: a skipped group consumes no id. */
  function Assembled(groups: seq<seq<Axiom>>, next: nat, ids: nat -> string, entailed: Axiom -> bool, functional: Axiom -> string): seq<TestCase> {
    if groups == [] then []
    else if QueryGenerator.KeyAxiom(groups[0]).None? then Assembled(groups[1..], next, ids, entailed, functional)
    else [Case(groups[0], next, ids, entailed, functional)] + Assembled(groups[1..], next + 1, ids, entailed, functional)
  }

  /** The group loop of main, with the id counter starting at 1. */
  method Assemble(groups: seq<seq<Axiom>>, entailed: Axiom -> bool, functional: Axiom -> string)
    returns (output: seq<TestCase>)
    ensures output == Assembled(groups, 1, TestId, entailed, functional)
  {
    output := [];
    var idCounter := 1;
    var i := 0;
    while i < |groups|
      invariant 0 <= i <= |groups| && idCounter >= 1
      invariant output + Assembled(groups[i..], idCounter, TestId, entailed, functional) == Assembled(groups, 1, TestId, entailed, functional)
    {
      var axioms := groups[i];
      AssembledStep(groups, i, idCounter, TestId, entailed, functional);
      var query := QueryGenerator.GenerateQuery(axioms);
      var target := QueryGenerator.GetQueryAxiom(axioms);
      if target.None? {
        i := i + 1;
        continue;
      }
      var base := BuildCase(axioms, idCounter, query, target.value, entailed, functional);
      ghost var rest := Assembled(groups[i + 1..], idCounter + 1, TestId, entailed, functional);
      assert output + [base] + rest == output + ([base] + rest);
      idCounter := idCounter + 1;
      output := output + [base];
      i := i + 1;
    }
    assert groups[|groups|..] == [];
  }

  /** The body of the loop for a group with a key axiom: the reasoner's
      verdict, the formatted axioms and the four fields. */
  method BuildCase(axioms: seq<Axiom>, idCounter: nat, query: string, target: Axiom,
                   entailed: Axiom -> bool, functional: Axiom -> string)
    returns (base: TestCase)
    requires QueryGenerator.KeyAxiom(axioms) == Some(target)
    requires query == QueryGenerator.QueryOf(axioms)
    ensures base == Case(axioms, idCounter, TestId, entailed, functional)
  {
    var isValid := entailed(target);
    var formatted := AxiomFormatter.FormatAll(axioms, functional);
    base := TestCase(map[IdKey := IdPrefix + NatToString(idCounter),
                         ProfileKey := EL,
                         QueryKey := query,
                         ExpectedKey := if isValid then Yes else No],
                     formatted);
  }

  /** One step of the loop: the group at `i` is skipped or numbered `next`. */
  lemma AssembledStep(groups: seq<seq<Axiom>>, i: nat, next: nat, ids: nat -> string, entailed: Axiom -> bool, functional: Axiom -> string)
    requires i < |groups|
    ensures Assembled(groups[i..], next, ids, entailed, functional)
            == if QueryGenerator.KeyAxiom(groups[i]).None? then Assembled(groups[i + 1..], next, ids, entailed, functional)
               else [Case(groups[i], next, ids, entailed, functional)] + Assembled(groups[i + 1..], next + 1, ids, entailed, functional)
  {
    assert groups[i..][1..] == groups[i + 1..];
  }

  /** The skipped groups are exactly those without a key axiom: the groups
      kept are the groups with one, in order, so there are at most as many
      as there are groups. */
  lemma {:induction false} EmittedGroups(groups: seq<seq<Axiom>>)
    ensures |Emitted(groups)| <= |groups|
    ensures forall g :: g in Emitted(groups) <==> g in groups && QueryGenerator.KeyAxiom(g).Some?
  {
    if groups != [] {
      EmittedGroups(groups[1..]);
      assert groups == [groups[0]] + groups[1..];
    }
  }

  /** As many test cases as groups not skipped. */
  lemma {:induction false} AssembledLength(groups: seq<seq<Axiom>>, next: nat, ids: nat -> string, entailed: Axiom -> bool, functional: Axiom -> string)
    ensures |Assembled(groups, next, ids, entailed, functional)| == |Emitted(groups)|
  {
    if groups != [] {
      AssembledLength(groups[1..], next, ids, entailed, functional);
      AssembledLength(groups[1..], next + 1, ids, entailed, functional);
    }
  }

  /** The j-th test case is built from the j-th group that is not skipped
      and is numbered `n`, which is `next + j`. */
  lemma {:induction false} AssembledAt(groups: seq<seq<Axiom>>, next: nat, ids: nat -> string, entailed: Axiom -> bool, functional: Axiom -> string, j: nat, n: nat)
    requires j < |Emitted(groups)| && n == next + j
    ensures QueryGenerator.KeyAxiom(Emitted(groups)[j]).Some?
    ensures j < |Assembled(groups, next, ids, entailed, functional)|
    ensures Assembled(groups, next, ids, entailed, functional)[j] == Case(Emitted(groups)[j], n, ids, entailed, functional)
  {
    var rest := groups[1..];
    AssembledLength(groups, next, ids, entailed, functional);
    if QueryGenerator.KeyAxiom(groups[0]).None? {
      AssembledAt(rest, next, ids, entailed, functional, j, n);
    } else if j > 0 {
      AssembledAt(rest, next + 1, ids, entailed, functional, j - 1, n);
    }
  }

  /** What each emitted test case holds: the id `test_<j+1>`, profile EL,
      the group's own question (never the fallback text), Yes or No as
      the reasoner judges the key axiom, and the group's axioms formatted
      one for one in order; no other field. */
  lemma CaseFields(group: seq<Axiom>, n: nat, entailed: Axiom -> bool, functional: Axiom -> string)
    requires QueryGenerator.KeyAxiom(group).Some?
    ensures var c := Case(group, n, TestId, entailed, functional);
            c.fields.Keys == {IdKey, ProfileKey, QueryKey, ExpectedKey}
            && c.fields[IdKey] == IdPrefix + NatToString(n)
            && c.fields[ProfileKey] == EL
            && c.fields[QueryKey] == QueryGenerator.QueryOf(group) != QueryGenerator.NoQuery
            && (c.fields[ExpectedKey] == Yes <==> entailed(QueryGenerator.KeyAxiom(group).value))
            && (c.fields[ExpectedKey] == Yes || c.fields[ExpectedKey] == No)
            && |c.axioms| == |group|
            && forall i :: 0 <= i < |group| ==> c.axioms[i] == AxiomFormatter.FormatAxiom(group[i], functional)
  {
  }

  /** Different numbers give different ids. */
  lemma TestIdInjective(a: nat, b: nat)
    requires a != b
    ensures TestId(a) != TestId(b)
  {
    var x, y := NatToString(a), NatToString(b);
    NatToStringInjective(a, b);
    assert x == TestId(a)[|IdPrefix|..];
    assert y == TestId(b)[|IdPrefix|..];
  }

  /** The ids are `test_1`, `test_2`, ... in emission order, so no two
      test cases share one. */
  lemma {:induction false} AssembledIds(groups: seq<seq<Axiom>>, entailed: Axiom -> bool, functional: Axiom -> string)
    ensures var out := Assembled(groups, 1, TestId, entailed, functional);
            (forall j :: 0 <= j < |out| ==> IdKey in out[j].fields && out[j].fields[IdKey] == TestId(j + 1))
            && forall j, k :: 0 <= j < k < |out| ==> out[j].fields[IdKey] != out[k].fields[IdKey]
  {
    var out := Assembled(groups, 1, TestId, entailed, functional);
    AssembledIdsWith(groups, TestId, entailed, functional);
    assert forall j :: 0 <= j < |out| ==> IdKey in out[j].fields && out[j].fields[IdKey] == TestId(j + 1);
    ConsecutiveIdsDistinct(out);
  }

  /** The j-th test case is named by the number j + 1. */
  lemma {:induction false} AssembledIdsWith(groups: seq<seq<Axiom>>, ids: nat -> string, entailed: Axiom -> bool, functional: Axiom -> string)
    ensures forall j :: 0 <= j < |Assembled(groups, 1, ids, entailed, functional)| ==>
              IdKey in Assembled(groups, 1, ids, entailed, functional)[j].fields
              && Assembled(groups, 1, ids, entailed, functional)[j].fields[IdKey] == ids(j + 1)
  {
    var out := Assembled(groups, 1, ids, entailed, functional);
    AssembledLength(groups, 1, ids, entailed, functional);
    forall j | 0 <= j < |out| ensures IdKey in out[j].fields && out[j].fields[IdKey] == ids(j + 1) {
      AssembledAt(groups, 1, ids, entailed, functional, j, 1 + j);
      CaseId(Emitted(groups)[j], 1 + j, ids, entailed, functional);
    }
  }

  /** Test cases named `test_1`, `test_2`, ... have pairwise distinct ids. */
  lemma {:induction false} ConsecutiveIdsDistinct(out: seq<TestCase>)
    requires forall j :: 0 <= j < |out| ==> IdKey in out[j].fields && out[j].fields[IdKey] == TestId(j + 1)
    ensures forall j, k :: 0 <= j < k < |out| ==> out[j].fields[IdKey] != out[k].fields[IdKey]
  {
    forall j, k | 0 <= j < k < |out| ensures out[j].fields[IdKey] != out[k].fields[IdKey] {
      TestIdInjective(j + 1, k + 1);
    }
  }

  lemma CaseId(group: seq<Axiom>, n: nat, ids: nat -> string, entailed: Axiom -> bool, functional: Axiom -> string)
    requires QueryGenerator.KeyAxiom(group).Some?
    ensures IdKey in Case(group, n, ids, entailed, functional).fields
    ensures Case(group, n, ids, entailed, functional).fields[IdKey] == ids(n)
  {
  }
}
