/** Pipeline: what one stage promises the next. The symbolic text the
    formatter writes is what the profile extender scans; the ids the
    runner assigns are what the draft extender reads back; the test cases
    the runner writes are what the evaluation scripts read; and the two
    scripts match answers the same way. */
module Pipeline {
  import opened Text
  import opened Owl
  import opened Benchmark
  import opened Prompts
  import AxiomFormatter
  import ELHExtender
  import BenchmarkRunner
  import ExtenderDraft
  import EvaluateLLMs
  import EvaluateGpt4o

  // ---------------------------------------------------------------------
  // formatter to extender

  /** The role the extender scans out of the rendering of `a ⊑ ∃r.f` is
      `r` itself, when neither name holds `∃` or `.` and `r` is non-empty
      with no blank at either end. */
  lemma {:induction false} RenderedRoleReadBack(a: string, r: string, f: ClassExpr, functional: Axiom -> string)
    requires '∃' !in a && '.' !in r && r != []
    requires !IsJavaBlank(r[0]) && !IsJavaBlank(r[|r| - 1])
    ensures ELHExtender.RoleOf(AxiomFormatter.FormatAxiom(SubClassOf(Named(a), SomeValuesFrom(NamedProp(r), f)), functional).symbolic)
            == Some(r)
  {
    var pre := a + " ⊑ ";
    assert '∃' !in pre by {
      forall k | 0 <= k < |pre| ensures pre[k] != '∃' {
        if k < |a| {
          assert pre[k] == a[k];
        }
      }
    }
    var post := AxiomFormatter.ClassName(f);
    assert AxiomFormatter.FormatAxiom(SubClassOf(Named(a), SomeValuesFrom(NamedProp(r), f)), functional).symbolic
           == pre + ['∃'] + r + "." + post;
    ELHExtender.RoleOfMarked(pre, r, post);
  }

  /** Such a rendered key axiom alone makes the extender add exactly the
      hierarchy axiom of `r` and relabel the case ELH. */
  lemma {:induction false} RenderedCaseExtended(fields: map<string, string>, a: string, r: string, f: ClassExpr, functional: Axiom -> string)
    requires '∃' !in a && '.' !in r && r != []
    requires !IsJavaBlank(r[0]) && !IsJavaBlank(r[|r| - 1])
    ensures var rendered := AxiomFormatter.FormatAxiom(SubClassOf(Named(a), SomeValuesFrom(NamedProp(r), f)), functional);
            var out := ELHExtender.Extended(TestCase(fields, [rendered]));
            out.axioms == [rendered, ELHExtender.HierarchyAxiom(r)] && out.fields[ProfileKey] == ELH
  {
    var rendered := AxiomFormatter.FormatAxiom(SubClassOf(Named(a), SomeValuesFrom(NamedProp(r), f)), functional);
    RenderedRoleReadBack(a, r, f, functional);
    ELHExtender.ExtendedSingle(fields, rendered, r);
  }

  // ---------------------------------------------------------------------
  // runner to draft extender

  /** The fields of the runner's test cases, in order. */
  function FieldsOf(cases: seq<TestCase>): (r: seq<map<string, string>>)
    ensures |r| == |cases| && forall k :: 0 <= k < |cases| ==> r[k] == cases[k].fields
  {
    seq(|cases|, k requires 0 <= k < |cases| => cases[k].fields)
  }

  /** The draft's id scan over the runner's output reads every id back and
      ends at the number of test cases emitted (while the ids stay within
      an int). */
  lemma {:induction false} RunnerIdsReadBack(groups: seq<seq<Axiom>>, entailed: Axiom -> bool, functional: Axiom -> string)
    requires |BenchmarkRunner.Assembled(groups, 1, BenchmarkRunner.TestId, entailed, functional)| <= IntMax
    ensures var out := BenchmarkRunner.Assembled(groups, 1, BenchmarkRunner.TestId, entailed, functional);
            (forall j :: 0 <= j < |out| ==> ExtenderDraft.IdNumber(out[j].fields) == Some(j + 1))
            && ExtenderDraft.MaxId(FieldsOf(out)) == Some(|out|)
  {
    var out := BenchmarkRunner.Assembled(groups, 1, BenchmarkRunner.TestId, entailed, functional);
    var fs := FieldsOf(out);
    BenchmarkRunner.AssembledIds(groups, entailed, functional);
    forall j | 0 <= j < |out| ensures ExtenderDraft.IdNumber(out[j].fields) == Some(j + 1) {
      ExtenderDraft.IdNumberOfRunnerId(j + 1, out[j].fields);
    }
    ExtenderDraft.MaxIdConsecutive(fs);
  }

  // ---------------------------------------------------------------------
  // runner to evaluation scripts

  /** The runner's test cases as the scripts read them back. */
  function EntriesOf(cases: seq<TestCase>): (r: seq<Entry>)
    ensures |r| == |cases|
    ensures forall k :: 0 <= k < |cases| ==> r[k] == Entry(cases[k].fields, Some(AxiomList(cases[k].axioms)))
  {
    seq(|cases|, k requires 0 <= k < |cases| => Entry(cases[k].fields, Some(AxiomList(cases[k].axioms))))
  }

  /** The multi-model script evaluates every test case the runner writes:
      one result per case, carrying its id and query, and asking about the
      EL profile. */
  lemma {:induction false} RunnerOutputEvaluates(groups: seq<seq<Axiom>>, entailed: Axiom -> bool, functional: Axiom -> string,
                              modelName: string, llm: string -> string)
    ensures var out := BenchmarkRunner.Assembled(groups, 1, BenchmarkRunner.TestId, entailed, functional);
            var res := EvaluateLLMs.Evaluated(EntriesOf(out), modelName, llm);
            res.Some? && |res.value| == |out|
            && forall j :: 0 <= j < |out| ==>
                 (IdKey in out[j].fields && QueryKey in out[j].fields
                  && res.value[j].id == out[j].fields[IdKey] && res.value[j].query == out[j].fields[QueryKey]
                  && res.value[j].dlProfile == EL)
  {
    var out := BenchmarkRunner.Assembled(groups, 1, BenchmarkRunner.TestId, entailed, functional);
    var es := EntriesOf(out);
    forall j | 0 <= j < |out|
      ensures out[j].fields.Keys == {IdKey, ProfileKey, QueryKey, ExpectedKey} && out[j].fields[ProfileKey] == EL
    {
      RunnerCaseFields(groups, entailed, functional, j);
    }
    EvaluateLLMs.EvaluatedComplete(es, modelName, llm);
  }

  /** The single-model script fails on any non-empty output of the runner:
      the runner writes no `mr` field and the script requires one. */
  lemma {:induction false} RunnerOutputLacksMr(groups: seq<seq<Axiom>>, entailed: Axiom -> bool, functional: Axiom -> string,
                            gpt: string -> string)
    requires |BenchmarkRunner.Assembled(groups, 1, BenchmarkRunner.TestId, entailed, functional)| > 0
    ensures EvaluateGpt4o.Evaluated(EntriesOf(BenchmarkRunner.Assembled(groups, 1, BenchmarkRunner.TestId, entailed, functional)), gpt).None?
  {
    var out := BenchmarkRunner.Assembled(groups, 1, BenchmarkRunner.TestId, entailed, functional);
    RunnerCaseFields(groups, entailed, functional, 0);
    EvaluateGpt4o.MissingMrFails(EntriesOf(out), gpt, 0);
  }

  /** The keys and profile of the j-th test case of the runner. */
  lemma {:induction false} RunnerCaseFields(groups: seq<seq<Axiom>>, entailed: Axiom -> bool, functional: Axiom -> string, j: nat)
    requires j < |BenchmarkRunner.Assembled(groups, 1, BenchmarkRunner.TestId, entailed, functional)|
    ensures var c := BenchmarkRunner.Assembled(groups, 1, BenchmarkRunner.TestId, entailed, functional)[j];
            c.fields.Keys == {IdKey, ProfileKey, QueryKey, ExpectedKey} && c.fields[ProfileKey] == EL
  {
    BenchmarkRunner.AssembledLength(groups, 1, BenchmarkRunner.TestId, entailed, functional);
    BenchmarkRunner.AssembledAt(groups, 1, BenchmarkRunner.TestId, entailed, functional, j, 1 + j);
    BenchmarkRunner.CaseFields(BenchmarkRunner.Emitted(groups)[j], 1 + j, entailed, functional);
  }

  // ---------------------------------------------------------------------
  // the two scripts

  /** Both scripts flag the same answers as matches, although one
      lower-cases before stripping and the other after. */
  lemma {:induction false} MatchesAgree(expected: string, answer: string)
    ensures EvaluateLLMs.Match(expected, answer) == EvaluateGpt4o.Match(expected, answer)
    ensures EvaluateLLMs.Match(expected, answer) == Yes <==> PyLower(PyStrip(expected)) == PyLower(PyStrip(answer))
  {
    LowerStripCommute(expected);
    LowerStripCommute(answer);
  }

  /** Every entry the single-model script can prompt for, the multi-model
      script can too, and the two prompts agree up to their last lines,
      which differ. */
  lemma {:induction false} PromptsDifferInTail(entry: Entry)
    requires EvaluateGpt4o.BuildPrompt(entry).Some?
    ensures EvaluateLLMs.BuildPrompt(entry).Some?
    ensures var p1 := EvaluateLLMs.BuildPrompt(entry).value;
            var p2 := EvaluateGpt4o.BuildPrompt(entry).value;
            |p1| >= |EvaluateLLMs.Tail| && |p2| >= |EvaluateGpt4o.Tail|
            && p1[..|p1| - |EvaluateLLMs.Tail|] == p2[..|p2| - |EvaluateGpt4o.Tail|]
            && p1[|p1| - |EvaluateLLMs.Tail|..] == EvaluateLLMs.Tail
            && p2[|p2| - |EvaluateGpt4o.Tail|..] == EvaluateGpt4o.Tail
            && p1 != p2
  {
    var d := Describe(entry.fields[ProfileKey]);
    var a := AxiomsText(entry.axioms.value);
    var q := entry.fields[QueryKey];
    var body := Head + d + ":\n\n" + a + Question + q + "\n\n";
    var p1 := EvaluateLLMs.BuildPrompt(entry).value;
    var p2 := EvaluateGpt4o.BuildPrompt(entry).value;
    assert p1 == body + EvaluateLLMs.Tail;
    assert p2 == body + EvaluateGpt4o.Tail;
    assert p1[..|body|] == body;
    assert p2[..|body|] == body;
    assert |EvaluateLLMs.Tail| != |EvaluateGpt4o.Tail|;
  }
}
