/** EvaluateLLMs: the multi-model evaluation script. Each entry becomes a
    prompt, the model's answer to it is compared with the expected answer
    ignoring case and surrounding white space, and the results are counted
    and the mistakes listed. The model is the parameter `llm`, a function
    from prompt to answer (the text the client returns, which for a failed
    call is an error text). A key the script reads with `entry[...]` and
    that is missing raises KeyError and ends the run without results:
    that is the None of Evaluated. */
module EvaluateLLMs {
  import opened Text
  import opened Benchmark
  import opened Prompts

  const Tail := "Reply only with \"Yes\" or \"No\", and do not explain your answer."
  const Unknown := "unknown"

  /** build_prompt: the profile defaults to "unknown"; the axioms and the
      query are required. */
  function BuildPrompt(entry: Entry): (r: Option<string>)
    ensures r.Some? <==> entry.axioms.Some? && QueryKey in entry.fields
  {
    if entry.axioms.None? || QueryKey !in entry.fields then None
    else
      var description := Describe(Get(entry.fields, ProfileKey, Unknown));
      Some(PromptWith(description, AxiomsText(entry.axioms.value), entry.fields[QueryKey], Tail))
  }

  /** The prompt of an entry without a profile speaks of an unknown
      profile, as does one whose profile is neither EL nor ELH. */
  lemma MissingProfileIsUnknown(entry: Entry)
    requires entry.axioms.Some? && QueryKey in entry.fields
    requires ProfileKey !in entry.fields || (entry.fields[ProfileKey] != EL && entry.fields[ProfileKey] != ELH)
    ensures BuildPrompt(entry)
            == Some(PromptWith(UnknownDescription, AxiomsText(entry.axioms.value), entry.fields[QueryKey], Tail))
  {
  }

  /** The prompt carries the entry's query verbatim just before its last
      line, and two entries with the same axioms and profile get the same
      prompt only if they ask the same query. */
  lemma PromptCarriesQuery(e1: Entry, e2: Entry)
    requires BuildPrompt(e1).Some? && BuildPrompt(e2).Some?
    requires e1.axioms == e2.axioms && Get(e1.fields, ProfileKey, Unknown) == Get(e2.fields, ProfileKey, Unknown)
    ensures var p := BuildPrompt(e1).value;
            var q := e1.fields[QueryKey];
            p[|p| - |Tail| - 2 - |q|..|p| - |Tail| - 2] == q
    ensures BuildPrompt(e1) == BuildPrompt(e2) <==> e1.fields[QueryKey] == e2.fields[QueryKey]
  {
    var d := Describe(Get(e1.fields, ProfileKey, Unknown));
    var a := AxiomsText(e1.axioms.value);
    PromptLayout(d, a, e1.fields[QueryKey], Tail);
    if BuildPrompt(e1) == BuildPrompt(e2) {
      PromptInjective(d, a, e1.fields[QueryKey], e2.fields[QueryKey], Tail);
    }
  }

  /** One result object. */
  datatype Record = Record(id: string, mr: string, dlProfile: string, query: string, expected: string,
                           llm: string, llmAnswer: string, matched: string)

  /** The match flag: Yes when the answers agree after lower-casing and
      stripping, No otherwise. */
  function Match(expected: string, answer: string): string {
    if PyStrip(PyLower(expected)) == PyStrip(PyLower(answer)) then Yes else No
  }

  /** The result for one entry, or None when a key it needs is missing. */
  function RecordOf(entry: Entry, modelName: string, llm: string -> string): Option<Record> {
    var prompt := BuildPrompt(entry);
    if prompt.None? || ExpectedKey !in entry.fields || IdKey !in entry.fields then None
    else
      var answer := llm(prompt.value);
      Some(Record(entry.fields[IdKey], Get(entry.fields, MrKey, ""), Get(entry.fields, ProfileKey, ""),
                  entry.fields[QueryKey], entry.fields[ExpectedKey], modelName, answer,
                  Match(entry.fields[ExpectedKey], answer)))
  }

  /** The results of the entries in order, or None when one of them fails. */
  function Evaluated(data: seq<Entry>, modelName: string, llm: string -> string): Option<seq<Record>> {
    AllResults(data, (e: Entry) => RecordOf(e, modelName, llm))
  }

  /** The loop of evaluate, up to writing the file. */
  method Evaluate(data: seq<Entry>, modelName: string, llm: string -> string) returns (results: Option<seq<Record>>)
    ensures results == Evaluated(data, modelName, llm)
  {
    ghost var f := (e: Entry) => RecordOf(e, modelName, llm);
    var out: seq<Record> := [];
    var i := 0;
    while i < |data|
      invariant 0 <= i <= |data|
      invariant AllResults(data[..i], f) == Some(out)
    {
      var r := EvaluateEntry(data[i], modelName, llm);
      AllResultsStep(data, f, i, out, r);
      if r.None? {
        return None;
      }
      out := out + [r.value];
      i := i + 1;
    }
    assert data[..|data|] == data;
    return Some(out);
  }

  /** The body of the loop: the prompt, the model's answer, the match
      flag and the result object; None where `entry[...]` raises. */
  method EvaluateEntry(entry: Entry, modelName: string, llm: string -> string) returns (r: Option<Record>)
    ensures r == RecordOf(entry, modelName, llm)
  {
    var prompt := BuildPrompt(entry);
    if prompt.None? {
      return None;
    }
    var answer := llm(prompt.value);
    if ExpectedKey !in entry.fields || IdKey !in entry.fields {
      return None;
    }
    var expected := PyStrip(PyLower(entry.fields[ExpectedKey]));
    var predicted := PyStrip(PyLower(answer));
    var matched := if expected == predicted then Yes else No;
    return Some(Record(entry.fields[IdKey], Get(entry.fields, MrKey, ""), Get(entry.fields, ProfileKey, ""),
                       entry.fields[QueryKey], entry.fields[ExpectedKey], modelName, answer, matched));
  }

  /** The run succeeds exactly when every entry does, and then holds one
      result per entry, in input order. */
  lemma EvaluatedRecords(data: seq<Entry>, modelName: string, llm: string -> string)
    ensures Evaluated(data, modelName, llm).Some? <==> forall k :: 0 <= k < |data| ==> RecordOf(data[k], modelName, llm).Some?
    ensures Evaluated(data, modelName, llm).Some? ==>
              var rs := Evaluated(data, modelName, llm).value;
              |rs| == |data| && forall k :: 0 <= k < |data| ==> RecordOf(data[k], modelName, llm) == Some(rs[k])
  {
    AllResultsShape(data, (e: Entry) => RecordOf(e, modelName, llm));
  }

  /** An entry yields a result exactly when it has axioms, a query, an
      expected answer and an id; the result copies the id, query and
      expected answer, and mr and dl_profile or "" in their absence,
      holds the model's answer to the entry's prompt, and matches exactly
      when the normalised answers agree. */
  lemma RecordFields(entry: Entry, modelName: string, llm: string -> string)
    ensures RecordOf(entry, modelName, llm).Some?
            <==> entry.axioms.Some? && QueryKey in entry.fields && ExpectedKey in entry.fields && IdKey in entry.fields
    ensures RecordOf(entry, modelName, llm).Some? ==>
              var r := RecordOf(entry, modelName, llm).value;
              r.id == entry.fields[IdKey] && r.query == entry.fields[QueryKey]
              && r.expected == entry.fields[ExpectedKey] && r.llm == modelName
              && r.mr == Get(entry.fields, MrKey, "") && r.dlProfile == Get(entry.fields, ProfileKey, "")
              && r.llmAnswer == llm(BuildPrompt(entry).value)
              && (r.matched == Yes <==> PyStrip(PyLower(r.expected)) == PyStrip(PyLower(r.llmAnswer)))
              && (r.matched == Yes || r.matched == No)
  {
  }

  /** A run over entries that all have axioms, a query, an expected answer
      and an id succeeds, with one result per entry copying its fields. */
  lemma {:induction false} EvaluatedComplete(data: seq<Entry>, modelName: string, llm: string -> string)
    requires forall k :: 0 <= k < |data| ==>
               (data[k].axioms.Some? && QueryKey in data[k].fields && ExpectedKey in data[k].fields && IdKey in data[k].fields)
    ensures Evaluated(data, modelName, llm).Some?
    ensures var rs := Evaluated(data, modelName, llm).value;
            |rs| == |data|
            && forall k :: 0 <= k < |data| ==>
                 (rs[k].id == data[k].fields[IdKey] && rs[k].query == data[k].fields[QueryKey]
                  && rs[k].expected == data[k].fields[ExpectedKey]
                  && rs[k].dlProfile == Get(data[k].fields, ProfileKey, ""))
  {
    forall k | 0 <= k < |data| ensures RecordOf(data[k], modelName, llm).Some? {
      RecordFields(data[k], modelName, llm);
    }
    EvaluatedRecords(data, modelName, llm);
  }

  // ---------------------------------------------------------------------
  // Summary

  /** The number of results that match. */
  function Correct(results: seq<Record>): (c: nat)
    ensures c <= |results|
  {
    if results == [] then 0
    else Correct(results[..|results| - 1]) + (if results[|results| - 1].matched == Yes then 1 else 0)
  }

  /** The accuracy in percent; zero for no results. */
  function Accuracy(correct: nat, total: nat): real {
    if total > 0 then (correct as real / total as real) * 100.0 else 0.0
  }

  /** The accuracy is a percentage, and it is 100 exactly when there are
      results and all of them match. */
  lemma AccuracyBounds(correct: nat, total: nat)
    requires correct <= total
    ensures 0.0 <= Accuracy(correct, total) <= 100.0
    ensures Accuracy(correct, total) == 100.0 <==> total > 0 && correct == total
  {
    if total > 0 {
      var c, t := correct as real, total as real;
      var f := c / t;
      assert f * t == c;
      if f < 0.0 {
        PositiveProduct(-f, t);
      }
      if f > 1.0 {
        PositiveProduct(f - 1.0, t);
      }
      if f < 1.0 && c == t {
        PositiveProduct(1.0 - f, t);
      }
      assert Accuracy(correct, total) == f * 100.0;
    }
  }

  lemma PositiveProduct(a: real, b: real)
    requires a > 0.0 && b > 0.0
    ensures a * b > 0.0
  {
  }

  predicate IsFalsePositive(r: Record) {
    PyLower(r.expected) == "no" && PyLower(r.llmAnswer) == "yes"
  }

  predicate IsFalseNegative(r: Record) {
    PyLower(r.expected) == "yes" && PyLower(r.llmAnswer) == "no"
  }

  /** The results listed under a heading, in order. */
  function FalsePositives(results: seq<Record>): seq<Record> {
    if results == [] then []
    else
      var prev := FalsePositives(results[..|results| - 1]);
      var r := results[|results| - 1];
      if IsFalsePositive(r) then prev + [r] else prev
  }

  function FalseNegatives(results: seq<Record>): seq<Record> {
    if results == [] then []
    else
      var prev := FalseNegatives(results[..|results| - 1]);
      var r := results[|results| - 1];
      if IsFalseNegative(r) then prev + [r] else prev
  }

  /** The summary of evaluate: total, correct and accuracy, and the two
      loops that list the false positives and false negatives (whose
      printed lines are these results' ids and queries). */
  method Summarize(results: seq<Record>)
    returns (total: nat, correct: nat, accuracy: real, falsePositives: seq<Record>, falseNegatives: seq<Record>)
    ensures total == |results| && correct == Correct(results) && accuracy == Accuracy(correct, total)
    ensures falsePositives == FalsePositives(results) && falseNegatives == FalseNegatives(results)
  {
    total := |results|;
    correct := Correct(results);
    accuracy := if total > 0 then (correct as real / total as real) * 100.0 else 0.0;
    falsePositives := [];
    var i := 0;
    while i < |results|
      invariant 0 <= i <= |results|
      invariant falsePositives == FalsePositives(results[..i])
    {
      assert results[..i + 1][..i] == results[..i];
      var r := results[i];
      if PyLower(r.expected) == "no" && PyLower(r.llmAnswer) == "yes" {
        falsePositives := falsePositives + [r];
      }
      i := i + 1;
    }
    falseNegatives := [];
    i := 0;
    while i < |results|
      invariant 0 <= i <= |results|
      invariant falseNegatives == FalseNegatives(results[..i])
    {
      assert results[..i + 1][..i] == results[..i];
      var r := results[i];
      if PyLower(r.expected) == "yes" && PyLower(r.llmAnswer) == "no" {
        falseNegatives := falseNegatives + [r];
      }
      i := i + 1;
    }
    assert results[..|results|] == results;
  }

  /** A result whose match flag was computed from its own expected answer
      and model answer. */
  predicate Consistent(r: Record) {
    r.matched == Match(r.expected, r.llmAnswer)
  }

  /** Every result of a run is consistent. */
  lemma EvaluatedConsistent(data: seq<Entry>, modelName: string, llm: string -> string)
    requires Evaluated(data, modelName, llm).Some?
    ensures forall r :: r in Evaluated(data, modelName, llm).value ==> Consistent(r)
  {
    EvaluatedRecords(data, modelName, llm);
  }

  /** A listed mistake never has match Yes: lower-cased, its expected
      answer and model answer are "no" and "yes" (or the reverse), and
      stripping leaves both alone. */
  lemma MistakeIsNotMatch(r: Record)
    requires Consistent(r)
    ensures IsFalsePositive(r) || IsFalseNegative(r) ==> r.matched == No
    ensures !(IsFalsePositive(r) && IsFalseNegative(r))
  {
    var e, a := PyLower(r.expected), PyLower(r.llmAnswer);
    if IsFalsePositive(r) {
      assert e == "no" && a == "yes";
      StrippedNo();
      StrippedYes();
      assert PyStrip(e) != PyStrip(a);
    } else if IsFalseNegative(r) {
      assert e == "yes" && a == "no";
      StrippedNo();
      StrippedYes();
      assert PyStrip(e) != PyStrip(a);
    }
  }

  lemma StrippedNo()
    ensures PyStrip("no") == "no"
  {
    var s := "no";
    assert s[0] == 'n' && s[|s| - 1] == 'o';
    PyStripUnpadded(s);
  }

  lemma StrippedYes()
    ensures PyStrip("yes") == "yes"
  {
    var s := "yes";
    assert s[0] == 'y' && s[|s| - 1] == 's';
    PyStripUnpadded(s);
  }

  /** Matches, false positives and false negatives are disjoint, so they
      add up to at most the number of results; and every listed result is
      one of the results. */
  lemma {:induction false} SummaryCounts(results: seq<Record>)
    requires forall r :: r in results ==> Consistent(r)
    ensures Correct(results) + |FalsePositives(results)| + |FalseNegatives(results)| <= |results|
    ensures forall r :: r in FalsePositives(results) ==> r in results && IsFalsePositive(r) && r.matched == No
    ensures forall r :: r in FalseNegatives(results) ==> r in results && IsFalseNegative(r) && r.matched == No
  {
    if results != [] {
      var init := results[..|results| - 1];
      var r := results[|results| - 1];
      assert forall x :: x in init ==> x in results;
      SummaryCounts(init);
      MistakeIsNotMatch(r);
    }
  }
}
