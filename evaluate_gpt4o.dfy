/** EvaluateGpt4o: the single-model evaluation script. It builds the same
    prompt as the multi-model script except for its last line, but reads
    `dl_profile` and `mr` with `entry[...]`, so an entry without them ends
    the run (KeyError) like one without axioms, query, id or expected
    answer. The model is the parameter `gpt`, a function from prompt to
    answer (the client already strips it; a failed call answers "Error"). */
module EvaluateGpt4o {
  import opened Text
  import opened Benchmark
  import opened Prompts

  const Tail := "Reply only with \"Yes\" or \"No\" without explanation."

  /** build_prompt: the axioms, the profile and the query are required. */
  function BuildPrompt(entry: Entry): (r: Option<string>)
    ensures r.Some? <==> entry.axioms.Some? && ProfileKey in entry.fields && QueryKey in entry.fields
  {
    if entry.axioms.None? || ProfileKey !in entry.fields || QueryKey !in entry.fields then None
    else
      var description := Describe(entry.fields[ProfileKey]);
      Some(PromptWith(description, AxiomsText(entry.axioms.value), entry.fields[QueryKey], Tail))
  }

  /** The prompt names the entry's own profile: the EL text for EL, the ELH
      text for ELH, the unknown-profile text for any other label. */
  lemma PromptDescribesProfile(entry: Entry)
    requires BuildPrompt(entry).Some?
    ensures var p := BuildPrompt(entry).value;
            var d := Describe(entry.fields[ProfileKey]);
            p[|Head|..|Head| + |d|] == d
            && (d == ElDescription <==> entry.fields[ProfileKey] == EL)
            && (d == ElhDescription <==> entry.fields[ProfileKey] == ELH)
  {
    var d := Describe(entry.fields[ProfileKey]);
    PromptLayout(d, AxiomsText(entry.axioms.value), entry.fields[QueryKey], Tail);
    DescribeNames(entry.fields[ProfileKey]);
  }

  /** One result object. */
  datatype Record = Record(id: string, mr: string, dlProfile: string, query: string, expected: string,
                           gptAnswer: string, matched: string)

  /** The match flag: Yes when the answers agree after stripping and
      lower-casing, No otherwise. */
  function Match(expected: string, answer: string): string {
    if PyLower(PyStrip(answer)) == PyLower(PyStrip(expected)) then Yes else No
  }

  /** The result for one entry, or None when a key it needs is missing. */
  function RecordOf(entry: Entry, gpt: string -> string): Option<Record> {
    var prompt := BuildPrompt(entry);
    if prompt.None? || ExpectedKey !in entry.fields || IdKey !in entry.fields || MrKey !in entry.fields then None
    else
      var answer := gpt(prompt.value);
      Some(Record(entry.fields[IdKey], entry.fields[MrKey], entry.fields[ProfileKey], entry.fields[QueryKey],
                  entry.fields[ExpectedKey], answer, Match(entry.fields[ExpectedKey], answer)))
  }

  /** The results of the entries in order, or None when one of them fails. */
  function Evaluated(data: seq<Entry>, gpt: string -> string): Option<seq<Record>> {
    AllResults(data, (e: Entry) => RecordOf(e, gpt))
  }

  /** The loop of evaluate, up to writing the file. */
  method Evaluate(data: seq<Entry>, gpt: string -> string) returns (results: Option<seq<Record>>)
    ensures results == Evaluated(data, gpt)
  {
    ghost var f := (e: Entry) => RecordOf(e, gpt);
    var out: seq<Record> := [];
    var i := 0;
    while i < |data|
      invariant 0 <= i <= |data|
      invariant AllResults(data[..i], f) == Some(out)
    {
      var r := EvaluateEntry(data[i], gpt);
      AllResultsStep(data, f, i, out, r);
      if r.None? {
        return None;
      }
      out := out + [r.value];
      i := i + 1;
    }
    assert data[..|data|] == data;
    return Some(out);
  }

  /** The body of the loop: the prompt, the answer, the match flag set to
      No and raised to Yes on agreement, and the result object. */
  method EvaluateEntry(entry: Entry, gpt: string -> string) returns (r: Option<Record>)
    ensures r == RecordOf(entry, gpt)
  {
    var prompt := BuildPrompt(entry);
    if prompt.None? {
      return None;
    }
    var answer := gpt(prompt.value);
    if ExpectedKey !in entry.fields {
      return None;
    }
    var matched := No;
    if PyLower(PyStrip(answer)) == PyLower(PyStrip(entry.fields[ExpectedKey])) {
      matched := Yes;
    }
    if IdKey !in entry.fields || MrKey !in entry.fields {
      return None;
    }
    var fs := entry.fields;
    return Some(Record(fs[IdKey], fs[MrKey], fs[ProfileKey], fs[QueryKey], fs[ExpectedKey], answer, matched));
  }

  /** The run succeeds exactly when every entry does, and then holds one
      result per entry, in input order. */
  lemma EvaluatedRecords(data: seq<Entry>, gpt: string -> string)
    ensures Evaluated(data, gpt).Some? <==> forall k :: 0 <= k < |data| ==> RecordOf(data[k], gpt).Some?
    ensures Evaluated(data, gpt).Some? ==>
              var rs := Evaluated(data, gpt).value;
              |rs| == |data| && forall k :: 0 <= k < |data| ==> RecordOf(data[k], gpt) == Some(rs[k])
  {
    AllResultsShape(data, (e: Entry) => RecordOf(e, gpt));
  }

  /** An entry yields a result exactly when it has axioms and all six keys
      the script reads; the result copies the five fields unchanged, holds
      the answer to the entry's prompt, and matches exactly when the
      normalised answers agree. */
  lemma RecordFields(entry: Entry, gpt: string -> string)
    ensures RecordOf(entry, gpt).Some?
            <==> entry.axioms.Some? && ProfileKey in entry.fields && QueryKey in entry.fields
                 && ExpectedKey in entry.fields && IdKey in entry.fields && MrKey in entry.fields
    ensures RecordOf(entry, gpt).Some? ==>
              var r := RecordOf(entry, gpt).value;
              var fs := entry.fields;
              r.id == fs[IdKey] && r.mr == fs[MrKey] && r.dlProfile == fs[ProfileKey]
              && r.query == fs[QueryKey] && r.expected == fs[ExpectedKey]
              && r.gptAnswer == gpt(BuildPrompt(entry).value)
              && (r.matched == Yes <==> PyLower(PyStrip(r.gptAnswer)) == PyLower(PyStrip(r.expected)))
              && (r.matched == Yes || r.matched == No)
  {
  }

  /** An entry without an `mr` key ends the run, however good the rest of
      the entry is. */
  lemma MissingMrFails(data: seq<Entry>, gpt: string -> string, i: nat)
    requires i < |data| && MrKey !in data[i].fields
    ensures Evaluated(data, gpt).None?
  {
    AllResultsFails(data, (e: Entry) => RecordOf(e, gpt), i);
  }
}
