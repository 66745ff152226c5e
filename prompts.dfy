/** Prompts: what the two evaluation scripts share. A benchmark entry as
    the scripts read it from JSON, the description of a DL profile, the
    bulleted axiom list, and the prompt template up to its last line,
    which each script words differently. */
module Prompts {
  import opened Text
  import opened Benchmark

  /** The `axioms` value of an entry: the array of rendered axioms the
      benchmark runner writes, or a string that is used verbatim. */
  datatype AxiomsValue = AxiomList(items: seq<RenderedAxiom>) | AxiomText(text: string)

  /** A JSON entry: its string-valued keys, and its `axioms` value when
      the key is present. */
  datatype Entry = Entry(fields: map<string, string>, axioms: Option<AxiomsValue>)

  /** A loop over the entries that builds one result per entry with `f`
      and ends without results at the first entry `f` fails on (a
      KeyError that nothing catches). */
  function AllResults<R>(data: seq<Entry>, f: Entry -> Option<R>): Option<seq<R>> {
    if data == [] then Some([])
    else
      var prev := AllResults(data[..|data| - 1], f);
      var r := f(data[|data| - 1]);
      if prev.None? || r.None? then None else Some(prev.value + [r.value])
  }

  /** One more entry: its result is appended, or the run fails. */
  lemma AllResultsSnoc<R>(data: seq<Entry>, e: Entry, f: Entry -> Option<R>)
    ensures AllResults(data + [e], f)
            == if AllResults(data, f).None? || f(e).None? then None else Some(AllResults(data, f).value + [f(e).value])
  {
    assert (data + [e])[..|data|] == data;
  }

  /** One step of a loop that builds the run: after the entries before
      `i`, the result of entry `i` either fails the whole run or is
      appended. */
  lemma AllResultsStep<R>(data: seq<Entry>, f: Entry -> Option<R>, i: nat, out: seq<R>, r: Option<R>)
    requires i < |data| && AllResults(data[..i], f) == Some(out) && r == f(data[i])
    ensures r.None? ==> AllResults(data, f).None?
    ensures r.Some? ==> AllResults(data[..i + 1], f) == Some(out + [r.value])
  {
    assert data[..i + 1] == data[..i] + [data[i]];
    AllResultsSnoc(data[..i], data[i], f);
    if r.None? {
      AllResultsFails(data, f, i);
    }
  }

  /** One failing entry makes the whole run fail. */
  lemma {:induction false} AllResultsFails<R>(data: seq<Entry>, f: Entry -> Option<R>, i: nat)
    requires i < |data| && f(data[i]).None?
    ensures AllResults(data, f).None?
    decreases |data|
  {
    if i < |data| - 1 {
      assert data[..|data| - 1][i] == data[i];
      AllResultsFails(data[..|data| - 1], f, i);
    }
  }

  /** The run succeeds exactly when every entry does, and then holds one
      result per entry, in input order. */
  lemma {:induction false} AllResultsShape<R>(data: seq<Entry>, f: Entry -> Option<R>)
    ensures AllResults(data, f).Some? <==> forall k :: 0 <= k < |data| ==> f(data[k]).Some?
    ensures AllResults(data, f).Some? ==>
              var rs := AllResults(data, f).value;
              |rs| == |data| && forall k :: 0 <= k < |data| ==> f(data[k]) == Some(rs[k])
  {
    if data != [] {
      var init := data[..|data| - 1];
      AllResultsShape(init, f);
      assert forall k :: 0 <= k < |init| ==> init[k] == data[k];
    }
  }

  /** dict.get(key, default). */
  function Get(fields: map<string, string>, key: string, default: string): (v: string)
    ensures key in fields ==> v == fields[key]
    ensures key !in fields ==> v == default
  {
    if key in fields then fields[key] else default
  }

  const ElDescription := "Description Logic EL (simple axioms with no role hierarchy extensions or existential quantifiers)"
  const ElhDescription := "Description Logic ELH (extended with role hierarchies and existential quantifiers)"
  const UnknownDescription := "Description Logic (unknown profile)"

  /** The description of a profile: one text each for EL and ELH, and the
      unknown-profile text for every other value. */
  function Describe(profile: string): string {
    if profile == EL then ElDescription
    else if profile == ELH then ElhDescription
    else UnknownDescription
  }

  /** The three descriptions are different texts, so the description
      names the profile: EL, ELH, or neither. */
  lemma DescribeNames(profile: string)
    ensures Describe(profile) == ElDescription <==> profile == EL
    ensures Describe(profile) == ElhDescription <==> profile == ELH
    ensures Describe(profile) == UnknownDescription <==> profile != EL && profile != ELH
  {
    assert |ElDescription| != |ElhDescription| && |ElDescription| != |UnknownDescription|
        && |ElhDescription| != |UnknownDescription|;
  }

  /** "\n".join(lines). */
  function JoinLines(lines: seq<string>): string {
    if lines == [] then ""
    else if |lines| == 1 then lines[0]
    else JoinLines(lines[..|lines| - 1]) + "\n" + lines[|lines| - 1]
  }

  /** s.split("\n"): the pieces between the line breaks, one more than
      there are breaks. */
  function SplitLines(s: string): (r: seq<string>)
    ensures |r| >= 1
  {
    if s == [] then [""]
    else
      var prev := SplitLines(s[..|s| - 1]);
      var c := s[|s| - 1];
      if c == '\n' then prev + [""]
      else prev[..|prev| - 1] + [prev[|prev| - 1] + [c]]
  }

  /** One more character: a break opens a new piece, anything else
      extends the last one. */
  lemma SplitSnoc(s: string, c: char)
    ensures var p := SplitLines(s);
            SplitLines(s + [c]) == if c == '\n' then p + [""] else p[..|p| - 1] + [p[|p| - 1] + [c]]
  {
    assert (s + [c])[..|s|] == s;
  }

  /** Appending text without a line break extends the last piece. */
  lemma {:induction false} SplitAppendPlain(a: string, b: string)
    requires '\n' !in b
    ensures var p := SplitLines(a);
            SplitLines(a + b) == p[..|p| - 1] + [p[|p| - 1] + b]
    decreases |b|
  {
    var p := SplitLines(a);
    var n := |p|;
    if b == [] {
      assert a + b == a;
      assert p[n - 1] + b == p[n - 1];
      assert p[..n - 1] + [p[n - 1]] == p;
    } else {
      var init := b[..|b| - 1];
      var c := b[|b| - 1];
      assert b == init + [c];
      assert '\n' !in init;
      SplitAppendPlain(a, init);
      var prev := p[..n - 1] + [p[n - 1] + init];
      assert SplitLines(a + init) == prev;
      assert c != '\n';
      SplitSnoc(a + init, c);
      assert prev[..|prev| - 1] == p[..n - 1];
      assert prev[|prev| - 1] + [c] == p[n - 1] + b;
      calc {
        SplitLines(a + b);
        { assert a + b == (a + init) + [c]; }
        SplitLines((a + init) + [c]);
        prev[..|prev| - 1] + [prev[|prev| - 1] + [c]];
        p[..n - 1] + [p[n - 1] + b];
      }
    }
  }

  /** Splitting undoes the join when no line holds a break of its own and
      there is at least one line. */
  lemma {:induction false} SplitJoin(lines: seq<string>)
    requires |lines| >= 1
    requires forall k :: 0 <= k < |lines| ==> '\n' !in lines[k]
    ensures SplitLines(JoinLines(lines)) == lines
  {
    if |lines| == 1 {
      SplitAppendPlain([], lines[0]);
      assert [] + lines[0] == lines[0];
      assert [""][..0] + ["" + lines[0]] == lines;
    } else {
      var init := lines[..|lines| - 1];
      SplitJoin(init);
      SplitJoinStep(init, lines[|lines| - 1]);
      assert init + [lines[|lines| - 1]] == lines;
    }
  }

  lemma SplitJoinStep(init: seq<string>, last: string)
    requires |init| >= 1 && SplitLines(JoinLines(init)) == init && '\n' !in last
    ensures SplitLines(JoinLines(init + [last])) == init + [last]
  {
    var lines := init + [last];
    assert lines[..|lines| - 1] == init;
    var j := JoinLines(init);
    assert JoinLines(lines) == j + "\n" + last;
    SplitSnoc(j, '\n');
    var p := SplitLines(j + "\n");
    assert p == init + [""];
    SplitAppendPlain(j + "\n", last);
    assert p[..|p| - 1] == init;
    assert p[|p| - 1] + last == last;
  }

  /** The bullet line of each axiom: `- ` and its symbolic text. */
  function Bullets(items: seq<RenderedAxiom>): (r: seq<string>)
    ensures |r| == |items|
    ensures forall k :: 0 <= k < |items| ==> r[k] == "- " + items[k].symbolic
  {
    seq(|items|, k requires 0 <= k < |items| => "- " + items[k].symbolic)
  }

  /** The axiom text of the prompt: the bullet lines one per line, or the
      string itself. */
  function AxiomsText(v: AxiomsValue): string {
    match v
    case AxiomText(t) => t
    case AxiomList(items) => JoinLines(Bullets(items))
  }

  /** The axiom text of a non-empty list reads back, line by line, as the
      symbolic texts in order, when none of them spans lines. */
  lemma AxiomLines(items: seq<RenderedAxiom>)
    requires |items| >= 1
    requires forall k :: 0 <= k < |items| ==> '\n' !in items[k].symbolic
    ensures var lines := SplitLines(AxiomsText(AxiomList(items)));
            |lines| == |items|
            && forall k :: 0 <= k < |items| ==> lines[k] == "- " + items[k].symbolic
  {
    var b := Bullets(items);
    forall k, i | 0 <= k < |b| && 0 <= i < |b[k]| ensures b[k][i] != '\n' {
      if i >= 2 {
        assert b[k][i] == items[k].symbolic[i - 2];
      }
    }
    SplitJoin(b);
  }

  const Head := "Given the following logical axioms written in "
  const Question := "\n\nAnswer the following question as truthfully as possible:\n"

  /** The prompt template of both scripts; `tail` is its last line. */
  function PromptWith(description: string, axiomsText: string, query: string, tail: string): string {
    Head + description + ":\n\n" + axiomsText + Question + query + "\n\n" + tail
  }

  /** Where the parts sit in the prompt: the description right after the
      opening words, the query just before the blank line and the last
      line, which close it. */
  lemma PromptLayout(description: string, axiomsText: string, query: string, tail: string)
    ensures var p := PromptWith(description, axiomsText, query, tail);
            var q := |p| - |tail| - 2;
            |p| == |Head| + |description| + 3 + |axiomsText| + |Question| + |query| + 2 + |tail|
            && p[..|Head|] == Head
            && p[|Head|..|Head| + |description|] == description
            && p[|Head| + |description| + 3..|Head| + |description| + 3 + |axiomsText|] == axiomsText
            && p[q - |query|..q] == query
            && p[q..q + 2] == "\n\n"
            && p[|p| - |tail|..] == tail
  {
    var a := Head + description + ":\n\n" + axiomsText + Question;
    var p := PromptWith(description, axiomsText, query, tail);
    assert p == a + (query + ("\n\n" + tail));
    assert p[|a|..|a| + |query|] == query;
  }

  /** Prompts with the same description and axioms differ exactly when
      their queries or last lines do. */
  lemma PromptInjective(description: string, axiomsText: string, q1: string, q2: string, tail: string)
    requires PromptWith(description, axiomsText, q1, tail) == PromptWith(description, axiomsText, q2, tail)
    ensures q1 == q2
  {
    PromptLayout(description, axiomsText, q1, tail);
    PromptLayout(description, axiomsText, q2, tail);
  }
}
