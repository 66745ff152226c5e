# Benchmark construction and profile extension for DL reasoning

A Dafny model of the pipeline that builds a description-logic reasoning benchmark for language models from an OWL ontology. The pipeline has these stages:

- **Grouping.** `AxiomGrouper` groups the SubClassOf axioms by their named subclass.
- **Questions.** `QueryGenerator` turns the first axiom of the form `A ⊑ ∃R.C` in a group (the *key axiom*) into the question "Does every A have R.C?".
- **Rendering.** `AxiomFormatter` renders each axiom into a *symbolic* text and a *functional* text.
- **Assembly.** `BenchmarkRunner` turns every group that has a key axiom into one EL test case, with the id `test_N`, the question, and the reasoner's Yes/No verdict on the key axiom.
- **Extension.** Two programs derive ELH test cases from the EL ones:
  - `ELHExtender` finds the roles of the `∃r.` patterns in the symbolic texts and appends one `r ⊑ superOfR` axiom per role.
  - The earlier `extender_draft.java` does the same only for the roles of a fixed hierarchy map. It appends to the test case's own axiom list in place.
- **Evaluation.** Two scripts ask a language model each test case's question and record whether the answer matches the expected one:
  - `scripts/evaluate_LLMs.py` serves several models and prints accuracy, false positives and false negatives;
  - `target/classes/evaluate_gpt4o.py` serves GPT-4o only.

## How the model is laid out

There is one module per source file. `Text`, `Owl`, `Benchmark` and `Prompts` are shared definitions; `Pipeline` holds the lemmas that connect one stage to the next.

- **Pure operations are functions with lemmas.** This covers the formatter, the question text, paraphrasing, the prompt builders and the per-test-case extension.
- **Loops in the source are methods with loop invariants**, each proved equal to a specification function. These are:
  - `GroupBySubject`, `GetQueryAxiom`, `GenerateQuery`, `RemoveQueryAxiom`;
  - the runner's `Assemble`;
  - the extender's `CollectRoles`, `AppendHierarchy` and `Extend`;
  - the draft's `HighestId`, `ScanAxioms`, `ExtendEach` and `Run`;
  - both scripts' `Evaluate` and the summary loop `Summarize`.
- **The draft's JSON objects are a class.** The draft changes each input object's axiom list in place, so `ExtenderDraft.Entry` is a class with `fields` and `axioms` fields, and `Run` states the new state of every entry.

### Two properties of the code worth knowing

1. **Extension is not idempotent.**
   - Running the extender on its own output appends every hierarchy axiom again (`ELHExtender.SecondPassRepeats`).
   - Step 1 (`ELHExtender.java:39-42`) copies every input axiom, the earlier hierarchy axioms included, and scans the original `∃` axioms for roles once more.
   - Step 2 (`ELHExtender.java:56-63`) appends one hierarchy axiom per role found and does not look for one that is already there.
   - `ELHExtender.SecondPassRepeats` also states that a second pass changes every test case that had a role.
   - What does hold is that the synthesized axioms contribute no role of their own: `ELHExtender.HierarchyAxiomHasNoRole` and `ELHExtender.FoundRolesAppendNone`.
2. **The GPT-4o script cannot read the runner's output.**
   - `BenchmarkRunner.java:68` has the `mr` field commented out.
   - `evaluate_gpt4o.py:86` reads `entry["mr"]` without a default.
   - So that script stops with a KeyError on the first test case the runner writes (`Pipeline.RunnerOutputLacksMr`). The multi-model script reads `mr` with a default and evaluates every such test case (`Pipeline.RunnerOutputEvaluates`).
   - The draft extender writes `mr` (`extender_draft.java:88`), so its output satisfies both scripts.
   - It is not known which script the runner's output was meant for, so the model treats neither script as wrong.

### Parameters stand for what the model cannot see

| parameter | stands for |
|---|---|
| `functional: Axiom -> string` | OWLAPI's `OWLAxiom.toString()` |
| `entailed: Axiom -> bool` | `ReasoningValidator.isEntailed` on the loaded ontology |
| `llm` / `gpt: string -> string` | the model clients, from prompt to already-stripped answer |
| `groups: seq<seq<Axiom>>` | the runner's groups, in the `HashMap`'s iteration order |

## Model

| member | source | states |
|---|---|---|
| Text.IndexOf | src/main/java/org/example/ELHExtender.java:46-47 | `indexOf(c, from)`: -1 when `c` does not occur from `from` on, otherwise the first position at or after `from` that holds `c` |
| Text.TrimStart | src/main/java/org/example/ELHExtender.java:49 | drops exactly the leading characters `<= ' '`, as Java's `trim` does |
| Text.TrimEnd | src/main/java/org/example/ELHExtender.java:49 | drops exactly the trailing characters `<= ' '` |
| Text.TrimTrimmed | src/main/java/org/example/ELHExtender.java:49 | `trim` leaves text with no blank at either end unchanged |
| Text.ToUpper | src/main/java/org/example/ELHExtender.java:90 | upper-cases ASCII letters and leaves other characters unchanged |
| Text.NatToStringDigits | src/main/java/org/example/BenchmarkRunner.java:67 | the decimal text of `n` is all digits and reads back as `n` |
| Text.NatToStringInjective | src/main/java/org/example/BenchmarkRunner.java:67 | different counters give different decimal texts |
| Text.ParseInt | extender_draft.java:23 | `Integer.parseInt` succeeds only with a value in the 32-bit range |
| Text.ParseNatToString | extender_draft.java:23 | `parseInt` reads back the decimal text of every `n <= 2^31-1` |
| Text.PyLower | scripts/evaluate_LLMs.py:101-102 | `lower()` keeps the length and maps every character |
| Text.PyStripStart | scripts/evaluate_LLMs.py:101-102 | drops exactly the leading Python whitespace |
| Text.PyStripEnd | scripts/evaluate_LLMs.py:101-102 | drops exactly the trailing Python whitespace |
| Text.PyStripUnpadded | scripts/evaluate_LLMs.py:101-102 | `strip()` leaves text without whitespace at its ends unchanged |
| Text.LowerStripCommute | scripts/evaluate_LLMs.py:101-102 | `lower().strip()` and `strip().lower()` give the same text |
| Text.ReplaceConcat | src/main/java/org/example/QueryGenerator.java:91-92 | `replace` on a concatenation is the concatenation of the two rewrites when no occurrence straddles the joint |
| Text.ReplaceAround | src/main/java/org/example/QueryGenerator.java:91-92 | a character that `from` lacks splits `replace` into a rewrite of each side |
| Text.ReplaceJoined | src/main/java/org/example/QueryGenerator.java:92 | four parts joined by a character that `from` lacks are each rewritten on their own |
| Text.ReplaceFramed | src/main/java/org/example/QueryGenerator.java:91 | a part framed by a character that neither starts nor ends `from` is rewritten inside the frame |
| Text.ReplaceOpening | src/main/java/org/example/QueryGenerator.java:91 | a text that opens with `from` has the opening replaced, while the framed name and the tail are rewritten on their own |
| AxiomFormatter.ToSymbolicString | src/main/java/org/example/AxiomFormatter.java:40-50 | unsupported axiom kinds fall back to the functional text; the three supported kinds give non-empty text |
| AxiomFormatter.FormatAxiom | src/main/java/org/example/AxiomFormatter.java:21-31 | the functional entry is the axiom's own text; the symbolic entry repeats it only for unsupported kinds |
| AxiomFormatter.FormatAll | src/main/java/org/example/BenchmarkRunner.java:61-63 | one rendered axiom per axiom, in the same order |
| AxiomFormatter.ClassNameAvoids | src/main/java/org/example/AxiomFormatter.java:114-117 | a class name, or the `AnonymousClass` placeholder, holds no `∃` when the name does not |
| AxiomFormatter.PropNameAvoids | src/main/java/org/example/AxiomFormatter.java:123-126 | a property name, or the `AnonymousProperty` placeholder, holds no `∃` |
| AxiomFormatter.IndividualNameAvoids | src/main/java/org/example/AxiomFormatter.java:132-137 | an individual name, or `AnonymousIndividual`, holds no `∃` |
| AxiomFormatter.ExistsGlyphIffKey | src/main/java/org/example/AxiomFormatter.java:56-107 | for names without `∃`, the symbolic text holds `∃` exactly when the axiom is `A ⊑ ∃R.C` |
| AxiomFormatter.InverseRoleUnmarked | src/main/java/org/example/AxiomFormatter.java:78-83 | an assertion over an inverse property renders it as `AnonymousProperty`, with no `^` anywhere (unlike the question text) |
| AxiomFormatter.FormatsNamedSubClass | src/main/java/org/example/AxiomFormatter.java:56-61 | `A ⊑ B` renders as `A ⊑ B` |
| QueryGenerator.RoleLabel | src/main/java/org/example/QueryGenerator.java:43-47 | a named role is its name; an inverse role is its base's name followed by `^-1`, and `anonymousProperty^-1` when the base is itself an inverse |
| QueryGenerator.QuestionIsNotFallback | src/main/java/org/example/QueryGenerator.java:50-56 | the question of a key axiom is never the fallback text |
| QueryGenerator.KeyAxiom | src/main/java/org/example/QueryGenerator.java:69-79 | what is found is a SubClassOf axiom with an existential superclass |
| QueryGenerator.KeyAxiomFirst | src/main/java/org/example/QueryGenerator.java:69-79 | none exactly when no axiom is a key axiom; otherwise the first key axiom of the list |
| QueryGenerator.QueryOf | src/main/java/org/example/QueryGenerator.java:26-57 | the fallback text exactly when the group has no key axiom |
| QueryGenerator.GetQueryAxiom | src/main/java/org/example/QueryGenerator.java:69-79 | the loop returns null exactly when no axiom qualifies, otherwise the first qualifying axiom |
| QueryGenerator.GenerateQuery | src/main/java/org/example/QueryGenerator.java:26-57 | the loop returns the question of the first key axiom, and the fallback exactly when there is none |
| QueryGenerator.QueryOfSingle | src/main/java/org/example/QueryGenerator.java:50-51 | a one-axiom group asks that axiom's question |
| QueryGenerator.QuestionExample | src/main/java/org/example/QueryGenerator.java:50-51 | `A ⊑ ∃hasPart.B` asks "Does every A have hasPart.B?" |
| QueryGenerator.InverseQuestionExample | src/main/java/org/example/QueryGenerator.java:44-51 | `A ⊑ ∃hasPart⁻.B` asks "Does every A have hasPart^-1.B?" |
| QueryGenerator.ParaphraseUnchanged | src/main/java/org/example/QueryGenerator.java:90-93 | text with neither "Does every" nor "have" is left unchanged |
| QueryGenerator.ParaphraseAround | src/main/java/org/example/QueryGenerator.java:90-93 | a character in neither phrase splits the paraphrase: each side is paraphrased on its own |
| QueryGenerator.OpeningRewrite | src/main/java/org/example/QueryGenerator.java:91 | the first `replace` turns the opening "Does every" into "Is it true that all" and rewrites the name and the rest each on its own |
| QueryGenerator.VerbRewrite | src/main/java/org/example/QueryGenerator.java:92 | the second `replace` turns the verb "have" into "contain", leaves the new opening alone and rewrites the name and the rest each on its own |
| QueryGenerator.ParaphraseQuestionText | src/main/java/org/example/QueryGenerator.java:90-93 | "Does every a have t" becomes "Is it true that all a' contain t'", where a' and t' are the paraphrases of `a` and `t`, so a phrase inside a name is rewritten too |
| QueryGenerator.ParaphraseTail | src/main/java/org/example/QueryGenerator.java:90-93 | the role and the filler of a question are paraphrased on their own |
| QueryGenerator.ParaphraseQuestion | src/main/java/org/example/QueryGenerator.java:90-93 | the paraphrase of any key axiom's question, in terms of the paraphrases of its class name, role label and filler |
| QueryGenerator.ParaphraseExample | src/main/java/org/example/QueryGenerator.java:90-93 | "Does every A have hasPart.B?" becomes "Is it true that all A contain hasPart.B?" |
| QueryGenerator.ParaphraseMargheritaExample | src/main/java/org/example/QueryGenerator.java:90-93 | the question about `Margherita ⊑ ∃hasTopping.Mozzarella` keeps its names: only the two phrases change |
| QueryGenerator.ParaphraseInsideName | src/main/java/org/example/QueryGenerator.java:90-93 | "have" inside a name is rewritten too: "Does every Behaver have x?" becomes "Is it true that all Becontainr contain x?" |
| QueryGenerator.WithoutCount | src/main/java/org/example/QueryGenerator.java:104-111 | the removed axiom no longer occurs; every other axiom keeps its multiplicity; the length drops by the number of copies removed |
| QueryGenerator.WithoutSnoc | src/main/java/org/example/QueryGenerator.java:106-110 | one more axiom is kept exactly when it is not the one removed |
| QueryGenerator.WithoutConcat | src/main/java/org/example/QueryGenerator.java:106-110 | removing from a concatenation removes from each part, keeping the order |
| QueryGenerator.RemoveQueryAxiom | src/main/java/org/example/QueryGenerator.java:104-112 | the loop keeps the axioms unequal to `toRemove`, in order |
| AxiomGrouper.SubjectOf | src/main/java/org/example/AxiomGrouper.java:29-36 | a key exactly for SubClassOf axioms with a named subclass, and then it is that name |
| AxiomGrouper.GroupBySubject | src/main/java/org/example/AxiomGrouper.java:23-43 | the loop builds the map of buckets, created on first use and appended to |
| AxiomGrouper.GroupedBuckets | src/main/java/org/example/AxiomGrouper.java:27-37 | keys are exactly the named subclasses that occur; each bucket is the subsequence of axioms with that subclass |
| AxiomGrouper.BucketEmpty | src/main/java/org/example/AxiomGrouper.java:34-37 | a subject no axiom names has an empty bucket |
| AxiomGrouper.BucketContents | src/main/java/org/example/AxiomGrouper.java:27-37 | a bucket holds each axiom of its subject as often as the input does, and nothing else |
| AxiomGrouper.BucketsNonEmpty | src/main/java/org/example/AxiomGrouper.java:37 | no bucket in the map is empty |
| AxiomGrouper.BucketMembers | src/main/java/org/example/AxiomGrouper.java:29-37 | every member of the bucket for `k` is a SubClassOf axiom whose named subclass is `k` |
| AxiomGrouper.GroupedEmpty | src/main/java/org/example/AxiomGrouper.java:38-41 | with no qualifying axiom the map is empty |
| AxiomGrouper.GroupedTotalSize | src/main/java/org/example/AxiomGrouper.java:27-37 | the buckets together hold exactly as many axioms as qualify, so none is lost or duplicated |
| AxiomGrouper.GroupedSnoc | src/main/java/org/example/AxiomGrouper.java:37 | one more axiom is appended to its subject's bucket (created if absent) or ignored |
| AxiomGrouper.GroupsMargherita | src/main/java/org/example/AxiomGrouper.java:34-37 | two axioms about Margherita land in one bucket, in order |
| AxiomGrouper.IgnoresAnonymousSubclass | src/main/java/org/example/AxiomGrouper.java:38-41 | an axiom with an anonymous subclass makes no group |
| BenchmarkRunner.Assemble | src/main/java/org/example/BenchmarkRunner.java:43-75 | the group loop produces the specified test cases, skipping groups without a key axiom and numbering the rest from 1 |
| BenchmarkRunner.BuildCase | src/main/java/org/example/BenchmarkRunner.java:58-72 | the loop body builds the test case of its group and id counter |
| BenchmarkRunner.AssembledStep | src/main/java/org/example/BenchmarkRunner.java:53-55 | a group without a key axiom is skipped and uses no id; any other group gets the next id |
| BenchmarkRunner.EmittedGroups | src/main/java/org/example/BenchmarkRunner.java:53-55 | the groups kept are exactly those with a key axiom, so there are at most as many as there are groups |
| BenchmarkRunner.AssembledLength | src/main/java/org/example/BenchmarkRunner.java:55-74 | one test case per group that is kept |
| BenchmarkRunner.AssembledAt | src/main/java/org/example/BenchmarkRunner.java:45-74 | the j-th test case comes from the j-th kept group, numbered `next + j` |
| BenchmarkRunner.CaseFields | src/main/java/org/example/BenchmarkRunner.java:50-72 | exactly the keys id, dl_profile, query and expected; the profile is EL; the query is the group's own question; expected is Yes exactly when the reasoner entails the key axiom; the axioms are formatted one for one |
| BenchmarkRunner.TestIdInjective | src/main/java/org/example/BenchmarkRunner.java:67 | different counters give different ids |
| BenchmarkRunner.AssembledIds | src/main/java/org/example/BenchmarkRunner.java:43-67 | the ids are `test_1`, `test_2`, ... in order, and pairwise distinct |
| BenchmarkRunner.AssembledIdsWith | src/main/java/org/example/BenchmarkRunner.java:55-67 | the j-th test case is named by the number j + 1, whatever naming is used |
| BenchmarkRunner.ConsecutiveIdsDistinct | src/main/java/org/example/BenchmarkRunner.java:67 | consecutive `test_N` ids never collide |
| BenchmarkRunner.CaseId | src/main/java/org/example/BenchmarkRunner.java:67 | a test case carries the id of its number |
| ELHExtender.Capitalize | src/main/java/org/example/ELHExtender.java:89-91 | same length; the first character upper-cased and the rest unchanged; the empty role stays empty |
| ELHExtender.RoleOfSpan | src/main/java/org/example/ELHExtender.java:45-50 | a role is found exactly when a `.` follows the first `∃` with at least one character between them; it is that text trimmed |
| ELHExtender.RoleSpanFound | src/main/java/org/example/ELHExtender.java:46-48 | `indexOf` finds just that `∃` and that `.` |
| ELHExtender.RoleOfMarked | src/main/java/org/example/ELHExtender.java:45-50 | after a prefix without `∃`, the role `r` of `∃r.` reads back unchanged when it has no `.` and no blank at either end |
| ELHExtender.RoleOfAt | src/main/java/org/example/ELHExtender.java:46-49 | the role is the trimmed text between `start` and `dot`, and none when `dot <= start` |
| ELHExtender.RoleOfAbsent | src/main/java/org/example/ELHExtender.java:45 | text without `∃` has no role |
| ELHExtender.ExtractedSnoc | src/main/java/org/example/ELHExtender.java:39-52 | one more axiom adds its own role, if any, to the roles found |
| ELHExtender.FoundRoles | src/main/java/org/example/ELHExtender.java:35-50 | the roles found hold no duplicate, as in a `HashSet` |
| ELHExtender.FoundRolesFor | src/main/java/org/example/ELHExtender.java:39-53 | a role is found exactly when some axiom's symbolic text yields it |
| ELHExtender.FoundRolesSnoc | src/main/java/org/example/ELHExtender.java:50 | one more axiom appends its role only when the role is new |
| ELHExtender.FoundRolesCoverRoleSet | src/main/java/org/example/ELHExtender.java:35-50 | the roles found, as a set, are the set of the axioms' roles |
| ELHExtender.Hierarchy | src/main/java/org/example/ELHExtender.java:56-63 | one hierarchy axiom per role, in the same order |
| ELHExtender.HierarchySnoc | src/main/java/org/example/ELHExtender.java:56-63 | one more role appends its own hierarchy axiom |
| ELHExtender.HierarchyAxiomInjective | src/main/java/org/example/ELHExtender.java:57-62 | different roles give different hierarchy axioms |
| ELHExtender.HierarchyNoDup | src/main/java/org/example/ELHExtender.java:56-63 | distinct roles give distinct hierarchy axioms |
| ELHExtender.ExtendedKeepsAxioms | src/main/java/org/example/ELHExtender.java:39-42 | the original axioms come first, unchanged and in order |
| ELHExtender.ExtendedCount | src/main/java/org/example/ELHExtender.java:55-65 | exactly one axiom is added per distinct role |
| ELHExtender.HierarchyMembers | src/main/java/org/example/ELHExtender.java:56-63 | the hierarchy axioms are exactly those of the roles in the set |
| ELHExtender.ExtendedAppendsHierarchy | src/main/java/org/example/ELHExtender.java:55-63 | the added axioms are exactly the hierarchy axioms of the roles found |
| ELHExtender.ExtendedAppendsEachOnce | src/main/java/org/example/ELHExtender.java:35-63 | no hierarchy axiom is added twice |
| ELHExtender.ExtendedFields | src/main/java/org/example/ELHExtender.java:64-70 | every other field is copied unchanged; dl_profile is ELH exactly when a role was found, EL otherwise |
| ELHExtender.RelabelledProfile | src/main/java/org/example/ELHExtender.java:64-70 | the flag set by the hierarchy loop means "some role was found" |
| ELHExtender.CollectRole | src/main/java/org/example/ELHExtender.java:45-51 | the scan of one symbolic text adds its role when new |
| ELHExtender.CollectRoles | src/main/java/org/example/ELHExtender.java:39-53 | the scan loop copies the axioms and collects the roles found |
| ELHExtender.AppendHierarchy | src/main/java/org/example/ELHExtender.java:55-65 | the hierarchy loop appends one axiom per role and sets `isELH` exactly when there was a role |
| ELHExtender.ExtendCase | src/main/java/org/example/ELHExtender.java:32-72 | the per-test-case body produces the extended test case |
| ELHExtender.Extend | src/main/java/org/example/ELHExtender.java:31-73 | the main loop extends every test case, one output per input, in order |
| ELHExtender.HierarchyAxiomHasNoRole | src/main/java/org/example/ELHExtender.java:45-58 | a synthesized `r ⊑ superOfR` axiom yields no role itself |
| ELHExtender.FoundRolesAppendNone | src/main/java/org/example/ELHExtender.java:39-53 | axioms that yield no role change nothing in what is found |
| ELHExtender.ExtendedSingle | src/main/java/org/example/ELHExtender.java:39-70 | a one-axiom test case with role `r` gets exactly `r`'s hierarchy axiom and the ELH profile |
| ELHExtender.SecondPassRepeats | src/main/java/org/example/ELHExtender.java:39-68 | a second pass appends the same hierarchy axioms again, so it changes every test case that had a role |
| ExtenderDraft.Entry.constructor | extender_draft.java:41-42 | an entry holds the given fields and axiom list |
| ExtenderDraft.MaxId | extender_draft.java:19-27 | defined exactly when every id parses; then at least 0, at least every id, and equal to one of them when positive |
| ExtenderDraft.HighestId | extender_draft.java:19-27 | the scan loop computes that maximum or stops at the first id that fails |
| ExtenderDraft.MaxIdHasIds | extender_draft.java:22 | a successful scan means every entry has an id |
| ExtenderDraft.MaxIdFails | extender_draft.java:22-23 | one id that fails to parse fails the scan |
| ExtenderDraft.MaxIdConsecutive | extender_draft.java:19-27 | ids numbered 1 to n give the maximum n |
| ExtenderDraft.IdNumberOfRunnerId | extender_draft.java:23 | the runner's `test_N` reads back as N |
| ExtenderDraft.AddedForSnoc | extender_draft.java:47-64 | one more axiom adds its own hierarchy text, if any |
| ExtenderDraft.ExtraRoleAxioms | extender_draft.java:43-62 | the added texts hold no duplicate, as in a `HashSet` |
| ExtenderDraft.ExtraRoleAxiomsFor | extender_draft.java:47-66 | a text is added exactly when some axiom yields it |
| ExtenderDraft.ExtraRoleAxiomsSnoc | extender_draft.java:62 | one more axiom appends its text only when new |
| ExtenderDraft.DraftAxioms | extender_draft.java:74-79 | one new axiom per added text, in order |
| ExtenderDraft.DraftAxiomsSnoc | extender_draft.java:74-79 | one more text appends its own axiom |
| ExtenderDraft.ScanAxioms | extender_draft.java:43-66 | the scan loop collects the added texts and sets `isELH` exactly when some symbolic text holds `∃` |
| ExtenderDraft.IsELHSnoc | extender_draft.java:52-53 | one more axiom makes the test case ELH exactly when its text holds `∃` |
| ExtenderDraft.CollectAdded | extender_draft.java:56-64 | one text adds `r ⊑ s` for its untrimmed role only when the map knows the role |
| ExtenderDraft.RoleTextAt | extender_draft.java:56-59 | the untrimmed role between `start` and `dot` |
| ExtenderDraft.RoleTextAbsent | extender_draft.java:52 | text without `∃` has no role |
| ExtenderDraft.ExtendEntry | extender_draft.java:41-93 | the per-entry body keeps the fields, appends the new axioms to the entry's own list, and yields the record |
| ExtenderDraft.RoleHierarchyNoSpace | extender_draft.java:33-37 | no role or super-role of the map holds a space |
| ExtenderDraft.ReplaceSubsumption | extender_draft.java:77 | replacing ` ⊑ ` by a space turns `r ⊑ s` into `r s` |
| ExtenderDraft.DraftFunctional | extender_draft.java:76-77 | the functional text of an added axiom is `SubObjectPropertyOf(r s)` |
| ExtenderDraft.ExtraRoleAxiomsMapped | extender_draft.java:56-63 | a text is added only as `r ⊑ map[r]` for a role of the map |
| ExtenderDraft.AddedOnlyWhenELH | extender_draft.java:52-69 | nothing is added unless the test case is ELH |
| ExtenderDraft.ExtendedAxiomsAppend | extender_draft.java:69-79 | the new axiom list is the old one followed by one axiom per distinct added text |
| ExtenderDraft.RoleTextHasGlyph | extender_draft.java:52-59 | a role is found only in text that holds `∃` |
| ExtenderDraft.DraftRecordFields | extender_draft.java:86-92 | a record exists exactly when query and expected exist; it has exactly the keys id, mr, dl_profile, query and expected, copies id, query and expected, and has mr MR-H1 and profile ELH exactly when ELH |
| ExtenderDraft.DraftCaseNone | extender_draft.java:91-92 | no record exactly when query or expected is missing |
| ExtenderDraft.FirstIncomplete | extender_draft.java:91-92 | every entry before it has query and expected; the entry at it lacks one |
| ExtenderDraft.ExtendAt | extender_draft.java:40-93 | one step of the loop changes only entry `i`'s axiom list |
| ExtenderDraft.ExtendEach | extender_draft.java:40-94 | the loop extends the axiom lists of every entry up to and including the first that fails and no further, and succeeds with every record exactly when no entry fails |
| ExtenderDraft.Run | extender_draft.java:13-94 | a failing id changes nothing and fails; otherwise the entries are extended up to the first failure, and the output holds every record exactly when nothing fails |
| Prompts.AllResultsSnoc | scripts/evaluate_LLMs.py:96-114 | one more entry appends its result or fails the run |
| Prompts.AllResultsStep | scripts/evaluate_LLMs.py:96-114 | a loop step either fails the whole run or extends the results so far |
| Prompts.AllResultsFails | scripts/evaluate_LLMs.py:96-114 | one failing entry fails the whole run |
| Prompts.AllResultsShape | scripts/evaluate_LLMs.py:96-114 | the run succeeds exactly when every entry does, and then holds one result per entry, in order |
| Prompts.Get | scripts/evaluate_LLMs.py:31 | `dict.get` gives the value when the key is present and the default otherwise |
| Prompts.DescribeNames | scripts/evaluate_LLMs.py:31-37 | the description is the EL text exactly for EL, the ELH text exactly for ELH, and the unknown text otherwise |
| Prompts.SplitLines | scripts/evaluate_LLMs.py:29 | splitting at line breaks always gives at least one piece |
| Prompts.SplitSnoc | scripts/evaluate_LLMs.py:29 | a line break opens a new piece; any other character extends the last one |
| Prompts.SplitAppendPlain | scripts/evaluate_LLMs.py:29 | text without a line break extends the last piece |
| Prompts.SplitJoin | scripts/evaluate_LLMs.py:29 | splitting undoes `"\n".join` for a non-empty list of lines without breaks |
| Prompts.SplitJoinStep | scripts/evaluate_LLMs.py:29 | one more line keeps the round trip |
| Prompts.Bullets | scripts/evaluate_LLMs.py:29 | one `- ` line per axiom's symbolic text, in order |
| Prompts.AxiomLines | scripts/evaluate_LLMs.py:29 | the axiom text reads back line by line as the bullets of the symbolic texts |
| Prompts.PromptLayout | scripts/evaluate_LLMs.py:39-46 | where the opening, description, axiom text, query and last line sit in the prompt |
| Prompts.PromptInjective | scripts/evaluate_LLMs.py:39-46 | prompts with the same description and axioms are equal only for the same query |
| EvaluateLLMs.BuildPrompt | scripts/evaluate_LLMs.py:27-46 | a prompt exists exactly when the entry has axioms and a query; dl_profile is optional |
| EvaluateLLMs.MissingProfileIsUnknown | scripts/evaluate_LLMs.py:31-37 | a missing or unrecognised profile gives the unknown-profile description |
| EvaluateLLMs.PromptCarriesQuery | scripts/evaluate_LLMs.py:39-46 | the query sits just before the last line, and two prompts that agree elsewhere are equal exactly when their queries are |
| EvaluateLLMs.Evaluate | scripts/evaluate_LLMs.py:96-114 | the loop computes the results of all entries, or fails at the first entry with a missing key |
| EvaluateLLMs.EvaluateEntry | scripts/evaluate_LLMs.py:98-114 | the loop body computes the result of one entry |
| EvaluateLLMs.EvaluatedRecords | scripts/evaluate_LLMs.py:96-114 | the run succeeds exactly when every entry does, and then holds one result per entry, in order |
| EvaluateLLMs.RecordFields | scripts/evaluate_LLMs.py:101-114 | a result exists exactly when axioms, query, expected and id are present. It copies the fields, defaulting mr and dl_profile to `""`, holds the answer to the entry's prompt and matches exactly when the normalised answers agree |
| EvaluateLLMs.EvaluatedComplete | scripts/evaluate_LLMs.py:105-114 | entries with every key the script needs all evaluate, each carrying its own id, query and profile |
| EvaluateLLMs.Correct | scripts/evaluate_LLMs.py:122 | no more correct results than results |
| EvaluateLLMs.AccuracyBounds | scripts/evaluate_LLMs.py:121-123 | accuracy lies between 0 and 100, and is 100 exactly when there are results and all are correct |
| EvaluateLLMs.Summarize | scripts/evaluate_LLMs.py:121-134 | the summary loops compute the total, the correct count, the accuracy and the false positives and negatives, in order |
| EvaluateLLMs.EvaluatedConsistent | scripts/evaluate_LLMs.py:101-103 | every result's match flag agrees with its expected and answered texts |
| EvaluateLLMs.MistakeIsNotMatch | scripts/evaluate_LLMs.py:126-134 | a false positive or false negative is never flagged as a match, and no result is both |
| EvaluateLLMs.StrippedNo | scripts/evaluate_LLMs.py:128 | "no" has no whitespace to strip |
| EvaluateLLMs.StrippedYes | scripts/evaluate_LLMs.py:133 | "yes" has no whitespace to strip |
| EvaluateLLMs.SummaryCounts | scripts/evaluate_LLMs.py:121-134 | correct, false-positive and false-negative results together are no more than all results, and each listed mistake is an unmatched result of its kind |
| EvaluateGpt4o.BuildPrompt | target/classes/evaluate_gpt4o.py:21-47 | a prompt exists exactly when the entry has axioms, dl_profile and query |
| EvaluateGpt4o.PromptDescribesProfile | target/classes/evaluate_gpt4o.py:30-40 | the prompt carries the description of the entry's own profile, which is the EL text exactly for EL and the ELH text exactly for ELH |
| EvaluateGpt4o.Evaluate | target/classes/evaluate_gpt4o.py:74-93 | the loop computes the results of all entries, or fails at the first entry with a missing key |
| EvaluateGpt4o.EvaluateEntry | target/classes/evaluate_gpt4o.py:76-93 | the loop body, with the match flag set to No and raised to Yes on agreement, computes the result of one entry |
| EvaluateGpt4o.EvaluatedRecords | target/classes/evaluate_gpt4o.py:74-93 | the run succeeds exactly when every entry does, and then holds one result per entry, in order |
| EvaluateGpt4o.RecordFields | target/classes/evaluate_gpt4o.py:79-92 | a result exists exactly when axioms and all of dl_profile, query, expected, id and mr are present. It copies them, holds the answer to the entry's prompt and matches exactly when the normalised answers agree |
| EvaluateGpt4o.MissingMrFails | target/classes/evaluate_gpt4o.py:86 | one entry without mr fails the whole run |
| Pipeline.RenderedRoleReadBack | src/main/java/org/example/ELHExtender.java:45-50 | the extender reads back the role `r` from the formatter's rendering of `A ⊑ ∃r.C` |
| Pipeline.RenderedCaseExtended | src/main/java/org/example/ELHExtender.java:39-70 | a test case holding only that rendering gains exactly `r`'s hierarchy axiom and the ELH profile |
| Pipeline.RunnerIdsReadBack | extender_draft.java:19-27 | the draft reads every id the runner wrote back as its number, and its maximum is the number of test cases |
| Pipeline.RunnerOutputEvaluates | scripts/evaluate_LLMs.py:96-114 | the multi-model script evaluates every test case the runner writes, keeping its id and query and asking about EL |
| Pipeline.RunnerOutputLacksMr | target/classes/evaluate_gpt4o.py:86 | the single-model script fails on any non-empty output of the runner |
| Pipeline.RunnerCaseFields | src/main/java/org/example/BenchmarkRunner.java:66-72 | each test case of the runner has exactly the keys id, dl_profile, query and expected, with profile EL |
| Pipeline.MatchesAgree | scripts/evaluate_LLMs.py:101-103 | both scripts flag the same answers as matches, although they lower-case and strip in different orders |
| Pipeline.PromptsDifferInTail | target/classes/evaluate_gpt4o.py:40-47 | whatever the single-model script can prompt for, the multi-model one can too, and the two prompts agree on everything except their last lines, which differ |

## Left out

- Reading and writing JSON files and console output (progress bars, logging, `println`, the draft's logging at lines 71 and 82): the model works on the parsed values.
- The model clients `call_llm` (scripts/evaluate_LLMs.py:49-89) and `call_gpt` (target/classes/evaluate_gpt4o.py:49-67), with their retries, sleeps and error texts: they are the parameters `llm` and `gpt`.
- The reasoner (`ReasoningValidator`) and `ReasonerBenchmark`: entailment is the parameter `entailed`; timings are not modelled.
- OWLAPI: loading the ontology, `OWLAxiom.toString()` (the parameter `functional`), IRI short forms and the regular expression at QueryGenerator.java:134. Names are plain fields of the axiom datatypes.
- Iteration order of `HashMap` and `HashSet`:
  - the groups, the roles found and the draft's added texts are sequences in first-discovery order;
  - the source's order is unspecified, and no contract depends on it beyond "in the order the sequence gives".
- Floating point: accuracy is a `real`, with no rounding.
- `Text.ToUpper`, `Text.PyLower`: ASCII only, with no Unicode case mapping. Java `toUpperCase` can change a string's length; this model never does.
- `Text.ParseInt`: ASCII digits only. Java also accepts other Unicode digits.
- `BenchmarkRunner.Assemble`: the id counter is unbounded, so the 32-bit overflow after 2^31-1 test cases is not modelled. `Pipeline.RunnerIdsReadBack` requires at most 2^31-1 test cases for that reason.
- The draft's `idCounter` (extender_draft.java:30) is computed but never used. The model computes the maximum and goes no further.
- The unit tests under src/test are not modelled. Where they disagree with the sources, the model follows the sources:
  - ELHExtenderTest.java calls an `extendToELH` that ELHExtender.java does not have;
  - AxiomFormatterTest.java reads the keys `symbolic-format` and `OWL-format`, but `formatAxiom` writes `symbolic` and `functional`.
- JSON values that are not strings, and axiom list items without a `symbolic` key, are not modelled: fields are string-valued and rendered axioms always have both texts.
- A test case without an `axioms` array is not modelled: `getAsJsonArray("axioms")` returns null there and the loop over it throws a NullPointerException (`ELHExtender.java:33,39`, `extender_draft.java:42,47`); a value that is not an array throws a ClassCastException. `Benchmark.TestCase.axioms` and `ExtenderDraft.Entry.axioms` are always a list, so both extenders model only test cases that have one.
- The paraphrasing and removal helpers (`QueryGenerator.paraphraseQuery`, `removeQueryAxiom`) have no caller among the modelled files. They are modelled on their own.
