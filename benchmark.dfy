/** The records of the benchmark file. A test case is a JSON object: its
    `axioms` array, and its string-valued keys in `fields` (a key that is
    absent from the object is absent from the map). */
module Benchmark {

  /** One axiom in both notations, the JSON object
      {"symbolic": ..., "functional": ...}. */
  datatype RenderedAxiom = RenderedAxiom(symbolic: string, functional: string)

  datatype TestCase = TestCase(fields: map<string, string>, axioms: seq<RenderedAxiom>)

  // The keys the pipeline reads and writes.
  const IdKey := "id"
  const MrKey := "mr"
  const ProfileKey := "dl_profile"
  const QueryKey := "query"
  const ExpectedKey := "expected"

  const EL := "EL"
  const ELH := "ELH"
  const Yes := "Yes"
  const No := "No"
}
