/** ExtenderDraft: the earlier draft of the profile extender. It first
    scans every id for the highest `test_N`, then, per test case, looks
    for `∃` texts, adds `r ⊑ s` only for the roles of a fixed hierarchy
    map (the role untrimmed), appends those axioms to the test case's own
    axiom list in place, and emits a record of six fixed fields. */
module ExtenderDraft {
  import opened Text
  import opened Benchmark
  import ELHExtender

  /** The role hierarchy, fixed in the code. */
  const RoleHierarchy: map<string, string> :=
    map["hasMozzarella" := "hasTopping", "hasSausage" := "hasTopping", "hasSpiciness" := "hasProperty"]

  const IdPrefix := "test_"
  const MrELH := "MR-H1"
  const MrEL := "MR-0"

  /** One test case of the input, whose axiom list the draft extends in
      place. */
  class Entry {
    var fields: map<string, string>
    var axioms: seq<RenderedAxiom>

    constructor (fields: map<string, string>, axioms: seq<RenderedAxiom>)
      ensures this.fields == fields && this.axioms == axioms
    {
      this.fields := fields;
      this.axioms := axioms;
    }
  }

  // ---------------------------------------------------------------------
  // The highest id

  /** The number of a test case's id: the id with every "test_" removed,
      read by Integer.parseInt; none when the id is missing (a null
      dereference) or is not a number (NumberFormatException). */
  function IdNumber(fields: map<string, string>): Option<int> {
    if IdKey in fields then ParseInt(ReplaceAll(fields[IdKey], IdPrefix, "")) else None
  }

  /** The highest id number, starting from 0; none when some id fails. */
  function MaxId(entries: seq<map<string, string>>): (r: Option<int>)
    ensures r.Some? <==> forall k :: 0 <= k < |entries| ==> IdNumber(entries[k]).Some?
    ensures r.Some? ==> r.value >= 0
    ensures r.Some? ==> forall k :: 0 <= k < |entries| ==> IdNumber(entries[k]).value <= r.value
    ensures r.Some? && r.value != 0 ==> exists k :: 0 <= k < |entries| && IdNumber(entries[k]) == Some(r.value)
  {
    if entries == [] then Some(0)
    else
      var init := entries[..|entries| - 1];
      var prev := MaxId(init);
      var last := IdNumber(entries[|entries| - 1]);
      assert forall k :: 0 <= k < |init| ==> entries[k] == init[k];
      if prev.None? || last.None? then None
      else if last.value > prev.value then Some(last.value)
      else prev
  }

  /** The first loop of main: the highest id, or failure at the first id
      that is missing or not a number. */
  method HighestId(entries: seq<map<string, string>>) returns (r: Option<int>)
    ensures r == MaxId(entries)
  {
    var highestId := 0;
    var i := 0;
    assert entries[..0] == [];
    while i < |entries|
      invariant 0 <= i <= |entries|
      invariant MaxId(entries[..i]) == Some(highestId)
    {
      var entry := entries[i];
      assert entries[..i + 1][..i] == entries[..i];
      if IdKey !in entry {
        MaxIdFails(entries, i);
        return None;
      }
      var currentId := ParseInt(ReplaceAll(entry[IdKey], IdPrefix, ""));
      if currentId.None? {
        MaxIdFails(entries, i);
        return None;
      }
      if currentId.value > highestId {
        highestId := currentId.value;
      }
      i := i + 1;
    }
    assert entries[..|entries|] == entries;
    // idCounter = highestId + 1 is computed by the draft but never used.
    return Some(highestId);
  }

  /** Every test case of a successful scan has an id. */
  lemma MaxIdHasIds(entries: seq<map<string, string>>)
    requires MaxId(entries).Some?
    ensures forall k :: 0 <= k < |entries| ==> IdKey in entries[k]
  {
    forall k | 0 <= k < |entries| ensures IdKey in entries[k] {
      assert IdNumber(entries[k]).Some?;
    }
  }

  /** A failing id anywhere makes the whole scan fail. */
  lemma MaxIdFails(entries: seq<map<string, string>>, i: int)
    requires 0 <= i < |entries| && IdNumber(entries[i]).None?
    ensures MaxId(entries) == None
  {
  }

  /** Ids numbered 1, 2, ... in order scan to the last number, or to 0 when
      there are none. */
  lemma MaxIdConsecutive(entries: seq<map<string, string>>)
    requires forall k :: 0 <= k < |entries| ==> IdNumber(entries[k]) == Some(k + 1)
    ensures MaxId(entries) == Some(|entries|)
  {
    if entries != [] {
      assert IdNumber(entries[|entries| - 1]) == Some(|entries|);
    }
  }

  /** The id of a test case numbered `n` by the benchmark runner reads
      back as `n`. */
  lemma IdNumberOfRunnerId(n: nat, fields: map<string, string>)
    requires n <= IntMax && IdKey in fields && fields[IdKey] == IdPrefix + NatToString(n)
    ensures IdNumber(fields) == Some(n)
  {
    var digits := NatToString(n);
    NatToStringDigits(n);
    ReplaceHead(IdPrefix, "", digits);
    assert 't' !in digits by {
      forall k | 0 <= k < |digits| ensures digits[k] != 't' {
        assert IsDigit(digits[k]);
      }
    }
    ReplaceAbsent(digits, IdPrefix, "");
    assert "" + digits == digits;
    ParseNatToString(n);
  }

  // ---------------------------------------------------------------------
  // One test case

  /** The hierarchy axiom text the draft adds for one symbolic text: for
      the untrimmed role between the first `∃` and the next `.`, and only
      when the map knows that role. */
  function AddedOf(sym: string): Option<string> {
    var role := ELHExtender.RoleText(sym);
    if role.Some? && role.value in RoleHierarchy then Some(role.value + " ⊑ " + RoleHierarchy[role.value])
    else None
  }

  /** `x` is added for some axiom of `axs`. */
  predicate AddedFor(axs: seq<RenderedAxiom>, x: string) {
    exists i :: 0 <= i < |axs| && AddedOf(axs[i].symbolic) == Some(x)
  }

  lemma AddedForSnoc(init: seq<RenderedAxiom>, last: RenderedAxiom)
    ensures forall x :: AddedFor(init + [last], x) <==> AddedFor(init, x) || AddedOf(last.symbolic) == Some(x)
  {
    var axs := init + [last];
    forall x ensures AddedFor(axs, x) <==> AddedFor(init, x) || AddedOf(last.symbolic) == Some(x) {
      if AddedFor(init, x) {
        var i :| 0 <= i < |init| && AddedOf(init[i].symbolic) == Some(x);
        assert axs[i] == init[i];
      }
      if AddedOf(last.symbolic) == Some(x) {
        assert axs[|init|] == last;
      }
      if AddedFor(axs, x) {
        var i :| 0 <= i < |axs| && AddedOf(axs[i].symbolic) == Some(x);
        if i < |init| {
          assert axs[i] == init[i];
        }
      }
    }
  }

  /** The `extraRoleAxioms` set, as the sequence of texts in the order they
      are first met. */
  function ExtraRoleAxioms(axs: seq<RenderedAxiom>): (r: seq<string>)
    ensures NoDup(r)
  {
    if axs == [] then []
    else
      var prev := ExtraRoleAxioms(axs[..|axs| - 1]);
      var o := AddedOf(axs[|axs| - 1].symbolic);
      if o.None? || o.value in prev then prev else prev + [o.value]
  }

  /** The added texts are exactly those some axiom calls for. */
  lemma {:induction false} ExtraRoleAxiomsFor(axs: seq<RenderedAxiom>)
    ensures forall x :: x in ExtraRoleAxioms(axs) <==> AddedFor(axs, x)
  {
    if axs != [] {
      var init := axs[..|axs| - 1];
      ExtraRoleAxiomsFor(init);
      AddedForSnoc(init, axs[|axs| - 1]);
      assert init + [axs[|axs| - 1]] == axs;
    }
  }

  lemma ExtraRoleAxiomsSnoc(axs: seq<RenderedAxiom>, ax: RenderedAxiom)
    ensures ExtraRoleAxioms(axs + [ax])
            == match AddedOf(ax.symbolic)
               case None => ExtraRoleAxioms(axs)
               case Some(x) => if x in ExtraRoleAxioms(axs) then ExtraRoleAxioms(axs) else ExtraRoleAxioms(axs) + [x]
  {
    assert (axs + [ax])[..|axs|] == axs;
  }

  /** The `isELH` flag: some symbolic text holds `∃`. */
  predicate IsELH(axs: seq<RenderedAxiom>) {
    exists i :: 0 <= i < |axs| && ELHExtender.ExistsGlyph in axs[i].symbolic
  }

  /** The axiom record the draft builds for an added text. */
  function DraftAxiom(added: string): RenderedAxiom {
    RenderedAxiom(added, "SubObjectPropertyOf(" + ReplaceAll(added, " ⊑ ", " ") + ")")
  }

  function DraftAxioms(added: seq<string>): (r: seq<RenderedAxiom>)
    ensures |r| == |added| && forall k :: 0 <= k < |added| ==> r[k] == DraftAxiom(added[k])
  {
    seq(|added|, k requires 0 <= k < |added| => DraftAxiom(added[k]))
  }

  lemma DraftAxiomsSnoc(added: seq<string>, x: string)
    ensures DraftAxioms(added + [x]) == DraftAxioms(added) + [DraftAxiom(x)]
  {
  }

  /** A test case's axiom list after the draft has appended to it. */
  function ExtendedAxioms(axs: seq<RenderedAxiom>): seq<RenderedAxiom> {
    if IsELH(axs) then axs + DraftAxioms(ExtraRoleAxioms(axs)) else axs
  }

  /** The record the draft emits: exactly the six fields, the others
      dropped; none when the query or the expected answer is missing
      (a null dereference). */
  function DraftRecord(fields: map<string, string>, isELH: bool, axioms: seq<RenderedAxiom>): Option<TestCase>
    requires IdKey in fields
  {
    if QueryKey in fields && ExpectedKey in fields then
      Some(TestCase(map[IdKey := fields[IdKey],
                        MrKey := if isELH then MrELH else MrEL,
                        ProfileKey := if isELH then ELH else EL,
                        QueryKey := fields[QueryKey],
                        ExpectedKey := fields[ExpectedKey]],
                    axioms))
    else None
  }

  /** What the draft emits for a test case with these fields and axioms. */
  function DraftCase(fields: map<string, string>, axioms: seq<RenderedAxiom>): Option<TestCase>
    requires IdKey in fields
  {
    DraftRecord(fields, IsELH(axioms), ExtendedAxioms(axioms))
  }

  /** The role-scanning loop for one test case: the added texts and the
      `isELH` flag. */
  method ScanAxioms(axioms: seq<RenderedAxiom>) returns (extraRoleAxioms: seq<string>, isELH: bool)
    ensures extraRoleAxioms == ExtraRoleAxioms(axioms)
    ensures isELH == IsELH(axioms)
  {
    extraRoleAxioms := [];
    isELH := false;
    var i := 0;
    assert axioms[..0] == [];
    while i < |axioms|
      invariant 0 <= i <= |axioms|
      invariant extraRoleAxioms == ExtraRoleAxioms(axioms[..i])
      invariant isELH == IsELH(axioms[..i])
    {
      var symbolic := axioms[i].symbolic;
      assert axioms[..i + 1] == axioms[..i] + [axioms[i]];
      ExtraRoleAxiomsSnoc(axioms[..i], axioms[i]);
      IsELHSnoc(axioms[..i], axioms[i]);
      if ELHExtender.ExistsGlyph in symbolic {
        isELH := true;
      }
      extraRoleAxioms := CollectAdded(extraRoleAxioms, symbolic);
      i := i + 1;
    }
    assert axioms[..|axioms|] == axioms;
  }

  lemma IsELHSnoc(axs: seq<RenderedAxiom>, ax: RenderedAxiom)
    ensures IsELH(axs + [ax]) <==> IsELH(axs) || ELHExtender.ExistsGlyph in ax.symbolic
  {
    var s := axs + [ax];
    if IsELH(axs) {
      var i :| 0 <= i < |axs| && ELHExtender.ExistsGlyph in axs[i].symbolic;
      assert s[i] == axs[i];
    }
    if ELHExtender.ExistsGlyph in ax.symbolic {
      assert s[|axs|] == ax;
    }
    if IsELH(s) {
      var i :| 0 <= i < |s| && ELHExtender.ExistsGlyph in s[i].symbolic;
      if i < |axs| {
        assert s[i] == axs[i];
      }
    }
  }

  /** The role lookup of the loop's body: records the text added for one
      symbolic text, if any. */
  method CollectAdded(extraRoleAxioms: seq<string>, symbolic: string) returns (extra: seq<string>)
    ensures extra == match AddedOf(symbolic)
                     case None => extraRoleAxioms
                     case Some(x) => if x in extraRoleAxioms then extraRoleAxioms else extraRoleAxioms + [x]
  {
    extra := extraRoleAxioms;
    if ELHExtender.ExistsGlyph in symbolic {
      var start := IndexOf(symbolic, ELHExtender.ExistsGlyph, 0) + 1;
      var dot := IndexOf(symbolic, '.', start);
      RoleTextAt(symbolic, start, dot);
      if dot > start {
        var role := symbolic[start..dot];
        if role in RoleHierarchy {
          var superRole := RoleHierarchy[role];
          var added := role + " ⊑ " + superRole;
          if added !in extra {
            extra := extra + [added];
          }
        }
      }
    } else {
      RoleTextAbsent(symbolic);
    }
  }

  lemma RoleTextAt(sym: string, start: nat, dot: int)
    requires ELHExtender.ExistsGlyph in sym && start == IndexOf(sym, ELHExtender.ExistsGlyph, 0) + 1
    requires dot == IndexOf(sym, '.', start)
    ensures ELHExtender.RoleText(sym) == if dot > start then Some(sym[start..dot]) else None
  {
  }

  lemma RoleTextAbsent(sym: string)
    requires ELHExtender.ExistsGlyph !in sym
    ensures ELHExtender.RoleText(sym) == None
  {
  }

  /** The second loop of main for one test case: appends to the entry's
      own axiom list, then builds the output record. */
  method ExtendEntry(entry: Entry) returns (out: Option<TestCase>)
    requires IdKey in entry.fields
    modifies entry
    ensures entry.fields == old(entry.fields)
    ensures entry.axioms == ExtendedAxioms(old(entry.axioms))
    ensures out == DraftCase(entry.fields, old(entry.axioms))
  {
    var extraRoleAxioms, isELH := ScanAxioms(entry.axioms);
    ghost var original := entry.axioms;
    if isELH {
      var j := 0;
      while j < |extraRoleAxioms|
        invariant 0 <= j <= |extraRoleAxioms|
        invariant entry.fields == old(entry.fields)
        invariant entry.axioms == original + DraftAxioms(extraRoleAxioms[..j])
      {
        var added := extraRoleAxioms[j];
        assert extraRoleAxioms[..j + 1] == extraRoleAxioms[..j] + [added];
        DraftAxiomsSnoc(extraRoleAxioms[..j], added);
        entry.axioms := entry.axioms
          + [RenderedAxiom(added, "SubObjectPropertyOf(" + ReplaceAll(added, " ⊑ ", " ") + ")")];
        j := j + 1;
      }
      assert extraRoleAxioms[..|extraRoleAxioms|] == extraRoleAxioms;
    }
    if QueryKey !in entry.fields || ExpectedKey !in entry.fields {
      return None;
    }
    out := Some(TestCase(map[IdKey := entry.fields[IdKey],
                             MrKey := if isELH then MrELH else MrEL,
                             ProfileKey := if isELH then ELH else EL,
                             QueryKey := entry.fields[QueryKey],
                             ExpectedKey := entry.fields[ExpectedKey]],
                         entry.axioms));
  }

  // ---------------------------------------------------------------------
  // Properties of one test case

  /** The role map's names hold no space. */
  lemma RoleHierarchyNoSpace(role: string)
    requires role in RoleHierarchy
    ensures ' ' !in role && ' ' !in RoleHierarchy[role]
  {
  }

  /** Replacing " ⊑ " by " " in `r ⊑ s`, for names without spaces,
      gives `r s`. */
  lemma ReplaceSubsumption(role: string, sup: string)
    requires ' ' !in role && ' ' !in sup
    ensures ReplaceAll(role + " ⊑ " + sup, " ⊑ ", " ") == role + " " + sup
  {
    assert role + " ⊑ " + sup == role + (" ⊑ " + sup);
    ReplaceSkipChar(role, " ⊑ " + sup, " ⊑ ", " ");
    ReplaceHead(" ⊑ ", " ", sup);
    ReplaceAbsent(sup, " ⊑ ", " ");
  }

  /** The functional text the draft builds for a mapped role is the
      property-hierarchy axiom of that role and its super-role. */
  lemma DraftFunctional(role: string)
    requires role in RoleHierarchy
    ensures DraftAxiom(role + " ⊑ " + RoleHierarchy[role]).functional
            == "SubObjectPropertyOf(" + role + " " + RoleHierarchy[role] + ")"
  {
    RoleHierarchyNoSpace(role);
    ReplaceSubsumption(role, RoleHierarchy[role]);
  }

  /** Every added text is `r ⊑ s` for a mapped role r found, untrimmed,
      after some axiom's first `∃`, with s its entry in the map; and every
      such text is added, once. */
  lemma ExtraRoleAxiomsMapped(axs: seq<RenderedAxiom>, x: string)
    ensures x in ExtraRoleAxioms(axs)
            <==> exists i :: 0 <= i < |axs| && ELHExtender.RoleText(axs[i].symbolic).Some?
                             && ELHExtender.RoleText(axs[i].symbolic).value in RoleHierarchy
                             && x == ELHExtender.RoleText(axs[i].symbolic).value + " ⊑ "
                                     + RoleHierarchy[ELHExtender.RoleText(axs[i].symbolic).value]
  {
    ExtraRoleAxiomsFor(axs);
  }

  /** A role is only ever taken from a text holding `∃`, so a text is
      added only when the flag is set (the flag alone may be set). */
  lemma AddedOnlyWhenELH(axs: seq<RenderedAxiom>)
    ensures ExtraRoleAxioms(axs) != [] ==> IsELH(axs)
  {
    if ExtraRoleAxioms(axs) != [] {
      var x := ExtraRoleAxioms(axs)[0];
      ExtraRoleAxiomsFor(axs);
      assert AddedFor(axs, x);
      var i :| 0 <= i < |axs| && AddedOf(axs[i].symbolic) == Some(x);
      RoleTextHasGlyph(axs[i].symbolic);
    }
  }

  /** The extended list is the original followed by one axiom per added
      text. */
  lemma ExtendedAxiomsAppend(axs: seq<RenderedAxiom>)
    ensures ExtendedAxioms(axs) == axs + DraftAxioms(ExtraRoleAxioms(axs))
    ensures |ExtendedAxioms(axs)| == |axs| + |set x | x in ExtraRoleAxioms(axs)|
  {
    NoDupCardinality(ExtraRoleAxioms(axs));
    AddedOnlyWhenELH(axs);
    if ExtraRoleAxioms(axs) == [] {
      assert axs + DraftAxioms([]) == axs;
    }
  }

  lemma RoleTextHasGlyph(sym: string)
    requires ELHExtender.RoleText(sym).Some?
    ensures ELHExtender.ExistsGlyph in sym
  {
    var e := IndexOf(sym, ELHExtender.ExistsGlyph, 0);
    assert sym[e] == ELHExtender.ExistsGlyph;
  }

  /** The emitted record: the six fields and nothing else, `mr` and the
      profile following the flag, id, query and answer copied. */
  lemma DraftRecordFields(fields: map<string, string>, isELH: bool, axioms: seq<RenderedAxiom>)
    requires IdKey in fields
    ensures DraftRecord(fields, isELH, axioms).Some? <==> QueryKey in fields && ExpectedKey in fields
    ensures DraftRecord(fields, isELH, axioms).Some? ==>
              var f := DraftRecord(fields, isELH, axioms).value.fields;
              f.Keys == {IdKey, MrKey, ProfileKey, QueryKey, ExpectedKey}
              && f[IdKey] == fields[IdKey] && f[QueryKey] == fields[QueryKey]
              && f[ExpectedKey] == fields[ExpectedKey]
              && (f[MrKey] == MrELH <==> isELH) && (f[ProfileKey] == ELH <==> isELH)
              && DraftRecord(fields, isELH, axioms).value.axioms == axioms
  {
  }

  /** A test case yields no record exactly when it lacks a query or an
      expected answer. */
  lemma DraftCaseNone(fields: map<string, string>, axioms: seq<RenderedAxiom>)
    requires IdKey in fields
    ensures DraftCase(fields, axioms).None? <==> QueryKey !in fields || ExpectedKey !in fields
  {
  }

  // ---------------------------------------------------------------------
  // main

  function FieldsOf(entries: seq<Entry>): (r: seq<map<string, string>>)
    reads entries
    ensures |r| == |entries| && forall k :: 0 <= k < |entries| ==> r[k] == entries[k].fields
  {
    seq(|entries|, k reads entries requires 0 <= k < |entries| => entries[k].fields)
  }

  /** The index of the first test case without a query or an expected
      answer, or the number of test cases when there is none. */
  function FirstIncomplete(entries: seq<map<string, string>>): (r: nat)
    ensures r <= |entries|
    ensures forall k :: 0 <= k < r ==> QueryKey in entries[k] && ExpectedKey in entries[k]
    ensures r < |entries| ==> QueryKey !in entries[r] || ExpectedKey !in entries[r]
  {
    if entries == [] then 0
    else if QueryKey !in entries[0] || ExpectedKey !in entries[0] then 0
    else 1 + FirstIncomplete(entries[1..])
  }

  function AxiomsOf(entries: seq<Entry>): (r: seq<seq<RenderedAxiom>>)
    reads entries
    ensures |r| == |entries| && forall k :: 0 <= k < |entries| ==> r[k] == entries[k].axioms
  {
    seq(|entries|, k reads entries requires 0 <= k < |entries| => entries[k].axioms)
  }

  /** `after` is `before` with the first `upto + 1` axiom lists extended
      and the rest as they were. */
  ghost predicate ExtendedUpTo(before: seq<seq<RenderedAxiom>>, after: seq<seq<RenderedAxiom>>, upto: nat)
  {
    |after| == |before|
    && forall k :: 0 <= k < |before| ==>
         after[k] == if k <= upto then ExtendedAxioms(before[k]) else before[k]
  }

  /** One step of the second loop of main: extends the test case at `i`
      in place and leaves every other one as it was. */
  method ExtendAt(input: seq<Entry>, i: nat, fieldsIn: seq<map<string, string>>, ghost current: seq<seq<RenderedAxiom>>)
    returns (out: Option<TestCase>)
    requires forall i, j :: 0 <= i < j < |input| ==> input[i] != input[j]
    requires i < |input| && |fieldsIn| == |input| && |current| == |input| && IdKey in fieldsIn[i]
    requires forall k :: 0 <= k < |input| ==> input[k].fields == fieldsIn[k] && input[k].axioms == current[k]
    modifies input[i]
    ensures forall k :: 0 <= k < |input| ==>
              input[k].fields == fieldsIn[k] && input[k].axioms == current[i := ExtendedAxioms(current[i])][k]
    ensures out == DraftCase(fieldsIn[i], current[i])
  {
    out := ExtendEntry(input[i]);
  }

  /** The second loop of main: extends the test cases in order, in place,
      up to and including the first that lacks a query or an expected
      answer, where it stops; collects one record per test case when none
      lacks them. */
  method ExtendEach(input: seq<Entry>, fieldsIn: seq<map<string, string>>, ghost axiomsIn: seq<seq<RenderedAxiom>>,
                    ghost targets: seq<seq<RenderedAxiom>>, ghost cases: seq<Option<TestCase>>)
    returns (records: seq<TestCase>, complete: bool)
    requires forall i, j :: 0 <= i < j < |input| ==> input[i] != input[j]
    requires |fieldsIn| == |input| && |axiomsIn| == |input| && |targets| == |input| && |cases| == |input|
    requires forall k :: 0 <= k < |input| ==> input[k].fields == fieldsIn[k] && input[k].axioms == axiomsIn[k]
    requires forall k :: 0 <= k < |input| ==> IdKey in fieldsIn[k]
    requires forall k :: 0 <= k < |input| ==> targets[k] == ExtendedAxioms(axiomsIn[k])
    requires forall k :: 0 <= k < |input| ==> cases[k] == DraftCase(fieldsIn[k], axiomsIn[k])
    modifies input
    ensures forall k :: 0 <= k < |input| ==> input[k].fields == fieldsIn[k]
    ensures complete <==> FirstIncomplete(fieldsIn) == |input|
    ensures forall k :: 0 <= k < |input| ==>
              input[k].axioms == if k <= FirstIncomplete(fieldsIn) then targets[k] else axiomsIn[k]
    ensures complete ==>
              |records| == |input| && forall k :: 0 <= k < |input| ==> Some(records[k]) == cases[k]
  {
    records := [];
    ghost var current := axiomsIn;
    var i := 0;
    while i < |input|
      invariant 0 <= i <= |input| && |records| == i && |current| == |input|
      invariant forall k :: 0 <= k < |input| ==> input[k].fields == fieldsIn[k] && input[k].axioms == current[k]
      invariant forall k :: 0 <= k < |input| ==> current[k] == if k < i then targets[k] else axiomsIn[k]
      invariant i <= FirstIncomplete(fieldsIn)
      invariant forall k :: 0 <= k < i ==> Some(records[k]) == cases[k]
    {
      var out := ExtendAt(input, i, fieldsIn, current);
      current := current[i := targets[i]];
      DraftCaseNone(fieldsIn[i], axiomsIn[i]);
      if out.None? {
        assert FirstIncomplete(fieldsIn) == i;
        return records, false;
      }
      assert i < FirstIncomplete(fieldsIn);
      records := records + [out.value];
      assert records[i] == out.value;
      i := i + 1;
    }
    complete := true;
  }

  /** main: fails before touching anything when an id fails; otherwise
      extends the test cases as ExtendEach does and succeeds with its
      records when no test case lacks a query or an expected answer. */
  method Run(input: seq<Entry>) returns (output: Option<seq<TestCase>>)
    requires forall i, j :: 0 <= i < j < |input| ==> input[i] != input[j]
    modifies input
    ensures FieldsOf(input) == old(FieldsOf(input))
    ensures MaxId(old(FieldsOf(input))).None? ==> output.None? && AxiomsOf(input) == old(AxiomsOf(input))
    ensures MaxId(old(FieldsOf(input))).Some? ==>
              ExtendedUpTo(old(AxiomsOf(input)), AxiomsOf(input), FirstIncomplete(old(FieldsOf(input))))
    ensures MaxId(old(FieldsOf(input))).Some? ==>
              (output.Some? <==> FirstIncomplete(old(FieldsOf(input))) == |input|)
    ensures output.Some? ==>
              |output.value| == |input|
              && forall k :: 0 <= k < |input| ==>
                   Some(output.value[k]) == DraftCase(old(FieldsOf(input))[k], old(AxiomsOf(input))[k])
  {
    var fieldsIn := FieldsOf(input);
    ghost var axiomsIn := AxiomsOf(input);
    var highestId := HighestId(fieldsIn);
    if highestId.None? {
      return None;
    }
    MaxIdHasIds(fieldsIn);
    ghost var targets := seq(|input|, k requires 0 <= k < |input| => ExtendedAxioms(axiomsIn[k]));
    ghost var cases := seq(|input|, k requires 0 <= k < |input| => DraftCase(fieldsIn[k], axiomsIn[k]));
    var records, complete := ExtendEach(input, fieldsIn, axiomsIn, targets, cases);
    assert FieldsOf(input) == fieldsIn;
    assert ExtendedUpTo(axiomsIn, AxiomsOf(input), FirstIncomplete(fieldsIn));
    if !complete {
      return None;
    }
    return Some(records);
  }
}
