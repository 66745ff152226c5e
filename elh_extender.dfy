/** ELHExtender: turns an EL test case into an ELH one. It scans every
    axiom's symbolic text for an existential `∃R.C`, collects the role
    names R, appends one role-hierarchy axiom `R ⊑ superOfR` per distinct
    role and relabels the profile. */
module ELHExtender {
  import opened Text
  import opened Benchmark

  const ExistsGlyph := '∃'

  /** capitalize: the first character upper-cased, the rest unchanged. */
  function Capitalize(role: string): (r: string)
    ensures role == [] ==> r == []
    ensures |r| == |role|
    ensures role != [] ==> r[0] == ToUpper(role[0]) && r[1..] == role[1..]
  {
    if |role| > 0 then [ToUpper(role[0])] + role[1..] else role
  }

  /** The role text sits in `sym` between positions `e` and `d`: `e` is the
      first `∃`, and `d` the first `.` after the character following it,
      with at least one character between them. */
  predicate RoleSpan(sym: string, e: int, d: int) {
    0 <= e && e + 1 < d < |sym|
    && sym[e] == ExistsGlyph && (forall k :: 0 <= k < e ==> sym[k] != ExistsGlyph)
    && sym[d] == '.' && (forall k :: e + 1 <= k < d ==> sym[k] != '.')
  }

  /** The untrimmed text between the first `∃` and the next `.`, when that
      `.` is not the very next character. */
  function RoleText(sym: string): Option<string> {
    var e := IndexOf(sym, ExistsGlyph, 0);
    if e == -1 then None
    else
      var start := e + 1;
      var dot := IndexOf(sym, '.', start);
      if dot > start then Some(sym[start..dot]) else None
  }

  /** The role the extender takes from one symbolic text: the role text,
      trimmed. */
  function RoleOf(sym: string): Option<string> {
    match RoleText(sym)
    case None => None
    case Some(t) => Some(Trim(t))
  }

  /** A role is taken exactly when the text has an `∃` and a `.` comes
      strictly after the character following the first `∃`; it is the
      trimmed text between the two. */
  lemma RoleOfSpan(sym: string)
    ensures RoleOf(sym).Some? <==> exists e, d :: RoleSpan(sym, e, d)
    ensures forall e, d :: RoleSpan(sym, e, d) ==> RoleOf(sym) == Some(Trim(sym[e + 1..d]))
  {
    forall e, d | RoleSpan(sym, e, d) ensures RoleOf(sym) == Some(Trim(sym[e + 1..d])) {
      RoleSpanFound(sym, e, d);
    }
    var e := IndexOf(sym, ExistsGlyph, 0);
    if e != -1 {
      var dot := IndexOf(sym, '.', e + 1);
      if dot > e + 1 {
        assert RoleSpan(sym, e, dot);
      }
    }
  }

  /** The span is where the scan looks. */
  lemma RoleSpanFound(sym: string, e: int, d: int)
    requires RoleSpan(sym, e, d)
    ensures IndexOf(sym, ExistsGlyph, 0) == e && IndexOf(sym, '.', e + 1) == d
    ensures RoleText(sym) == Some(sym[e + 1..d])
  {
  }

  /** The role of a text `pre ∃r.post` is `r`, when `pre` holds no `∃`,
      `r` holds no `.`, and `r` is non-empty with no blank at either end. */
  lemma {:induction false} RoleOfMarked(pre: string, r: string, post: string)
    requires ExistsGlyph !in pre && '.' !in r && r != []
    requires !IsJavaBlank(r[0]) && !IsJavaBlank(r[|r| - 1])
    ensures RoleOf(pre + [ExistsGlyph] + r + "." + post) == Some(r)
  {
    var sym := pre + [ExistsGlyph] + r + "." + post;
    var e := |pre|;
    var d := e + 1 + |r|;
    assert forall k :: 0 <= k < e ==> sym[k] == pre[k];
    assert forall k :: e + 1 <= k < d ==> sym[k] == r[k - e - 1];
    assert sym[d] == '.';
    RoleSpanFound(sym, e, d);
    assert sym[e + 1..d] == r;
    TrimTrimmed(r);
  }

  /** When the text has an `∃`, the role is what the two index scans
      delimit. */
  lemma RoleOfAt(sym: string, start: nat, dot: int)
    requires ExistsGlyph in sym && start == IndexOf(sym, ExistsGlyph, 0) + 1
    requires dot == IndexOf(sym, '.', start)
    ensures RoleOf(sym) == if dot > start then Some(Trim(sym[start..dot])) else None
  {
  }

  /** A text without `∃` yields no role. */
  lemma RoleOfAbsent(sym: string)
    requires ExistsGlyph !in sym
    ensures RoleOf(sym) == None
  {
  }

  /** `x` is the role of some axiom of `axs`. */
  predicate Extracted(axs: seq<RenderedAxiom>, x: string) {
    exists i :: 0 <= i < |axs| && RoleOf(axs[i].symbolic) == Some(x)
  }

  lemma ExtractedSnoc(init: seq<RenderedAxiom>, last: RenderedAxiom)
    ensures forall x :: Extracted(init + [last], x) <==> Extracted(init, x) || RoleOf(last.symbolic) == Some(x)
  {
    var axs := init + [last];
    forall x ensures Extracted(axs, x) <==> Extracted(init, x) || RoleOf(last.symbolic) == Some(x) {
      if Extracted(init, x) {
        var i :| 0 <= i < |init| && RoleOf(init[i].symbolic) == Some(x);
        assert axs[i] == init[i];
      }
      if RoleOf(last.symbolic) == Some(x) {
        assert axs[|init|] == last;
      }
      if Extracted(axs, x) {
        var i :| 0 <= i < |axs| && RoleOf(axs[i].symbolic) == Some(x);
        if i < |init| {
          assert axs[i] == init[i];
        }
      }
    }
  }

  /** The distinct roles of `axs`. */
  function RoleSet(axs: seq<RenderedAxiom>): set<string> {
    set i | 0 <= i < |axs| && RoleOf(axs[i].symbolic).Some? :: RoleOf(axs[i].symbolic).value
  }

  /** The `foundRoles` set, as the sequence of roles in the order they are
      first met. */
  function FoundRoles(axs: seq<RenderedAxiom>): (r: seq<string>)
    ensures NoDup(r)
  {
    if axs == [] then []
    else
      var prev := FoundRoles(axs[..|axs| - 1]);
      var o := RoleOf(axs[|axs| - 1].symbolic);
      if o.None? || o.value in prev then prev else prev + [o.value]
  }

  /** The roles found are exactly the roles of the axioms. */
  lemma {:induction false} FoundRolesFor(axs: seq<RenderedAxiom>)
    ensures forall x :: x in FoundRoles(axs) <==> Extracted(axs, x)
  {
    if axs != [] {
      var init := axs[..|axs| - 1];
      FoundRolesFor(init);
      ExtractedSnoc(init, axs[|axs| - 1]);
      assert init + [axs[|axs| - 1]] == axs;
    }
  }

  lemma FoundRolesSnoc(axs: seq<RenderedAxiom>, ax: RenderedAxiom)
    ensures FoundRoles(axs + [ax])
            == match RoleOf(ax.symbolic)
               case None => FoundRoles(axs)
               case Some(role) => if role in FoundRoles(axs) then FoundRoles(axs) else FoundRoles(axs) + [role]
  {
    assert (axs + [ax])[..|axs|] == axs;
  }

  lemma FoundRolesCoverRoleSet(axs: seq<RenderedAxiom>)
    ensures (set x | x in FoundRoles(axs)) == RoleSet(axs)
  {
    FoundRolesFor(axs);
    forall x | x in RoleSet(axs) ensures x in FoundRoles(axs) {
      var i :| 0 <= i < |axs| && RoleOf(axs[i].symbolic).Some? && RoleOf(axs[i].symbolic).value == x;
      assert Extracted(axs, x);
    }
  }

  /** The name of the super-role of `role`. */
  function SuperRole(role: string): string {
    "superOf" + Capitalize(role)
  }

  /** The role-hierarchy axiom synthesised for `role`. */
  function HierarchyAxiom(role: string): RenderedAxiom {
    RenderedAxiom(role + " ⊑ " + SuperRole(role),
                  "SubObjectPropertyOf(" + role + " " + SuperRole(role) + ")")
  }

  /** The axioms synthesised for `roles`, one each, in the same order. */
  function Hierarchy(roles: seq<string>): (r: seq<RenderedAxiom>)
    ensures |r| == |roles| && forall k :: 0 <= k < |roles| ==> r[k] == HierarchyAxiom(roles[k])
  {
    seq(|roles|, k requires 0 <= k < |roles| => HierarchyAxiom(roles[k]))
  }

  lemma HierarchySnoc(roles: seq<string>, role: string)
    ensures Hierarchy(roles + [role]) == Hierarchy(roles) + [HierarchyAxiom(role)]
  {
  }

  /** Different roles get different synthesised axioms. */
  lemma HierarchyAxiomInjective(r1: string, r2: string)
    requires HierarchyAxiom(r1) == HierarchyAxiom(r2)
    ensures r1 == r2
  {
    var s1, s2 := HierarchyAxiom(r1).symbolic, HierarchyAxiom(r2).symbolic;
    assert |s1| == 2 * |r1| + 10;
    assert |s2| == 2 * |r2| + 10;
    assert s1[..|r1|] == r1;
    assert s2[..|r2|] == r2;
  }

  lemma HierarchyNoDup(roles: seq<string>)
    requires NoDup(roles)
    ensures NoDup(Hierarchy(roles))
  {
    forall i, j | 0 <= i < j < |roles| ensures Hierarchy(roles)[i] != Hierarchy(roles)[j] {
      if HierarchyAxiom(roles[i]) == HierarchyAxiom(roles[j]) {
        HierarchyAxiomInjective(roles[i], roles[j]);
      }
    }
  }

  /** The extended test case: the original axioms followed by the
      hierarchy axioms of the roles found, and the profile relabelled. */
  function Extended(tc: TestCase): TestCase {
    var roles := FoundRoles(tc.axioms);
    TestCase(tc.fields[ProfileKey := if |roles| > 0 then ELH else EL],
             tc.axioms + Hierarchy(roles))
  }

  /** The original axioms are an unchanged prefix of the new list. */
  lemma ExtendedKeepsAxioms(tc: TestCase)
    ensures |Extended(tc).axioms| >= |tc.axioms|
    ensures Extended(tc).axioms[..|tc.axioms|] == tc.axioms
  {
  }

  /** After the originals come as many axioms as there are distinct roles. */
  lemma ExtendedCount(tc: TestCase)
    ensures |Extended(tc).axioms| == |tc.axioms| + |RoleSet(tc.axioms)|
  {
    FoundRolesCoverRoleSet(tc.axioms);
    NoDupCardinality(FoundRoles(tc.axioms));
  }

  /** The hierarchy axioms of a role list are those of its roles. */
  lemma HierarchyMembers(roles: seq<string>, rs: set<string>)
    requires (set x | x in roles) == rs
    ensures forall a :: a in Hierarchy(roles) <==> exists r :: r in rs && a == HierarchyAxiom(r)
  {
    var h := Hierarchy(roles);
    forall a | a in h
      ensures exists r :: r in rs && a == HierarchyAxiom(r)
    {
      var k :| 0 <= k < |roles| && h[k] == a;
      assert roles[k] in rs;
    }
    forall r | r in rs
      ensures HierarchyAxiom(r) in h
    {
      var k :| 0 <= k < |roles| && roles[k] == r;
      assert h[k] == HierarchyAxiom(r);
    }
  }

  /** The appended axioms are exactly the hierarchy axioms of the distinct
      roles. */
  lemma ExtendedAppendsHierarchy(tc: TestCase)
    ensures forall a :: a in Extended(tc).axioms[|tc.axioms|..]
                        <==> exists r :: r in RoleSet(tc.axioms) && a == HierarchyAxiom(r)
  {
    var roles := FoundRoles(tc.axioms);
    FoundRolesCoverRoleSet(tc.axioms);
    HierarchyMembers(roles, RoleSet(tc.axioms));
    var ax := Extended(tc).axioms;
    assert ax == tc.axioms + Hierarchy(roles);
    assert ax[|tc.axioms|..] == Hierarchy(roles);
  }

  /** No hierarchy axiom is appended twice. */
  lemma ExtendedAppendsEachOnce(tc: TestCase)
    ensures NoDup(Extended(tc).axioms[|tc.axioms|..])
  {
    var roles := FoundRoles(tc.axioms);
    var h := Hierarchy(roles);
    HierarchyNoDup(roles);
    var ax := Extended(tc).axioms;
    assert ax == tc.axioms + h;
    assert ax[|tc.axioms|..] == h;
  }

  /** The profile is `ELH` exactly when a role was found, whatever it was
      before; every other field is copied. */
  lemma ExtendedFields(tc: TestCase)
    ensures ProfileKey in Extended(tc).fields
    ensures Extended(tc).fields[ProfileKey] == if RoleSet(tc.axioms) == {} then EL else ELH
    ensures Extended(tc).fields.Keys == tc.fields.Keys + {ProfileKey}
    ensures forall k :: k in tc.fields && k != ProfileKey ==> Extended(tc).fields[k] == tc.fields[k]
  {
    var roles := FoundRoles(tc.axioms);
    FoundRolesCoverRoleSet(tc.axioms);
    assert Extended(tc).fields == tc.fields[ProfileKey := if |roles| > 0 then ELH else EL];
    RelabelledProfile(roles, RoleSet(tc.axioms));
  }

  /** The flag is raised exactly when the set of roles is non-empty. */
  lemma RelabelledProfile(roles: seq<string>, rs: set<string>)
    requires (set x | x in roles) == rs
    ensures (if |roles| > 0 then ELH else EL) == if rs == {} then EL else ELH
  {
    if |roles| > 0 {
      assert roles[0] in rs;
    }
  }

  /** The role extraction of the first loop's body: records the role of
      one symbolic text in the roles found so far. */
  method CollectRole(foundRoles: seq<string>, symbolic: string) returns (found: seq<string>)
    ensures found == match RoleOf(symbolic)
                     case None => foundRoles
                     case Some(role) => if role in foundRoles then foundRoles else foundRoles + [role]
  {
    found := foundRoles;
    if ExistsGlyph in symbolic {
      var start := IndexOf(symbolic, ExistsGlyph, 0) + 1;
      var dot := IndexOf(symbolic, '.', start);
      RoleOfAt(symbolic, start, dot);
      if dot > start {
        var role := Trim(symbolic[start..dot]);
        if role !in found {
          found := found + [role];
        }
      }
    } else {
      RoleOfAbsent(symbolic);
    }
  }

  /** The first loop of main's per-test-case body: copies each axiom and
      collects its role. */
  method CollectRoles(axioms: seq<RenderedAxiom>) returns (modifiedAxioms: seq<RenderedAxiom>, foundRoles: seq<string>)
    ensures modifiedAxioms == axioms
    ensures foundRoles == FoundRoles(axioms)
  {
    modifiedAxioms := [];
    foundRoles := [];
    var i := 0;
    assert axioms[..0] == [];
    while i < |axioms|
      invariant 0 <= i <= |axioms|
      invariant modifiedAxioms == axioms[..i]
      invariant foundRoles == FoundRoles(axioms[..i])
    {
      var ax := axioms[i];
      assert axioms[..i + 1] == axioms[..i] + [ax];
      FoundRolesSnoc(axioms[..i], ax);
      modifiedAxioms := modifiedAxioms + [ax];
      foundRoles := CollectRole(foundRoles, ax.symbolic);
      i := i + 1;
    }
    assert axioms[..|axioms|] == axioms;
  }

  /** The second loop: appends one hierarchy axiom per role found and
      raises the flag when it appends any. */
  method AppendHierarchy(modifiedAxioms: seq<RenderedAxiom>, foundRoles: seq<string>)
    returns (extended: seq<RenderedAxiom>, isELH: bool)
    ensures extended == modifiedAxioms + Hierarchy(foundRoles)
    ensures isELH <==> |foundRoles| > 0
  {
    extended := modifiedAxioms;
    isELH := false;
    var j := 0;
    while j < |foundRoles|
      invariant 0 <= j <= |foundRoles|
      invariant extended == modifiedAxioms + Hierarchy(foundRoles[..j])
      invariant isELH <==> j > 0
    {
      var role := foundRoles[j];
      var superRole := "superOf" + Capitalize(role);
      var symbolic := role + " ⊑ " + superRole;
      var ax := RenderedAxiom(symbolic, "SubObjectPropertyOf(" + role + " " + superRole + ")");
      assert foundRoles[..j + 1] == foundRoles[..j] + [role];
      HierarchySnoc(foundRoles[..j], role);
      extended := extended + [ax];
      isELH := true;
      j := j + 1;
    }
    assert foundRoles[..|foundRoles|] == foundRoles;
  }

  /** The per-test-case body of main: the two loops, then the profile
      relabelled by the flag. */
  method ExtendCase(tc: TestCase) returns (out: TestCase)
    ensures out == Extended(tc)
  {
    var modifiedAxioms, foundRoles := CollectRoles(tc.axioms);
    var extended, isELH := AppendHierarchy(modifiedAxioms, foundRoles);
    out := TestCase(tc.fields[ProfileKey := if isELH then ELH else EL], extended);
  }

  /** main: one extended test case per input test case, in order. */
  method Extend(input: seq<TestCase>) returns (output: seq<TestCase>)
    ensures |output| == |input|
    ensures forall k :: 0 <= k < |input| ==> output[k] == Extended(input[k])
  {
    output := [];
    ghost var target := seq(|input|, k requires 0 <= k < |input| => Extended(input[k]));
    var i := 0;
    while i < |input|
      invariant 0 <= i <= |input|
      invariant output == target[..i]
    {
      var extended := ExtendCase(input[i]);
      assert target[..i + 1] == target[..i] + [extended];
      output := output + [extended];
      i := i + 1;
    }
    assert target[..|input|] == target;
  }

  /** A synthesised axiom holds no `∃` unless its role does, so it yields
      no role when scanned again. */
  lemma HierarchyAxiomHasNoRole(role: string)
    requires ExistsGlyph !in role
    ensures RoleOf(HierarchyAxiom(role).symbolic) == None
  {
    var sym := HierarchyAxiom(role).symbolic;
    var c := Capitalize(role);
    assert ExistsGlyph !in c by {
      if role != [] {
        assert c == [ToUpper(role[0])] + role[1..];
        assert role == [role[0]] + role[1..];
      }
    }
    assert sym == role + " ⊑ " + "superOf" + c;
    assert ExistsGlyph !in sym;
  }

  /** Axioms that yield no role add nothing to the roles found. */
  lemma {:induction false} FoundRolesAppendNone(a: seq<RenderedAxiom>, b: seq<RenderedAxiom>)
    requires forall k :: 0 <= k < |b| ==> RoleOf(b[k].symbolic).None?
    ensures FoundRoles(a + b) == FoundRoles(a)
    decreases |b|
  {
    if b == [] {
      assert a + b == a;
    } else {
      var init := b[..|b| - 1];
      assert (a + b)[..|a + b| - 1] == a + init;
      assert (a + b)[|a + b| - 1] == b[|b| - 1];
      FoundRolesAppendNone(a, init);
    }
  }

  /** A case whose one axiom carries the role `r` gains exactly the
      hierarchy axiom of `r` and becomes ELH. */
  lemma ExtendedSingle(fields: map<string, string>, ax: RenderedAxiom, r: string)
    requires RoleOf(ax.symbolic) == Some(r)
    ensures Extended(TestCase(fields, [ax])) == TestCase(fields[ProfileKey := ELH], [ax, HierarchyAxiom(r)])
  {
    assert FoundRoles([ax]) == [r] by {
      assert [ax][..0] == [];
    }
    assert Hierarchy([r]) == [HierarchyAxiom(r)];
    assert [ax] + [HierarchyAxiom(r)] == [ax, HierarchyAxiom(r)];
  }

  /** Extending twice appends every hierarchy axiom a second time: the
      copied axioms keep the original `∃` axioms, whose roles are found
      again, and a role's hierarchy axiom is appended without looking for
      one already there. The extension is not idempotent once a role is
      found. */
  lemma SecondPassRepeats(tc: TestCase)
    requires forall r :: r in RoleSet(tc.axioms) ==> ExistsGlyph !in r
    ensures Extended(Extended(tc)).axioms
            == tc.axioms + Hierarchy(FoundRoles(tc.axioms)) + Hierarchy(FoundRoles(tc.axioms))
    ensures RoleSet(tc.axioms) != {} ==> Extended(Extended(tc)) != Extended(tc)
  {
    var roles := FoundRoles(tc.axioms);
    var h := Hierarchy(roles);
    FoundRolesCoverRoleSet(tc.axioms);
    forall k | 0 <= k < |h| ensures RoleOf(h[k].symbolic).None? {
      assert roles[k] in RoleSet(tc.axioms);
      HierarchyAxiomHasNoRole(roles[k]);
    }
    FoundRolesAppendNone(tc.axioms, h);
    assert Extended(tc).axioms == tc.axioms + h;
  }
}
