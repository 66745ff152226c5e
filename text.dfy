/** String primitives of the two host languages, as the pipeline uses them:
    java.lang.String's indexOf, trim, replace and toUpperCase on one
    character, Integer.toString and Integer.parseInt, and Python's
    str.lower and str.strip. Strings are sequences of characters. */
module Text {

  datatype Option<T> = None | Some(value: T)

  /** No element occurs twice. */
  predicate NoDup<T(==)>(s: seq<T>) {
    forall i, j :: 0 <= i < j < |s| ==> s[i] != s[j]
  }

  lemma {:induction false} NoDupCardinality<T>(s: seq<T>)
    requires NoDup(s)
    ensures |set x | x in s| == |s|
  {
    if s != [] {
      var init := s[..|s| - 1];
      assert NoDup(init);
      NoDupCardinality(init);
      assert (set x | x in s) == (set x | x in init) + {s[|s| - 1]};
      assert s[|s| - 1] !in init;
    }
  }

  // ---------------------------------------------------------------------
  // java.lang.String

  /** String.indexOf(c, from): the first position at or after `from` that
      holds `c`, or -1 when there is none. */
  function IndexOf(s: string, c: char, from: nat): (r: int)
    ensures r == -1 || from <= r < |s|
    ensures r == -1 ==> forall k :: from <= k < |s| ==> s[k] != c
    ensures r != -1 ==> s[r] == c && forall k :: from <= k < r ==> s[k] != c
    decreases |s| - from
  {
    if from >= |s| then -1
    else if s[from] == c then from
    else IndexOf(s, c, from + 1)
  }

  /** The characters String.trim removes: every code point up to U+0020. */
  predicate IsJavaBlank(c: char) {
    c <= ' '
  }

  function TrimStart(s: string): (r: string)
    ensures |r| <= |s| && r == s[|s| - |r|..]
    ensures r == [] || !IsJavaBlank(r[0])
    ensures forall k :: 0 <= k < |s| - |r| ==> IsJavaBlank(s[k])
  {
    if s != [] && IsJavaBlank(s[0]) then TrimStart(s[1..]) else s
  }

  function TrimEnd(s: string): (r: string)
    ensures |r| <= |s| && r == s[..|r|]
    ensures r == [] || !IsJavaBlank(r[|r| - 1])
    ensures forall k :: |r| <= k < |s| ==> IsJavaBlank(s[k])
  {
    if s != [] && IsJavaBlank(s[|s| - 1]) then TrimEnd(s[..|s| - 1]) else s
  }

  /** String.trim: drop the leading and trailing blanks. */
  function Trim(s: string): string {
    TrimEnd(TrimStart(s))
  }

  /** Trimming a string that has no blank at either end gives it back. */
  lemma TrimTrimmed(s: string)
    requires s == [] || (!IsJavaBlank(s[0]) && !IsJavaBlank(s[|s| - 1]))
    ensures Trim(s) == s
  {
  }

  /** Trimming only ever removes characters. */
  lemma TrimSubset(s: string, c: char)
    requires c !in s
    ensures c !in Trim(s)
  {
    var t := TrimStart(s);
    forall k | 0 <= k < |t| ensures t[k] != c {
      assert t[k] == s[|s| - |t| + k];
    }
    var u := TrimEnd(t);
    forall k | 0 <= k < |u| ensures u[k] != c {
      assert u[k] == t[k];
    }
  }

  /** Character.toUpperCase, for the ASCII letters only. */
  function ToUpper(c: char): (u: char)
    ensures 'a' <= c <= 'z' ==> 'A' <= u <= 'Z'
    ensures !('a' <= c <= 'z') ==> u == c
  {
    if 'a' <= c <= 'z' then (c as int - 32) as char else c
  }

  /** `from` occurs in `s` starting at position `p`. */
  predicate OccursAt(s: string, p: nat, from: string) {
    p + |from| <= |s| && s[p..p + |from|] == from
  }

  /** String.replace(from, to) for a non-empty `from`: scanning from the
      left, every non-overlapping occurrence of `from` is replaced by `to`. */
  function ReplaceAll(s: string, from: string, to: string): string
    requires from != []
    decreases |s|
  {
    if s == [] then []
    else if OccursAt(s, 0, from) then to + ReplaceAll(s[|from|..], from, to)
    else [s[0]] + ReplaceAll(s[1..], from, to)
  }

  /** An occurrence at the front is replaced and the scan resumes after it. */
  lemma ReplaceHead(from: string, to: string, t: string)
    requires from != []
    ensures ReplaceAll(from + t, from, to) == to + ReplaceAll(t, from, to)
  {
    assert OccursAt(from + t, 0, from);
    assert (from + t)[|from|..] == t;
  }

  /** A prefix in which no occurrence starts is copied unchanged. */
  lemma {:induction false} ReplaceSkip(a: string, t: string, from: string, to: string)
    requires from != []
    requires forall p :: 0 <= p < |a| ==> !OccursAt(a + t, p, from)
    ensures ReplaceAll(a + t, from, to) == a + ReplaceAll(t, from, to)
  {
    if a != [] {
      var u := a + t;
      var v := a[1..] + t;
      assert u[1..] == v;
      assert !OccursAt(u, 0, from);
      forall p | 0 <= p < |a[1..]|
        ensures !OccursAt(v, p, from)
      {
        assert !OccursAt(u, p + 1, from);
        if p + |from| <= |v| {
          assert v[p..p + |from|] == u[p + 1..p + 1 + |from|];
        }
      }
      ReplaceSkip(a[1..], t, from, to);
      calc {
        ReplaceAll(u, from, to);
        [u[0]] + ReplaceAll(v, from, to);
        [a[0]] + (a[1..] + ReplaceAll(t, from, to));
        { assert a == [a[0]] + a[1..]; }
        a + ReplaceAll(t, from, to);
      }
    } else {
      assert a + t == t;
    }
  }

  /** When `from` starts with a character `a` does not contain, no
      occurrence can start inside `a`. */
  lemma ReplaceSkipChar(a: string, t: string, from: string, to: string)
    requires from != [] && from[0] !in a
    ensures ReplaceAll(a + t, from, to) == a + ReplaceAll(t, from, to)
  {
    forall p | 0 <= p < |a| ensures !OccursAt(a + t, p, from) {
      assert (a + t)[p] == a[p] != from[0];
      if p + |from| <= |a + t| {
        assert (a + t)[p..p + |from|][0] == (a + t)[p];
      }
    }
    ReplaceSkip(a, t, from, to);
  }

  /** Rewriting skips a prefix without the phrase's first character, a
      character where the phrase does not start, and a second such piece,
      then replaces the phrase that follows. */
  lemma ReplaceAfter(p: string, h: char, left: string, from: string, to: string, right: string)
    requires from != [] && from[0] !in p && from[0] !in left
    requires !OccursAt([h] + (left + (from + right)), 0, from)
    ensures ReplaceAll(p + ([h] + (left + (from + right))), from, to)
            == p + ([h] + (left + (to + ReplaceAll(right, from, to))))
  {
    ReplaceSkipChar(p, [h] + (left + (from + right)), from, to);
    ReplaceSkip([h], left + (from + right), from, to);
    ReplaceSkipChar(left, from + right, from, to);
    ReplaceHead(from, to, right);
  }

  /** Whether `from` occurs at `p` depends only on the prefix that holds
      the window. */
  lemma OccursPrefix(a: string, b: string, p: nat, from: string)
    requires p + |from| <= |a|
    ensures OccursAt(a + b, p, from) == OccursAt(a, p, from)
  {
    assert (a + b)[p..p + |from|] == a[p..p + |from|];
  }

  /** Rewriting a concatenation rewrites each part on its own when no
      occurrence of `from` straddles the boundary. */
  lemma {:induction false} ReplaceConcat(a: string, b: string, from: string, to: string)
    requires from != []
    requires forall p :: 0 <= p < |a| < p + |from| ==> !OccursAt(a + b, p, from)
    ensures ReplaceAll(a + b, from, to) == ReplaceAll(a, from, to) + ReplaceAll(b, from, to)
    decreases |a|
  {
    var s := a + b;
    if a == [] {
      assert s == b;
    } else {
      var n := if OccursAt(s, 0, from) then |from| else 1;
      if OccursAt(s, 0, from) {
        assert |from| <= |a|;
      }
      if |from| <= |a| {
        OccursPrefix(a, b, 0, from);
      }
      assert n <= |a|;
      var a' := a[n..];
      DropConcat(a, b, n);
      forall p | 0 <= p < |a'| < p + |from| ensures !OccursAt(a' + b, p, from) {
        assert !OccursAt(s, p + n, from);
        if p + |from| <= |a' + b| {
          SliceShift(s, n, p, |from|);
        }
      }
      ReplaceConcat(a', b, from, to);
    }
  }

  lemma DropConcat(a: string, b: string, n: nat)
    requires n <= |a|
    ensures (a + b)[n..] == a[n..] + b
  {
  }

  lemma SliceShift(s: string, n: nat, p: nat, len: nat)
    requires n + p + len <= |s|
    ensures s[n..][p..p + len] == s[n + p..n + p + len]
  {
  }

  /** A character that does not occur in `from` separates the rewriting:
      each side is rewritten on its own and the character is kept. */
  lemma ReplaceAround(x: string, c: char, y: string, from: string, to: string)
    requires from != [] && c !in from
    ensures ReplaceAll(x + [c] + y, from, to) == ReplaceAll(x, from, to) + [c] + ReplaceAll(y, from, to)
  {
    var s := x + ([c] + y);
    forall p | 0 <= p < |x| < p + |from| ensures !OccursAt(s, p, from) {
      if p + |from| <= |s| {
        assert s[p..p + |from|][|x| - p] == c;
      }
    }
    ReplaceConcat(x, [c] + y, from, to);
    ReplaceSkipChar([c], y, from, to);
    assert x + [c] + y == s;
  }

  /** Four parts joined by a character `from` lacks are each rewritten on
      their own. */
  lemma ReplaceJoined(i: string, a: string, v: string, t: string, c: char, from: string, to: string)
    requires from != [] && c !in from
    ensures ReplaceAll(i + [c] + a + [c] + v + [c] + t, from, to)
            == ReplaceAll(i, from, to) + [c] + ReplaceAll(a, from, to) + [c]
               + ReplaceAll(v, from, to) + [c] + ReplaceAll(t, from, to)
  {
    var t2 := v + [c] + t;
    var t1 := a + [c] + t2;
    JoinRegroup(i, a, v, t, c);
    ReplaceAround(v, c, t, from, to);
    ReplaceAround(a, c, t2, from, to);
    ReplaceAround(i, c, t1, from, to);
    JoinRegroup(ReplaceAll(i, from, to), ReplaceAll(a, from, to), ReplaceAll(v, from, to), ReplaceAll(t, from, to), c);
  }

  lemma JoinRegroup(i: string, a: string, v: string, t: string, c: char)
    ensures i + [c] + a + [c] + v + [c] + t == i + [c] + (a + [c] + (v + [c] + t))
  {
  }

  /** A string framed by a character that neither starts nor ends `from`
      is rewritten inside the frame. */
  lemma ReplaceFramed(a: string, c: char, from: string, to: string)
    requires from != [] && from[0] != c && from[|from| - 1] != c
    ensures ReplaceAll([c] + a + [c], from, to) == [c] + ReplaceAll(a, from, to) + [c]
  {
    forall p | 0 <= p < |a| < p + |from| ensures !OccursAt(a + [c], p, from) {
      if p + |from| <= |a + [c]| {
        assert (a + [c])[p..p + |from|][|from| - 1] == (a + [c])[|a|] == c;
      }
    }
    ReplaceConcat(a, [c], from, to);
    ReplaceAbsent([c], from, to);
    ReplaceSkipChar([c], a + [c], from, to);
    assert [c] + a + [c] == [c] + (a + [c]);
  }

  /** Rewriting a text that opens with `from`, followed by a framed part, a
      word `v` that `from` does not touch and a tail: the opening is
      replaced and the framed part and the tail are rewritten on their own. */
  lemma ReplaceOpening(from: string, to: string, a: string, v: string, t: string, c: char)
    requires from != [] && v != []
    requires from[0] != c && from[|from| - 1] != c && v[0] !in from && from[0] !in v
    ensures ReplaceAll(from + [c] + a + [c] + v + [c] + t, from, to)
            == to + [c] + ReplaceAll(a, from, to) + [c] + v + [c] + ReplaceAll(t, from, to)
  {
    var x, y := [c] + a + [c], v[1..] + [c] + t;
    OpeningRegroup(from, a, v, t, c);
    ReplaceHead(from, to, x + [v[0]] + y);
    ReplaceAround(x, v[0], y, from, to);
    ReplaceFramed(a, c, from, to);
    assert from[0] !in v[1..] + [c] by {
      forall k | 0 <= k < |v| - 1 ensures (v[1..] + [c])[k] != from[0] {
        assert (v[1..] + [c])[k] == v[k + 1];
      }
    }
    ReplaceSkipChar(v[1..] + [c], t, from, to);
    OpeningRegroup(to, ReplaceAll(a, from, to), v, ReplaceAll(t, from, to), c);
  }

  lemma OpeningRegroup(o: string, a: string, v: string, t: string, c: char)
    requires v != []
    ensures o + [c] + a + [c] + v + [c] + t == o + (([c] + a + [c]) + [v[0]] + (v[1..] + [c] + t))
  {
    assert v == [v[0]] + v[1..];
  }

  /** `from` occurs nowhere in `s`. */
  predicate NoOccurrence(s: string, from: string) {
    forall p :: 0 <= p < |s| ==> !OccursAt(s, p, from)
  }

  /** A string without the first character of `from` holds no occurrence. */
  lemma NoOccurrenceChar(s: string, from: string)
    requires from != [] && from[0] !in s
    ensures NoOccurrence(s, from)
  {
    forall p | 0 <= p < |s| ensures !OccursAt(s, p, from) {
      if p + |from| <= |s| {
        assert s[p..p + |from|][0] == s[p];
      }
    }
  }

  /** A string without the first character of `from` is left unchanged. */
  lemma ReplaceAbsent(s: string, from: string, to: string)
    requires from != [] && from[0] !in s
    ensures ReplaceAll(s, from, to) == s
  {
    ReplaceSkipChar(s, [], from, to);
    assert s + [] == s;
  }

  /** A string that `from` does not occur in is left unchanged. */
  lemma {:induction false} ReplaceNoOccurrence(s: string, from: string, to: string)
    requires from != []
    requires forall p :: 0 <= p < |s| ==> !OccursAt(s, p, from)
    ensures ReplaceAll(s, from, to) == s
  {
    assert s + [] == s;
    ReplaceSkip(s, [], from, to);
  }

  // ---------------------------------------------------------------------
  // Decimal numerals: Integer.toString and Integer.parseInt

  predicate IsDigit(c: char) {
    '0' <= c <= '9'
  }

  function DigitChar(d: nat): (c: char)
    requires d < 10
    ensures IsDigit(c) && c as int - '0' as int == d
  {
    ('0' as int + d) as char
  }

  /** The value of a string of decimal digits. */
  function DigitsValue(s: string): nat
    requires forall k :: 0 <= k < |s| ==> IsDigit(s[k])
  {
    if s == [] then 0
    else
      assert IsDigit(s[|s| - 1]);
      DigitsValue(s[..|s| - 1]) * 10 + (s[|s| - 1] as int - '0' as int)
  }

  /** Integer.toString of a non-negative value: its decimal numeral,
      without sign or leading zeros. */
  function NatToString(n: nat): (r: string)
    ensures |r| >= 1
    decreases n
  {
    if n < 10 then [DigitChar(n)]
    else NatToString(n / 10) + [DigitChar(n % 10)]
  }

  /** The numeral is made of digits and reads back as the value. */
  lemma {:induction false} NatToStringDigits(n: nat)
    ensures forall k :: 0 <= k < |NatToString(n)| ==> IsDigit(NatToString(n)[k])
    ensures DigitsValue(NatToString(n)) == n
    decreases n
  {
    if n >= 10 {
      NatToStringDigits(n / 10);
      var init := NatToString(n / 10);
      var r := init + [DigitChar(n % 10)];
      assert r[..|r| - 1] == init;
    }
  }

  /** Distinct values have distinct numerals. */
  lemma NatToStringInjective(a: nat, b: nat)
    requires a != b
    ensures NatToString(a) != NatToString(b)
  {
    NatToStringDigits(a);
    NatToStringDigits(b);
  }

  const IntMin: int := -0x8000_0000
  const IntMax: int := 0x7FFF_FFFF

  /** Integer.parseInt(s): an optional '+' or '-' followed by at least
      one decimal digit, whose value fits in 32 bits; anything else
      raises NumberFormatException, modelled as None. */
  function ParseInt(s: string): (r: Option<int>)
    ensures r.Some? ==> IntMin <= r.value <= IntMax
  {
    var neg := s != [] && s[0] == '-';
    var digits := if s != [] && (s[0] == '-' || s[0] == '+') then s[1..] else s;
    if digits == [] || exists k :: 0 <= k < |digits| && !IsDigit(digits[k]) then None
    else
      var v: int := if neg then -(DigitsValue(digits) as int) else DigitsValue(digits);
      if IntMin <= v <= IntMax then Some(v) else None
  }

  /** parseInt reads back what toString wrote. */
  lemma ParseNatToString(n: nat)
    requires n <= IntMax
    ensures ParseInt(NatToString(n)) == Some(n)
  {
    var s := NatToString(n);
    NatToStringDigits(n);
    assert IsDigit(s[0]);
  }

  // ---------------------------------------------------------------------
  // Python str.lower and str.strip

  /** str.lower, for the ASCII letters only. */
  function PyLowerChar(c: char): (l: char)
    ensures 'A' <= c <= 'Z' ==> 'a' <= l <= 'z'
    ensures !('A' <= c <= 'Z') ==> l == c
  {
    if 'A' <= c <= 'Z' then (c as int + 32) as char else c
  }

  function PyLower(s: string): (r: string)
    ensures |r| == |s| && forall k :: 0 <= k < |s| ==> r[k] == PyLowerChar(s[k])
  {
    seq(|s|, k requires 0 <= k < |s| => PyLowerChar(s[k]))
  }

  /** The characters for which str.isspace holds. */
  predicate PySpace(c: char) {
    c == ' ' || '\t' <= c <= '\r' || '\U{1c}' <= c <= '\U{1f}'
    || c == '\U{85}' || c == '\U{a0}' || c == '\U{1680}'
    || '\U{2000}' <= c <= '\U{200a}' || c == '\U{2028}' || c == '\U{2029}'
    || c == '\U{202f}' || c == '\U{205f}' || c == '\U{3000}'
  }

  function PyStripStart(s: string): (r: string)
    ensures |r| <= |s| && r == s[|s| - |r|..]
    ensures r == [] || !PySpace(r[0])
    ensures forall k :: 0 <= k < |s| - |r| ==> PySpace(s[k])
  {
    if s != [] && PySpace(s[0]) then PyStripStart(s[1..]) else s
  }

  function PyStripEnd(s: string): (r: string)
    ensures |r| <= |s| && r == s[..|r|]
    ensures r == [] || !PySpace(r[|r| - 1])
    ensures forall k :: |r| <= k < |s| ==> PySpace(s[k])
  {
    if s != [] && PySpace(s[|s| - 1]) then PyStripEnd(s[..|s| - 1]) else s
  }

  /** str.strip() with no argument. */
  function PyStrip(s: string): string {
    PyStripEnd(PyStripStart(s))
  }

  /** A string that neither starts nor ends with a space is its own strip. */
  lemma PyStripUnpadded(s: string)
    requires s != [] && !PySpace(s[0]) && !PySpace(s[|s| - 1])
    ensures PyStrip(s) == s
  {
  }

  /** Lower-casing keeps a character a space or not a space. */
  lemma PyLowerSpace(c: char)
    ensures PySpace(PyLowerChar(c)) == PySpace(c)
  {
  }

  lemma {:induction false} PyLowerStripStart(s: string)
    ensures PyStripStart(PyLower(s)) == PyLower(PyStripStart(s))
  {
    if s != [] {
      PyLowerSpace(s[0]);
      assert PyLower(s)[1..] == PyLower(s[1..]);
      if PySpace(s[0]) {
        PyLowerStripStart(s[1..]);
      }
    }
  }

  lemma {:induction false} PyLowerStripEnd(s: string)
    ensures PyStripEnd(PyLower(s)) == PyLower(PyStripEnd(s))
  {
    if s != [] {
      PyLowerSpace(s[|s| - 1]);
      assert PyLower(s)[..|s| - 1] == PyLower(s[..|s| - 1]);
      if PySpace(s[|s| - 1]) {
        PyLowerStripEnd(s[..|s| - 1]);
      }
    }
  }

  /** `s.lower().strip()` and `s.strip().lower()` agree, so the two
      evaluation scripts, which normalise in opposite orders, match
      answers the same way. */
  lemma LowerStripCommute(s: string)
    ensures PyStrip(PyLower(s)) == PyLower(PyStrip(s))
  {
    PyLowerStripStart(s);
    PyLowerStripEnd(PyStripStart(s));
  }
}
