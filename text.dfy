/**
 * The parts of `java.lang.String` the register relies on, restricted to ASCII:
 * `isBlank`, `toLowerCase`, `equalsIgnoreCase`, `contains` and `compareTo`.
 */
module Text {

  /** `Character.isWhitespace` on the ASCII range. */
  predicate IsWhitespace(c: char)
  {
    c == ' ' || c == '\t' || c == '\n' || c == '\r' || '\U{0B}' <= c <= '\U{0C}' || '\U{1C}' <= c <= '\U{1F}'
  }

  /** `String.isBlank`: empty or only whitespace. */
  predicate IsBlank(s: string)
    ensures s == [] ==> IsBlank(s)
    ensures (exists i :: 0 <= i < |s| && ('0' <= s[i] <= '9' || 'A' <= s[i] <= 'Z' || 'a' <= s[i] <= 'z')) ==> !IsBlank(s)
  {
    forall i :: 0 <= i < |s| ==> IsWhitespace(s[i])
  }

  function LowerChar(c: char): (d: char)
  {
    if 'A' <= c <= 'Z' then (c as int + 32) as char else c
  }

  /** `String.toLowerCase`, ASCII letters only. */
  function ToLower(s: string): (r: string)
    ensures |r| == |s|
    ensures forall i :: 0 <= i < |r| ==> !('A' <= r[i] <= 'Z')
  {
    seq(|s|, i requires 0 <= i < |s| => LowerChar(s[i]))
  }

  /** `String.equalsIgnoreCase`: same length, and the characters agree pairwise up to case. */
  predicate EqualsIgnoreCase(a: string, b: string)
    ensures a == b ==> EqualsIgnoreCase(a, b)
    ensures EqualsIgnoreCase(a, b) ==> |a| == |b|
  {
    |a| == |b| && forall i :: 0 <= i < |a| ==> a[i] == b[i] || LowerChar(a[i]) == LowerChar(b[i])
  }

  /** Comparing while ignoring case is comparing the lower-cased strings. */
  lemma EqualsIgnoreCaseIsLowerEquality(a: string, b: string)
    ensures EqualsIgnoreCase(a, b) <==> ToLower(a) == ToLower(b)
  {
    if ToLower(a) == ToLower(b) {
      assert |a| == |ToLower(a)| == |ToLower(b)| == |b|;
      forall i | 0 <= i < |a| ensures LowerChar(a[i]) == LowerChar(b[i]) {
        assert ToLower(a)[i] == ToLower(b)[i];
      }
    }
  }

  /** Case-insensitive equality is an equivalence: reflexive, symmetric and transitive. */
  lemma EqualsIgnoreCaseIsEquivalence(a: string, b: string, c: string)
    ensures EqualsIgnoreCase(a, a)
    ensures EqualsIgnoreCase(a, b) ==> EqualsIgnoreCase(b, a)
    ensures EqualsIgnoreCase(a, b) && EqualsIgnoreCase(b, c) ==> EqualsIgnoreCase(a, c)
  {
    EqualsIgnoreCaseIsLowerEquality(a, b);
    EqualsIgnoreCaseIsLowerEquality(b, a);
    EqualsIgnoreCaseIsLowerEquality(b, c);
    EqualsIgnoreCaseIsLowerEquality(a, c);
  }

  /** No two strings of `ns` are equal up to case. */
  predicate DistinctIgnoringCase(ns: seq<string>)
  {
    forall i, j :: 0 <= i < j < |ns| ==> !EqualsIgnoreCase(ns[i], ns[j])
  }

  /** `String.contains`: scans `s` for an occurrence of `t` starting at each position. */
  function Contains(s: string, t: string): (r: bool)
    ensures r <==> exists i :: 0 <= i <= |s| - |t| && t <= s[i..]
  {
    if t <= s then
      assert s[0..] == s;
      true
    else if |s| <= |t| then
      false
    else
      var rest := Contains(s[1..], t);
      assert forall i :: 1 <= i <= |s| - |t| ==> s[i..] == s[1..][i - 1..];
      assert rest ==> exists i :: 1 <= i <= |s| - |t| && t <= s[i..];
      rest
  }

  /** `a.compareTo(b) <= 0`: lexicographic by character code, a proper prefix first. */
  predicate LexLeq(a: string, b: string)
    ensures a <= b ==> LexLeq(a, b)
  {
    if a == [] then true
    else if b == [] then false
    else if a[0] != b[0] then a[0] < b[0]
    else LexLeq(a[1..], b[1..])
  }

  lemma {:induction false} LexLeqReflexive(a: string)
    ensures LexLeq(a, a)
  {
    if a != [] {
      LexLeqReflexive(a[1..]);
    }
  }

  lemma {:induction false} LexLeqAntisymmetric(a: string, b: string)
    requires LexLeq(a, b) && LexLeq(b, a)
    ensures a == b
  {
    if a != [] && b != [] {
      LexLeqAntisymmetric(a[1..], b[1..]);
      assert a == [a[0]] + a[1..];
      assert b == [b[0]] + b[1..];
    }
  }

  lemma {:induction false} LexLeqTransitive(a: string, b: string, c: string)
    requires LexLeq(a, b) && LexLeq(b, c)
    ensures LexLeq(a, c)
  {
    if a != [] && b != [] && c != [] && a[0] == b[0] == c[0] {
      LexLeqTransitive(a[1..], b[1..], c[1..]);
    }
  }

  lemma {:induction false} LexLeqTotal(a: string, b: string)
    ensures LexLeq(a, b) || LexLeq(b, a)
  {
    if a != [] && b != [] && a[0] == b[0] {
      LexLeqTotal(a[1..], b[1..]);
    }
  }
}
