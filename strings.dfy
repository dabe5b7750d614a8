/**
 * The string operations of Rust's standard library that both programs rely
 * on: `starts_with`, `ends_with` and the total order of `Ord for str`.
 *
 * Strings are sequences of Unicode scalar values. Comparing the UTF-8
 * encodings byte by byte, as Rust does, orders strings exactly as comparing
 * their scalar values one by one, so the order is stated on characters.
 */
module Strings {

  /** `s.starts_with(prefix)`: the first characters of `s` are those of `prefix`. */
  predicate StartsWith(s: string, prefix: string): (r: bool)
    ensures r <==> |prefix| <= |s| && forall i :: 0 <= i < |prefix| ==> s[i] == prefix[i]
  {
    prefix <= s
  }

  /** `s.ends_with(suffix)`: the last characters of `s` are those of `suffix`. */
  predicate EndsWith(s: string, suffix: string): (r: bool)
    ensures r <==> |suffix| <= |s| && forall i :: 0 <= i < |suffix| ==> s[|s| - |suffix| + i] == suffix[i]
  {
    |suffix| <= |s| && s[|s| - |suffix|..] == suffix
  }

  /**
   * `a <= b` in lexicographic order: `a` is a prefix of `b`, or at the first
   * position where they differ `a` has the smaller character.
   */
  predicate LexLe(a: string, b: string): (r: bool)
    // a prefix comes first, and a string never comes before its own proper prefix
    ensures a <= b ==> r
    ensures b < a ==> !r
  {
    a == [] || (b != [] && (a[0] < b[0] || (a[0] == b[0] && LexLe(a[1..], b[1..]))))
  }

  lemma {:induction false} LexLeReflexive(a: string)
    ensures LexLe(a, a)
  {
    if a != [] {
      LexLeReflexive(a[1..]);
    }
  }

  lemma {:induction false} LexLeTotal(a: string, b: string)
    ensures LexLe(a, b) || LexLe(b, a)
  {
    if a != [] && b != [] && a[0] == b[0] {
      LexLeTotal(a[1..], b[1..]);
    }
  }

  lemma {:induction false} LexLeAntisymmetric(a: string, b: string)
    requires LexLe(a, b) && LexLe(b, a)
    ensures a == b
  {
    if a != [] {
      LexLeAntisymmetric(a[1..], b[1..]);
      assert a == [a[0]] + a[1..] && b == [b[0]] + b[1..];
    }
  }

  lemma {:induction false} LexLeTransitive(a: string, b: string, c: string)
    requires LexLe(a, b) && LexLe(b, c)
    ensures LexLe(a, c)
  {
    if a != [] && a[0] == b[0] && b[0] == c[0] {
      LexLeTransitive(a[1..], b[1..], c[1..]);
    }
  }
}
