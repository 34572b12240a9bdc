/**
 * JavaScript's relational operators on strings: lexicographic comparison character by character,
 * a proper prefix ordering before its extensions. (Dafny's own `<` on strings is the proper-prefix
 * relation, so the order is defined here.)
 */
module JsString {

  /** `a < b` in JavaScript, compared character by character from the front. */
  predicate Less(a: string, b: string)
    ensures Less(a, b) <==> Lexicographic(a, b)
    decreases |a|
  {
    if b == [] then false
    else if a == [] then (assert SamePrefix(a, b, 0); true)
    else if a[0] != b[0] then (LexicographicHead(a, b); a[0] < b[0])
    else (LexicographicTail(a, b); Less(a[1..], b[1..]))
  }

  /** The lexicographic order in closed form: `a` is a proper prefix of `b`, or at the first index
      where they differ `a` has the smaller character. */
  ghost predicate Lexicographic(a: string, b: string)
  {
    || (|a| < |b| && SamePrefix(a, b, |a|))
    || exists k :: 0 <= k < |a| && k < |b| && SamePrefix(a, b, k) && a[k] < b[k]
  }

  /** `a` and `b` agree on their first `k` characters. */
  ghost predicate SamePrefix(a: string, b: string, k: nat)
    requires k <= |a| && k <= |b|
  {
    forall j :: 0 <= j < k ==> a[j] == b[j]
  }

  /** Strings that differ in their first character are ordered by it. */
  lemma LexicographicHead(a: string, b: string)
    requires a != [] && b != [] && a[0] != b[0]
    ensures Lexicographic(a, b) <==> a[0] < b[0]
  {
    if a[0] < b[0] {
      assert SamePrefix(a, b, 0);
    }
  }

  /** Strings with the same first character are ordered as their tails. */
  lemma LexicographicTail(a: string, b: string)
    requires a != [] && b != [] && a[0] == b[0]
    ensures Lexicographic(a, b) <==> Lexicographic(a[1..], b[1..])
  {
    var a', b' := a[1..], b[1..];
    if exists k :: 0 <= k < |a| && k < |b| && SamePrefix(a, b, k) && a[k] < b[k] {
      var k :| 0 <= k < |a| && k < |b| && SamePrefix(a, b, k) && a[k] < b[k];
      assert 0 <= k - 1 < |a'| && k - 1 < |b'| && SamePrefix(a', b', k - 1) && a'[k - 1] < b'[k - 1];
    }
    if exists k :: 0 <= k < |a'| && k < |b'| && SamePrefix(a', b', k) && a'[k] < b'[k] {
      var k :| 0 <= k < |a'| && k < |b'| && SamePrefix(a', b', k) && a'[k] < b'[k];
      assert 0 <= k + 1 < |a| && k + 1 < |b| && SamePrefix(a, b, k + 1) && a[k + 1] < b[k + 1];
    }
  }

  /** No string is below itself. */
  lemma {:induction false} LessIrreflexive(a: string)
    ensures !Less(a, a)
    decreases |a|
  {
    if a != [] {
      LessIrreflexive(a[1..]);
    }
  }

  /** The order is transitive. */
  lemma {:induction false} LessTransitive(a: string, b: string, c: string)
    requires Less(a, b) && Less(b, c)
    ensures Less(a, c)
    decreases |a|
  {
    if a != [] && a[0] == b[0] && b[0] == c[0] {
      LessTransitive(a[1..], b[1..], c[1..]);
    }
  }

  /** Any two different strings are ordered one way or the other. */
  lemma {:induction false} LessTotal(a: string, b: string)
    requires a != b
    ensures Less(a, b) || Less(b, a)
    decreases |a|
  {
    if a != [] && b != [] && a[0] == b[0] {
      assert a == [a[0]] + a[1..] && b == [b[0]] + b[1..];
      LessTotal(a[1..], b[1..]);
    }
  }

  /** The empty string is below exactly the non-empty strings and above none. */
  lemma EmptyLeast(a: string)
    ensures Less("", a) <==> a != ""
    ensures !Less(a, "")
  {
  }
}
