/**
 * Kotlin's `a < b` on strings, i.e. `a.compareTo(b) < 0`: the first
 * position where the strings differ decides; when one string is a proper
 * prefix of the other, the shorter one comes first.
 */
module Lexicographic {

  /** No string is less than itself. */
  function LexLess(a: string, b: string): (r: bool)
    ensures r ==> a != b
  {
    if b == [] then false
    else if a == [] then true
    else if a[0] != b[0] then a[0] < b[0]
    else LexLess(a[1..], b[1..])
  }

  /** The same order, stated by where the two strings first differ. */
  ghost predicate DiffersFirstAt(a: string, b: string, k: int) {
    0 <= k < |a| && k < |b| && a[..k] == b[..k] && a[k] < b[k]
  }

  ghost predicate IsProperPrefix(a: string, b: string) {
    |a| < |b| && a == b[..|a|]
  }

  lemma {:induction false} LexLessIff(a: string, b: string)
    ensures LexLess(a, b) <==> IsProperPrefix(a, b) || exists k :: DiffersFirstAt(a, b, k)
  {
    if b == [] {
    } else if a == [] {
      assert IsProperPrefix(a, b);
    } else if a[0] != b[0] {
      if a[0] < b[0] {
        assert DiffersFirstAt(a, b, 0);
      }
    } else {
      LexLessIff(a[1..], b[1..]);
      if IsProperPrefix(a[1..], b[1..]) {
        assert a == [a[0]] + a[1..];
        assert IsProperPrefix(a, b);
      }
      if k :| DiffersFirstAt(a[1..], b[1..], k) {
        assert a[..k + 1] == [a[0]] + a[1..][..k];
        assert b[..k + 1] == [b[0]] + b[1..][..k];
        assert DiffersFirstAt(a, b, k + 1);
      }
      if IsProperPrefix(a, b) {
        assert IsProperPrefix(a[1..], b[1..]);
      }
      if k :| DiffersFirstAt(a, b, k) {
        assert k != 0;
        assert a[1..][..k - 1] == a[..k][1..];
        assert b[1..][..k - 1] == b[..k][1..];
        assert DiffersFirstAt(a[1..], b[1..], k - 1);
      }
    }
  }

  lemma {:induction false} LexLessTransitive(a: string, b: string, c: string)
    requires LexLess(a, b) && LexLess(b, c)
    ensures LexLess(a, c)
  {
    if a != [] && a[0] == b[0] && b[0] == c[0] {
      LexLessTransitive(a[1..], b[1..], c[1..]);
    }
  }

  /** Any two different strings are ordered one way or the other. */
  lemma {:induction false} LexLessTotal(a: string, b: string)
    requires a != b
    ensures LexLess(a, b) || LexLess(b, a)
  {
    if a != [] && b != [] && a[0] == b[0] {
      assert a == [a[0]] + a[1..] && b == [b[0]] + b[1..];
      LexLessTotal(a[1..], b[1..]);
    }
  }

  /**
   * For strings of equal length, appending one character to each decides
   * the order only when the strings were equal.
   */
  lemma {:induction false} LexLessAppend(a: string, b: string, x: char, y: char)
    requires |a| == |b|
    ensures LexLess(a + [x], b + [y]) == if a == b then x < y else LexLess(a, b)
  {
    if a != [] {
      assert (a + [x])[1..] == a[1..] + [x];
      assert (b + [y])[1..] == b[1..] + [y];
      if a[0] == b[0] {
        LexLessAppend(a[1..], b[1..], x, y);
        assert a == b <==> a[1..] == b[1..] by {
          assert a == [a[0]] + a[1..] && b == [b[0]] + b[1..];
        }
      }
    }
  }
}
