/**
 * java.lang.String.compareTo, which the installer uses to compare time zone rules
 * versions such as "2016g", and the lexicographic order it computes.
 */
module JavaString {

  /**
   * String.compareTo: the difference of the first pair of characters that differ, or,
   * when one string is a prefix of the other, the difference of the lengths.
   */
  function CompareTo(a: string, b: string): int
    decreases |a|
  {
    if |a| == 0 || |b| == 0 then |a| - |b|
    else if a[0] != b[0] then a[0] as int - b[0] as int
    else CompareTo(a[1..], b[1..])
  }

  /**
   * Lexicographic order, stated without recursion: at the first position where the two
   * strings differ `a` has the smaller character, or `a` is a proper prefix of `b`.
   */
  ghost predicate LexLess(a: string, b: string) {
    || (exists k :: 0 <= k < |a| && k < |b| && a[..k] == b[..k] && a[k] < b[k])
    || (|a| < |b| && a == b[..|a|])
  }

  /** compareTo returns 0 exactly for equal strings. */
  lemma {:induction false} CompareToZero(a: string, b: string)
    ensures CompareTo(a, b) == 0 <==> a == b
    decreases |a|
  {
    if |a| == 0 || |b| == 0 {
    } else if a[0] != b[0] {
    } else {
      CompareToZero(a[1..], b[1..]);
      assert a == [a[0]] + a[1..] && b == [b[0]] + b[1..];
    }
  }

  /** Swapping the arguments negates the result. */
  lemma {:induction false} CompareToAntisymmetric(a: string, b: string)
    ensures CompareTo(b, a) == -CompareTo(a, b)
    decreases |a|
  {
    if |a| == 0 || |b| == 0 {
    } else if a[0] != b[0] {
    } else {
      CompareToAntisymmetric(a[1..], b[1..]);
    }
  }

  /** Dropping a common first character does not change the order. */
  lemma LexLessTail(a: string, b: string)
    requires |a| > 0 && |b| > 0 && a[0] == b[0]
    ensures LexLess(a, b) <==> LexLess(a[1..], b[1..])
  {
    var a', b' := a[1..], b[1..];
    if LexLess(a, b) {
      if k :| 0 <= k < |a| && k < |b| && a[..k] == b[..k] && a[k] < b[k] {
        assert k != 0;
        assert a'[..k - 1] == a[1..k] == b[1..k] == b'[..k - 1];
        assert a'[k - 1] == a[k] && b'[k - 1] == b[k];
      } else {
        assert a' == b'[..|a'|];
      }
    }
    if LexLess(a', b') {
      if k :| 0 <= k < |a'| && k < |b'| && a'[..k] == b'[..k] && a'[k] < b'[k] {
        assert a[..k + 1] == [a[0]] + a'[..k] && b[..k + 1] == [b[0]] + b'[..k];
        assert a[k + 1] == a'[k] && b[k + 1] == b'[k];
      } else {
        assert a == [a[0]] + a' && b[..|a|] == [b[0]] + b'[..|a'|];
      }
    }
  }

  /** compareTo is negative exactly when `a` comes first in lexicographic order. */
  lemma {:induction false} CompareToNegative(a: string, b: string)
    ensures CompareTo(a, b) < 0 <==> LexLess(a, b)
    decreases |a|
  {
    if |a| == 0 || |b| == 0 {
      if |a| == 0 && |b| > 0 {
        assert a == b[..|a|];
      }
    } else if a[0] != b[0] {
      if a[0] < b[0] {
        assert a[..0] == b[..0];
      } else {
        forall k | 0 <= k < |a| && k < |b| && a[..k] == b[..k]
          ensures !(a[k] < b[k])
        {
        }
        if |a| < |b| && a == b[..|a|] {
          assert a[0] == b[..|a|][0];
        }
      }
    } else {
      CompareToNegative(a[1..], b[1..]);
      LexLessTail(a, b);
    }
  }
}
