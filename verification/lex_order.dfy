/** Lexicographic order on strings by character code: the order Python (and so a pandas
    `sort_values` on a text column) uses to compare `str` values. */
module LexOrder {

  /** `a` sorts strictly before `b`. A proper prefix sorts first. */
  predicate Less(a: string, b: string)
    decreases |a|
  {
    if |a| == 0 then |b| > 0
    else if |b| == 0 then false
    else if a[0] != b[0] then a[0] < b[0]
    else Less(a[1..], b[1..])
  }

  predicate LessEq(a: string, b: string) {
    a == b || Less(a, b)
  }

  lemma {:induction false} LessIrreflexive(a: string)
    ensures !Less(a, a)
    decreases |a|
  {
    if |a| > 0 {
      LessIrreflexive(a[1..]);
    }
  }

  lemma {:induction false} LessAsymmetric(a: string, b: string)
    requires Less(a, b)
    ensures !Less(b, a)
    decreases |a|
  {
    if |a| > 0 && |b| > 0 && a[0] == b[0] {
      LessAsymmetric(a[1..], b[1..]);
    }
  }

  lemma {:induction false} LessTransitive(a: string, b: string, c: string)
    requires Less(a, b) && Less(b, c)
    ensures Less(a, c)
    decreases |a|
  {
    if |a| > 0 && a[0] == b[0] && b[0] == c[0] {
      LessTransitive(a[1..], b[1..], c[1..]);
    }
  }

  /** Any two strings are equal or ordered one way. */
  lemma {:induction false} LessTotal(a: string, b: string)
    ensures a == b || Less(a, b) || Less(b, a)
    decreases |a|
  {
    if |a| > 0 && |b| > 0 && a[0] == b[0] {
      LessTotal(a[1..], b[1..]);
      if a[1..] == b[1..] {
        assert a == [a[0]] + a[1..] && b == [b[0]] + b[1..];
      }
    }
  }

  lemma LessEqTransitive(a: string, b: string, c: string)
    requires LessEq(a, b) && LessEq(b, c)
    ensures LessEq(a, c)
  {
    if a != b && b != c {
      LessTransitive(a, b, c);
    }
  }

  lemma LessEqAntisymmetric(a: string, b: string)
    requires LessEq(a, b) && LessEq(b, a)
    ensures a == b
  {
    if a != b {
      LessAsymmetric(a, b);
    }
  }

  /** Comparing two strings that start with prefixes of equal length: the prefixes decide
      unless they are equal, in which case the remainders do. */
  lemma {:induction false} LessConcat(p1: string, s1: string, p2: string, s2: string)
    requires |p1| == |p2|
    ensures Less(p1 + s1, p2 + s2) <==> Less(p1, p2) || (p1 == p2 && Less(s1, s2))
    decreases |p1|
  {
    if |p1| == 0 {
      assert p1 + s1 == s1 && p2 + s2 == s2;
    } else {
      assert (p1 + s1)[0] == p1[0] && (p2 + s2)[0] == p2[0];
      assert (p1 + s1)[1..] == p1[1..] + s1 && (p2 + s2)[1..] == p2[1..] + s2;
      LessConcat(p1[1..], s1, p2[1..], s2);
      if p1[0] == p2[0] && p1[1..] == p2[1..] {
        assert p1 == [p1[0]] + p1[1..] && p2 == [p2[0]] + p2[1..];
      }
      if p1 == p2 {
        assert p1[1..] == p2[1..];
      }
    }
  }
}
