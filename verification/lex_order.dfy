/** Lexicographic order on strings, the comparison the aggregator sorts by. */
module LexOrder {

  /** `a` sorts at or before `b`: compare characters left to right; a proper
      prefix sorts first. */
  predicate LexLe(a: string, b: string)
    ensures a <= b ==> LexLe(a, b)
    ensures |a| > 0 && |b| > 0 && a[0] < b[0] ==> LexLe(a, b)
    ensures |a| > 0 && |b| > 0 && b[0] < a[0] ==> !LexLe(a, b)
  {
    if |a| == 0 then true
    else if |b| == 0 then false
    else if a[0] != b[0] then a[0] < b[0]
    else LexLe(a[1..], b[1..])
  }

  lemma {:induction false} LexLeReflexive(a: string)
    ensures LexLe(a, a)
  {
    if |a| > 0 {
      LexLeReflexive(a[1..]);
    }
  }

  /** Any two strings are comparable. */
  lemma {:induction false} LexLeTotal(a: string, b: string)
    ensures LexLe(a, b) || LexLe(b, a)
  {
    if |a| > 0 && |b| > 0 && a[0] == b[0] {
      LexLeTotal(a[1..], b[1..]);
    }
  }

  /** Two strings ordered both ways are the same string: ties happen only
      between identical times. */
  lemma {:induction false} LexLeAntisymmetric(a: string, b: string)
    requires LexLe(a, b) && LexLe(b, a)
    ensures a == b
  {
    if |a| > 0 && |b| > 0 {
      LexLeAntisymmetric(a[1..], b[1..]);
      assert a == [a[0]] + a[1..];
      assert b == [b[0]] + b[1..];
    }
  }

  lemma {:induction false} LexLeTransitive(a: string, b: string, c: string)
    requires LexLe(a, b) && LexLe(b, c)
    ensures LexLe(a, c)
  {
    if |a| > 0 && |b| > 0 && |c| > 0 && a[0] == b[0] && b[0] == c[0] {
      LexLeTransitive(a[1..], b[1..], c[1..]);
    }
  }

  /** Where `a` does not sort at or before `b`, `b` sorts strictly before it. */
  lemma LexLeFlip(a: string, b: string)
    requires !LexLe(a, b)
    ensures LexLe(b, a) && a != b
  {
    LexLeTotal(a, b);
    if a == b {
      LexLeReflexive(a);
    }
  }
}
