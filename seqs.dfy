/** Small facts about sequences shared by the other modules. */
module Seqs {

  /** No element occurs twice. */
  predicate Distinct<T(==)>(s: seq<T>)
  {
    forall i, j :: 0 <= i < j < |s| ==> s[i] != s[j]
  }

  /** Two parts without repeats and with nothing in common join without repeats. */
  lemma DistinctConcat<T>(a: seq<T>, b: seq<T>)
    requires Distinct(a) && Distinct(b)
    requires forall x :: x in a ==> x !in b
    ensures Distinct(a + b)
  {
    var s := a + b;
    forall i, j | 0 <= i < j < |s|
      ensures s[i] != s[j]
    {
      if j >= |a| {
        assert s[j] == b[j - |a|];
        if i >= |a| {
          assert s[i] == b[i - |a|];
        } else {
          assert s[i] == a[i] && a[i] in a;
        }
      }
    }
  }

  /** A sequence without repeats whose only element is `x` is `[x]`. */
  lemma DistinctSingleton<T>(s: seq<T>, x: T)
    requires Distinct(s)
    requires forall y :: y in s <==> y == x
    ensures s == [x]
  {
    assert x in s;
    assert s[0] in s;
    if |s| > 1 {
      FirstTwoAlike(s, x);
      assert false;
    }
  }

  /** Two elements of a sequence whose only element is `x` are alike. */
  lemma FirstTwoAlike<T>(s: seq<T>, x: T)
    requires |s| > 1
    requires forall y :: y in s <==> y == x
    ensures s[0] == s[1]
  {
    assert s[0] in s && s[1] in s;
  }
}
