/** Order-preserving subsequences, used to say that an operation only deletes elements. */
module Sequences {

  /** `a` is obtained from `b` by deleting zero or more elements, keeping the order of the rest. */
  predicate IsSubsequence<T(==)>(a: seq<T>, b: seq<T>)
    decreases |b|
  {
    if |a| == 0 then true
    else if |b| == 0 then false
    else if a[0] == b[0] then IsSubsequence(a[1..], b[1..])
    else IsSubsequence(a, b[1..])
  }

  /** A subsequence is no longer than the sequence and uses only its elements. */
  lemma {:induction false} SubsequenceBounds<T>(a: seq<T>, b: seq<T>)
    requires IsSubsequence(a, b)
    ensures |a| <= |b|
    ensures forall x :: x in a ==> x in b
    decreases |b|
  {
    if |a| > 0 {
      if a[0] == b[0] {
        SubsequenceBounds(a[1..], b[1..]);
        forall x | x in a ensures x in b {
          if x != a[0] {
            assert x in a[1..];
          }
        }
      } else {
        SubsequenceBounds(a, b[1..]);
      }
    }
  }

  /** Every sequence is a subsequence of itself. */
  lemma {:induction false} SubsequenceRefl<T>(a: seq<T>)
    ensures IsSubsequence(a, a)
    decreases |a|
  {
    if |a| > 0 {
      SubsequenceRefl(a[1..]);
    }
  }

  /** Putting an element in front of the larger sequence keeps the relation. */
  lemma {:induction false} SubsequenceConsRight<T>(a: seq<T>, x: T, b: seq<T>)
    requires IsSubsequence(a, b)
    ensures IsSubsequence(a, [x] + b)
    decreases |b|, 1
  {
    assert ([x] + b)[1..] == b;
    if |a| > 0 && a[0] == x {
      SubsequenceTail(a, b);
    }
  }

  /** Dropping the first element of a non-empty subsequence keeps it a subsequence. */
  lemma {:induction false} SubsequenceTail<T>(a: seq<T>, b: seq<T>)
    requires |a| > 0 && IsSubsequence(a, b)
    ensures IsSubsequence(a[1..], b)
    decreases |b|, 0
  {
    assert |b| > 0;
    assert [b[0]] + b[1..] == b;
    if a[0] != b[0] {
      SubsequenceTail(a, b[1..]);
    }
    SubsequenceConsRight(a[1..], b[0], b[1..]);
  }

  /** Deleting elements twice is deleting elements. */
  lemma {:induction false} SubsequenceTrans<T>(a: seq<T>, b: seq<T>, c: seq<T>)
    requires IsSubsequence(a, b) && IsSubsequence(b, c)
    ensures IsSubsequence(a, c)
    decreases |c|
  {
    if |a| > 0 {
      assert |b| > 0 && |c| > 0;
      if b[0] == c[0] {
        if a[0] == b[0] {
          SubsequenceTrans(a[1..], b[1..], c[1..]);
        } else {
          SubsequenceTrans(a, b[1..], c[1..]);
          assert a[0] != c[0];
        }
      } else {
        SubsequenceTrans(a, b, c[1..]);
        if a[0] == c[0] {
          SubsequenceTail(a, c[1..]);
        }
      }
    }
  }
  /** Appending an element to the larger sequence keeps the relation. */
  lemma {:induction false} SubsequenceSnocRight<T>(a: seq<T>, b: seq<T>, x: T)
    requires IsSubsequence(a, b)
    ensures IsSubsequence(a, b + [x])
    decreases |b|
  {
    if |a| > 0 {
      assert (b + [x])[0] == b[0] && (b + [x])[1..] == b[1..] + [x];
      if a[0] == b[0] {
        SubsequenceSnocRight(a[1..], b[1..], x);
      } else {
        SubsequenceSnocRight(a, b[1..], x);
      }
    }
  }

  /** Appending the same element to both sequences keeps the relation. */
  lemma {:induction false} SubsequenceSnoc<T>(a: seq<T>, b: seq<T>, x: T)
    requires IsSubsequence(a, b)
    ensures IsSubsequence(a + [x], b + [x])
    decreases |b|
  {
    if |b| == 0 {
      assert a == [] && a + [x] == b + [x];
      SubsequenceRefl([x]);
    } else {
      assert (b + [x])[0] == b[0] && (b + [x])[1..] == b[1..] + [x];
      if |a| > 0 && a[0] == b[0] {
        assert (a + [x])[0] == a[0] && (a + [x])[1..] == a[1..] + [x];
        SubsequenceSnoc(a[1..], b[1..], x);
      } else if |a| > 0 {
        assert (a + [x])[0] == a[0];
        SubsequenceSnoc(a, b[1..], x);
      } else if b[0] != x {
        SubsequenceSnoc(a, b[1..], x);
      }
    }
  }
}
