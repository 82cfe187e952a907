/** Subsequences and concatenation, for the order properties of queues. */
module Sequences {

  /** `a` is `b` with some elements left out. */
  ghost predicate Subseq<T(!new)>(a: seq<T>, b: seq<T>)
    decreases |b|
  {
    a == [] || (b != [] && ((a[0] == b[0] && Subseq(a[1..], b[1..])) || Subseq(a, b[1..])))
  }

  lemma {:induction false} SubseqRefl<T(!new)>(a: seq<T>)
    ensures Subseq(a, a)
  {
    if a != [] {
      SubseqRefl(a[1..]);
    }
  }

  lemma {:induction false} SubseqLength<T(!new)>(a: seq<T>, b: seq<T>)
    requires Subseq(a, b)
    ensures |a| <= |b|
    ensures |a| == |b| ==> a == b
    decreases |b|
  {
    if a != [] {
      if a[0] == b[0] && Subseq(a[1..], b[1..]) {
        SubseqLength(a[1..], b[1..]);
        assert a == [a[0]] + a[1..] && b == [b[0]] + b[1..];
      } else {
        SubseqLength(a, b[1..]);
      }
    }
  }

  lemma {:induction false} SubseqTrans<T(!new)>(a: seq<T>, b: seq<T>, c: seq<T>)
    requires Subseq(a, b) && Subseq(b, c)
    ensures Subseq(a, c)
    decreases |c|, |b|
  {
    if a != [] {
      if b[0] == c[0] && Subseq(b[1..], c[1..]) {
        if a[0] == b[0] && Subseq(a[1..], b[1..]) {
          SubseqTrans(a[1..], b[1..], c[1..]);
        } else {
          SubseqTrans(a, b[1..], c[1..]);
        }
      } else {
        SubseqTrans(a, b, c[1..]);
      }
    }
  }

  lemma {:induction false} SubseqConcat<T(!new)>(a: seq<T>, b: seq<T>, c: seq<T>, d: seq<T>)
    requires Subseq(a, b) && Subseq(c, d)
    ensures Subseq(a + c, b + d)
    decreases |b|
  {
    if b == [] {
      assert a + c == c && b + d == d;
    } else {
      assert (b + d)[1..] == b[1..] + d;
      if a != [] && a[0] == b[0] && Subseq(a[1..], b[1..]) {
        SubseqConcat(a[1..], b[1..], c, d);
        assert (a + c)[1..] == a[1..] + c;
      } else {
        SubseqConcat(a, b[1..], c, d);
      }
    }
  }

  /** Leaving out a middle part. */
  lemma SubseqWithout<T(!new)>(a: seq<T>, m: seq<T>, b: seq<T>)
    ensures Subseq(a + b, a + m + b)
  {
    SubseqRefl(a);
    SubseqRefl(b);
    SubseqConcat(a, a, [], m);
    assert a + [] == a;
    SubseqConcat(a, a + m, b, b);
  }

  /** Both without their first elements. */
  lemma {:induction false} SubseqTail<T(!new)>(a: seq<T>, b: seq<T>)
    requires Subseq(a, b) && a != []
    ensures b != [] && Subseq(a[1..], b[1..])
    decreases |b|
  {
    if !(a[0] == b[0] && Subseq(a[1..], b[1..])) {
      SubseqTail(a, b[1..]);
      assert Subseq(a[1..], b[1..][1..]);
      SubseqWithout([], [b[1]], b[1..][1..]);
      assert [] + b[1..][1..] == b[1..][1..] && [] + [b[1]] + b[1..][1..] == b[1..];
      SubseqTrans(a[1..], b[1..][1..], b[1..]);
    }
  }

  /** An element that does not occur is not needed. */
  lemma SubseqSkip<T(!new)>(a: seq<T>, b: seq<T>)
    requires Subseq(a, b) && b != [] && b[0] !in a
    ensures Subseq(a, b[1..])
  {
  }

  /** Both without a common last element. */
  lemma {:induction false} SubseqFront<T(!new)>(a: seq<T>, b: seq<T>, x: T)
    requires Subseq(a + [x], b + [x])
    ensures Subseq(a, b)
    decreases |b|
  {
    if a != [] {
      if b == [] {
        SubseqLength(a + [x], b + [x]);
      } else {
        assert (a + [x])[1..] == a[1..] + [x] && (b + [x])[1..] == b[1..] + [x];
        if a[0] == b[0] && Subseq(a[1..] + [x], b[1..] + [x]) {
          SubseqFront(a[1..], b[1..], x);
        } else {
          SubseqFront(a, b[1..], x);
        }
      }
    }
  }

  /** Another common last element. */
  lemma SubseqLast<T(!new)>(a: seq<T>, b: seq<T>, x: T, y: T)
    requires Subseq(a + [x], b + [x])
    ensures Subseq(a + [y], b + [y])
  {
    SubseqFront(a, b, x);
    SubseqRefl([y]);
    SubseqConcat(a, b, [y], [y]);
  }

  /** A pairwise property of a sequence holds of every subsequence. */
  ghost predicate Pairwise<T(!new)>(r: (T, T) -> bool, s: seq<T>)
  {
    forall i, j :: 0 <= i < j < |s| ==> r(s[i], s[j])
  }

  lemma {:induction false} SubseqMembers<T(!new)>(a: seq<T>, b: seq<T>)
    requires Subseq(a, b)
    ensures forall x :: x in a ==> x in b
    decreases |b|
  {
    if a != [] {
      if a[0] == b[0] && Subseq(a[1..], b[1..]) {
        SubseqMembers(a[1..], b[1..]);
        assert a == [a[0]] + a[1..];
      } else {
        SubseqMembers(a, b[1..]);
      }
    }
  }

  lemma {:induction false} SubseqPairwise<T(!new)>(r: (T, T) -> bool, a: seq<T>, b: seq<T>)
    requires Subseq(a, b) && Pairwise(r, b)
    ensures Pairwise(r, a)
    decreases |b|
  {
    if a != [] {
      if a[0] == b[0] && Subseq(a[1..], b[1..]) {
        SubseqPairwise(r, a[1..], b[1..]);
        SubseqMembers(a[1..], b[1..]);
        forall i, j | 0 <= i < j < |a| ensures r(a[i], a[j]) {
          if i == 0 {
            assert a[j] == a[1..][j - 1] && a[j] in b[1..];
            var k :| 0 <= k < |b[1..]| && b[1..][k] == a[j];
            assert r(b[0], b[k + 1]);
          } else {
            assert a[i] == a[1..][i - 1] && a[j] == a[1..][j - 1];
          }
        }
      } else {
        SubseqPairwise(r, a, b[1..]);
      }
    }
  }

  /** Concatenation of a sequence of sequences. */
  function Concat<T>(parts: seq<seq<T>>): seq<T>
  {
    if parts == [] then [] else parts[0] + Concat(parts[1..])
  }

  lemma {:induction false} ConcatAppend<T>(a: seq<seq<T>>, b: seq<seq<T>>)
    ensures Concat(a + b) == Concat(a) + Concat(b)
  {
    hide Concat;
    ConcatParts(a);
    ConcatParts(a + b);
    if a == [] {
      assert a + b == b;
    } else {
      ConcatAppend(a[1..], b);
      assert (a + b)[1..] == a[1..] + b && (a + b)[0] == a[0];
    }
  }

  lemma ConcatParts<T>(a: seq<seq<T>>)
    ensures Concat(a) == if a == [] then [] else a[0] + Concat(a[1..])
  {
  }

  lemma ConcatSnoc<T>(a: seq<seq<T>>, x: seq<T>)
    ensures Concat(a + [x]) == Concat(a) + x
  {
    ConcatAppend(a, [x]);
    assert Concat([x]) == x + Concat([]);
  }
}
