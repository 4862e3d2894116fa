/** Generic facts about sequences that the dataframe operations are built from:
    boolean-mask selection (`Filter`), order-preserving subsequences, first-appearance
    de-duplication and pairwise ordering. */
module Seqs {

  /** The elements of `s` that satisfy `p`, in their original order: a boolean mask
      applied to a frame, `df[p(df)]`. */
  function Filter<T>(s: seq<T>, p: T -> bool): (r: seq<T>)
    ensures |r| <= |s|
    ensures forall i :: 0 <= i < |r| ==> p(r[i])
    decreases |s|
  {
    if |s| == 0 then []
    else if p(s[0]) then [s[0]] + Filter(s[1..], p)
    else Filter(s[1..], p)
  }

  /** `a` can be obtained from `b` by deleting elements: it keeps `b`'s order and adds nothing. */
  predicate IsSubseq<T(==)>(a: seq<T>, b: seq<T>)
    decreases |b|
  {
    |a| == 0 ||
    (|b| > 0 && ((a[0] == b[0] && IsSubseq(a[1..], b[1..])) || IsSubseq(a, b[1..])))
  }

  /** Every pair of positions i < j of `s` is related by `le`. */
  ghost predicate Pairwise<T>(s: seq<T>, le: (T, T) -> bool)
  {
    forall i, j :: 0 <= i < j < |s| ==> le(s[i], s[j])
  }

  /** `f` holds each element of `s` that satisfies `p` exactly as often as `s` does,
      and no other element. */
  ghost predicate SelectsExactly<T(!new)>(f: seq<T>, s: seq<T>, p: T -> bool)
  {
    forall x :: multiset(f)[x] == if p(x) then multiset(s)[x] else 0
  }

  /** An exact selection holds precisely the elements of `s` that satisfy `p`. */
  lemma SelectsMembers<T(!new)>(f: seq<T>, s: seq<T>, p: T -> bool)
    requires SelectsExactly(f, s, p)
    ensures forall x :: x in f <==> x in s && p(x)
  {
    forall x ensures x in f <==> x in s && p(x) {
      assert x in f <==> multiset(f)[x] > 0;
      assert x in s <==> multiset(s)[x] > 0;
    }
  }

  /** Membership: a subsequence only holds elements of the sequence it was taken from,
      and is no longer than it. */
  lemma {:induction false} SubseqMembers<T>(a: seq<T>, b: seq<T>)
    requires IsSubseq(a, b)
    ensures |a| <= |b|
    ensures forall x :: x in a ==> x in b
    decreases |b|
  {
    if |a| == 0 {
    } else if a[0] == b[0] && IsSubseq(a[1..], b[1..]) {
      SubseqMembers(a[1..], b[1..]);
      forall x | x in a ensures x in b {
        if x != a[0] {
          assert x in a[1..];
        }
      }
    } else {
      SubseqMembers(a, b[1..]);
    }
  }

  /** Every sequence is a subsequence of itself. */
  lemma {:induction false} SubseqRefl<T>(a: seq<T>)
    ensures IsSubseq(a, a)
    decreases |a|
  {
    if |a| > 0 {
      SubseqRefl(a[1..]);
    }
  }

  /** Deleting elements twice is deleting elements once. */
  lemma {:induction false} SubseqTrans<T>(a: seq<T>, b: seq<T>, c: seq<T>)
    requires IsSubseq(a, b) && IsSubseq(b, c)
    ensures IsSubseq(a, c)
    decreases |c|
  {
    if |a| == 0 {
    } else if |b| == 0 {
      assert false;
    } else if b[0] == c[0] && IsSubseq(b[1..], c[1..]) {
      if a[0] == b[0] && IsSubseq(a[1..], b[1..]) {
        SubseqTrans(a[1..], b[1..], c[1..]);
      } else {
        SubseqTrans(a, b[1..], c[1..]);
      }
    } else {
      SubseqTrans(a, b, c[1..]);
    }
  }

  /** A pairwise relation that holds along `b` holds along every subsequence of `b`. */
  lemma {:induction false} SubseqPairwise<T>(a: seq<T>, b: seq<T>, le: (T, T) -> bool)
    requires IsSubseq(a, b) && Pairwise(b, le)
    ensures Pairwise(a, le)
    decreases |b|
  {
    if |a| == 0 {
    } else if a[0] == b[0] && IsSubseq(a[1..], b[1..]) {
      SubseqPairwise(a[1..], b[1..], le);
      SubseqMembers(a[1..], b[1..]);
      forall i, j | 0 <= i < j < |a| ensures le(a[i], a[j]) {
        if i == 0 {
          assert a[j] in b[1..] by { assert a[j] == a[1..][j - 1]; }
          var k :| 0 <= k < |b[1..]| && b[1..][k] == a[j];
          assert le(b[0], b[k + 1]);
        } else {
          assert a[i] == a[1..][i - 1] && a[j] == a[1..][j - 1];
        }
      }
    } else {
      SubseqPairwise(a, b[1..], le);
    }
  }

  /** A filter keeps order and adds nothing. */
  lemma {:induction false} FilterIsSubseq<T>(s: seq<T>, p: T -> bool)
    ensures IsSubseq(Filter(s, p), s)
    decreases |s|
  {
    if |s| > 0 {
      FilterIsSubseq(s[1..], p);
      if !p(s[0]) {
        var f := Filter(s[1..], p);
        if |f| > 0 {
          assert IsSubseq(f, s[1..]);
        }
      } else {
        assert ([s[0]] + Filter(s[1..], p))[1..] == Filter(s[1..], p);
      }
    }
  }

  /** A filter keeps exactly the occurrences that satisfy `p`: each such element as many
      times as it occurs in the input, any other element not at all. */
  lemma {:induction false} FilterMultiset<T(!new)>(s: seq<T>, p: T -> bool)
    ensures SelectsExactly(Filter(s, p), s, p)
    decreases |s|
  {
    if |s| > 0 {
      FilterMultiset(s[1..], p);
      assert SelectsExactly(Filter(s[1..], p), s[1..], p);
      assert s == [s[0]] + s[1..];
      assert multiset(s) == multiset([s[0]]) + multiset(s[1..]);
      if p(s[0]) {
        assert multiset(Filter(s, p)) == multiset([s[0]]) + multiset(Filter(s[1..], p));
      }
    }
  }

  /** One step of a filter. */
  lemma FilterCons<T>(x: T, s: seq<T>, p: T -> bool)
    ensures Filter([x] + s, p) == if p(x) then [x] + Filter(s, p) else Filter(s, p)
  {
    assert ([x] + s)[0] == x && ([x] + s)[1..] == s;
  }

  /** Filtering distributes over concatenation. */
  lemma {:induction false} FilterConcat<T>(a: seq<T>, b: seq<T>, p: T -> bool)
    ensures Filter(a + b, p) == Filter(a, p) + Filter(b, p)
    decreases |a|
  {
    if |a| == 0 {
      assert a + b == b;
    } else {
      FilterConcat(a[1..], b, p);
      assert (a + b)[0] == a[0];
      assert (a + b)[1..] == a[1..] + b;
    }
  }

  /** A filter whose predicate holds of every element changes nothing. */
  lemma {:induction false} FilterKeepsAll<T>(s: seq<T>, p: T -> bool)
    requires forall i :: 0 <= i < |s| ==> p(s[i])
    ensures Filter(s, p) == s
    decreases |s|
  {
    if |s| > 0 {
      FilterKeepsAll(s[1..], p);
      assert s == [s[0]] + s[1..];
    }
  }

  /** A filter whose predicate holds of no element keeps nothing. */
  lemma {:induction false} FilterKeepsNone<T>(s: seq<T>, p: T -> bool)
    requires forall i :: 0 <= i < |s| ==> !p(s[i])
    ensures Filter(s, p) == []
    decreases |s|
  {
    if |s| > 0 {
      FilterKeepsNone(s[1..], p);
    }
  }

  /** Index of the first occurrence of `x` in `s`. */
  function FirstIndex<T(==)>(s: seq<T>, x: T): (i: nat)
    requires x in s
    ensures i < |s| && s[i] == x
    ensures forall j :: 0 <= j < i ==> s[j] != x
    decreases |s|
  {
    if s[0] == x then 0 else 1 + FirstIndex(s[1..], x)
  }

  /** The distinct elements of `s`, each once, in order of first appearance: the
      semantics of `Series.unique()`. */
  function Distinct<T(==)>(s: seq<T>): (u: seq<T>)
    ensures forall i :: 0 <= i < |s| ==> s[i] in u
    ensures forall i :: 0 <= i < |u| ==> u[i] in s
    ensures forall i, j :: 0 <= i < j < |u| ==> u[i] != u[j]
    decreases |s|
  {
    if |s| == 0 then []
    else
      var u := Distinct(s[..|s| - 1]);
      if s[|s| - 1] in u then u else u + [s[|s| - 1]]
  }

  /** Extending a sequence does not move the first occurrence of anything already in it. */
  lemma {:induction false} FirstIndexExtend<T>(s: seq<T>, y: T, x: T)
    requires x in s
    ensures FirstIndex(s + [y], x) == FirstIndex(s, x)
    decreases |s|
  {
    if s[0] != x {
      assert (s + [y])[1..] == s[1..] + [y];
      FirstIndexExtend(s[1..], y, x);
    }
  }

  /** `Distinct` lists elements in strictly increasing order of their first appearance. */
  lemma {:induction false} DistinctFirstAppearance<T>(s: seq<T>)
    ensures forall i, j :: 0 <= i < j < |Distinct(s)| ==>
      FirstIndex(s, Distinct(s)[i]) < FirstIndex(s, Distinct(s)[j])
    decreases |s|
  {
    if |s| > 0 {
      var n := |s| - 1;
      var s' := s[..n];
      var y := s[n];
      assert s == s' + [y];
      DistinctFirstAppearance(s');
      var u' := Distinct(s');
      var u := Distinct(s);
      forall x | x in s' ensures FirstIndex(s, x) == FirstIndex(s', x) {
        FirstIndexExtend(s', y, x);
      }
      forall i, j | 0 <= i < j < |u| ensures FirstIndex(s, u[i]) < FirstIndex(s, u[j]) {
        assert u[i] in u' && u[i] in s';
        if j < |u'| {
          assert u[j] == u'[j] && u[i] == u'[i];
        } else {
          assert u[j] == y && y !in s';
          assert FirstIndex(s, y) == n;
        }
      }
    }
  }
}
