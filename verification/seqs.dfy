/** Generic facts about sequences used by every other module: the two
    option/result wrappers, prefixes and infixes, order-preserving filters and
    subsequences, and de-duplication in first-occurrence order. */
module Seqs {

  datatype Option<+T> = None | Some(value: T)

  /** A value, or the message of the error the source would throw or return. */
  datatype Result<+T> = Ok(value: T) | Err(message: string)

  predicate IsPrefix<T(==)>(p: seq<T>, s: seq<T>) {
    |p| <= |s| && s[..|p|] == p
  }

  /** `sub` occurs somewhere inside `s` (JavaScript `includes`, Python `in`). */
  predicate Contains<T(==)>(s: seq<T>, sub: seq<T>)
    decreases |s|
  {
    IsPrefix(sub, s) || (|s| > 0 && Contains(s[1..], sub))
  }

  lemma {:induction false} ContainsIff<T>(s: seq<T>, sub: seq<T>)
    ensures Contains(s, sub) <==> exists i :: 0 <= i <= |s| && IsPrefix(sub, s[i..])
    decreases |s|
  {
    if Contains(s, sub) {
      if IsPrefix(sub, s) {
        assert s[0..] == s;
      } else {
        ContainsIff(s[1..], sub);
        var i :| 0 <= i <= |s[1..]| && IsPrefix(sub, s[1..][i..]);
        assert s[1..][i..] == s[i + 1..];
      }
    }
    if exists i :: 0 <= i <= |s| && IsPrefix(sub, s[i..]) {
      var i :| 0 <= i <= |s| && IsPrefix(sub, s[i..]);
      if i > 0 {
        assert s[1..][i - 1..] == s[i..];
        ContainsIff(s[1..], sub);
      }
    }
  }

  /** The middle part of a concatenation occurs in it. */
  lemma ContainsMiddle<T>(a: seq<T>, b: seq<T>, c: seq<T>)
    ensures Contains(a + b + c, b)
  {
    var s := a + b + c;
    assert s[|a|..][..|b|] == b;
    ContainsIff(s, b);
  }

  /** What occurs in a sequence occurs in any extension of it on the left. */
  lemma ContainsExtendLeft<T>(a: seq<T>, s: seq<T>, sub: seq<T>)
    requires Contains(s, sub)
    ensures Contains(a + s, sub)
  {
    ContainsIff(s, sub);
    var i :| 0 <= i <= |s| && IsPrefix(sub, s[i..]);
    assert (a + s)[|a| + i..] == s[i..];
    ContainsIff(a + s, sub);
  }

  /** What occurs in a prefix of a sequence occurs in the sequence. */
  lemma ContainsInPrefix<T>(p: seq<T>, s: seq<T>, sub: seq<T>)
    requires IsPrefix(p, s) && Contains(p, sub)
    ensures Contains(s, sub)
  {
    ContainsIff(p, sub);
    var i :| 0 <= i <= |p| && IsPrefix(sub, p[i..]);
    assert s[i..][..|sub|] == p[i..][..|sub|];
    ContainsIff(s, sub);
  }

  /** What a prefix contains, the whole sequence contains. */
  lemma ContainsInPrefixMiddle<T>(a: seq<T>, b: seq<T>, c: seq<T>, s: seq<T>)
    requires IsPrefix(a + b + c, s)
    ensures Contains(s, b)
  {
    ContainsMiddle(a, b, c);
    ContainsInPrefix(a + b + c, s, b);
  }

  lemma PrefixOfConcat<T>(a: seq<T>, b: seq<T>)
    ensures IsPrefix(a, a + b)
  {
    assert (a + b)[..|a|] == a;
  }

  lemma PrefixOfConcat3<T>(a: seq<T>, b: seq<T>, c: seq<T>)
    ensures IsPrefix(a, a + b + c)
  {
    assert (a + b + c)[..|a|] == a;
  }

  /** A sequence is what comes before position `k`, the element there, and
      what comes after. */
  lemma SplitAt<T>(s: seq<T>, k: nat)
    requires k < |s|
    ensures s == s[..k] + [s[k]] + s[k + 1..]
  {
  }

  lemma ConcatAssoc<T>(a: seq<T>, b: seq<T>, c: seq<T>)
    ensures a + b + c == a + (b + c)
  {
  }

  lemma Regroup<T>(a: seq<T>, b: seq<T>, c: seq<T>, d: seq<T>, e: seq<T>)
    ensures a + b + (c + d + e) == a + b + c + d + e
  {
  }

  /** Nothing occurs in a sequence that is longer than it. */
  lemma ContainsShorter<T>(s: seq<T>, sub: seq<T>)
    requires |s| < |sub|
    ensures !Contains(s, sub)
  {
    ContainsIff(s, sub);
  }

  /** Keep the elements satisfying `p`, in their original order. */
  function Filter<T>(s: seq<T>, p: T -> bool): (r: seq<T>)
    ensures |r| <= |s|
    ensures forall i :: 0 <= i < |r| ==> r[i] in s && p(r[i])
    ensures forall i :: 0 <= i < |s| && p(s[i]) ==> s[i] in r
  {
    if s == [] then []
    else (if p(s[0]) then [s[0]] else []) + Filter(s[1..], p)
  }

  /** `a` is obtained from `b` by deleting elements (greedy check). */
  predicate IsSubsequence<T(==)>(a: seq<T>, b: seq<T>)
    decreases |b|
  {
    if a == [] then true
    else if b == [] then false
    else if a[0] == b[0] then IsSubsequence(a[1..], b[1..])
    else IsSubsequence(a, b[1..])
  }

  lemma {:induction false} SubsequenceReflexive<T>(s: seq<T>)
    ensures IsSubsequence(s, s)
    decreases |s|
  {
    if s != [] {
      SubsequenceReflexive(s[1..]);
    }
  }

  lemma {:induction false} FilterIsSubsequence<T>(s: seq<T>, p: T -> bool)
    ensures IsSubsequence(Filter(s, p), s)
    decreases |s|
  {
    if s != [] {
      FilterIsSubsequence(s[1..], p);
      var r := Filter(s[1..], p);
      if p(s[0]) {
        assert ([s[0]] + r)[1..] == r;
      } else {
        assert Filter(s, p) == r;
        SkipHead(r, s[0], s[1..]);
        assert [s[0]] + s[1..] == s;
      }
    }
  }

  /** Putting an element in front keeps a subsequence a subsequence. */
  lemma {:induction false} SkipHead<T>(a: seq<T>, x: T, b: seq<T>)
    requires IsSubsequence(a, b)
    ensures IsSubsequence(a, [x] + b)
    decreases |b|, 1
  {
    assert ([x] + b)[1..] == b;
    if a != [] && a[0] == x {
      SubsequenceTail(a, b);
    }
  }

  /** Dropping the first element of a subsequence keeps it a subsequence. */
  lemma {:induction false} SubsequenceTail<T>(a: seq<T>, b: seq<T>)
    requires a != [] && IsSubsequence(a, b)
    ensures IsSubsequence(a[1..], b)
    decreases |b|, 0
  {
    assert [b[0]] + b[1..] == b;
    if a[0] == b[0] {
      SkipHead(a[1..], b[0], b[1..]);
    } else {
      SubsequenceTail(a, b[1..]);
      SkipHead(a[1..], b[0], b[1..]);
    }
  }

  /** A filter with a stronger predicate keeps a subsequence of what the
      weaker one keeps. */
  lemma FilterStronger<T>(s: seq<T>, p: T -> bool, q: T -> bool)
    requires forall x :: q(x) ==> p(x)
    ensures IsSubsequence(Filter(s, q), Filter(s, p))
  {
    FilterFilter(s, p, q);
    FilterSame(s, x => p(x) && q(x), q);
    FilterIsSubsequence(Filter(s, p), q);
  }

  /** Predicates that agree on the elements of `s` filter it alike. */
  lemma {:induction false} FilterSame<T>(s: seq<T>, p: T -> bool, q: T -> bool)
    requires forall i :: 0 <= i < |s| ==> p(s[i]) == q(s[i])
    ensures Filter(s, p) == Filter(s, q)
    decreases |s|
  {
    if s != [] {
      FilterSame(s[1..], p, q);
    }
  }

  /** Filtering twice is filtering once by the conjunction. */
  lemma {:induction false} FilterFilter<T>(s: seq<T>, p: T -> bool, q: T -> bool)
    ensures Filter(Filter(s, p), q) == Filter(s, x => p(x) && q(x))
    decreases |s|
  {
    if s != [] {
      FilterFilter(s[1..], p, q);
      var head := if p(s[0]) then [s[0]] else [];
      FilterAppend(head, Filter(s[1..], p), q);
    }
  }

  /** Filtering twice is filtering once by any predicate equivalent to the
      conjunction. */
  lemma FilterFilterAs<T>(s: seq<T>, p: T -> bool, q: T -> bool, r: T -> bool)
    requires forall x :: r(x) == (p(x) && q(x))
    ensures Filter(Filter(s, p), q) == Filter(s, r)
  {
    FilterFilter(s, p, q);
    FilterSame(s, x => p(x) && q(x), r);
  }

  lemma {:induction false} FilterAppend<T>(a: seq<T>, b: seq<T>, p: T -> bool)
    ensures Filter(a + b, p) == Filter(a, p) + Filter(b, p)
    decreases |a|
  {
    if a != [] {
      assert (a + b)[1..] == a[1..] + b;
      FilterAppend(a[1..], b, p);
    } else {
      assert a + b == b;
    }
  }

  /** A filter whose predicate holds everywhere keeps everything. */
  lemma {:induction false} FilterAll<T>(s: seq<T>, p: T -> bool)
    requires forall x :: x in s ==> p(x)
    ensures Filter(s, p) == s
    decreases |s|
  {
    if s != [] {
      FilterAll(s[1..], p);
    }
  }

  /** A filter keeps every element exactly when the predicate holds for all
      of them. */
  lemma {:induction false} FilterKeepsAll<T>(s: seq<T>, p: T -> bool)
    ensures |Filter(s, p)| == |s| <==> forall i :: 0 <= i < |s| ==> p(s[i])
    decreases |s|
  {
    if s != [] {
      FilterKeepsAll(s[1..], p);
      if forall i :: 0 <= i < |s| ==> p(s[i]) {
        assert forall i :: 0 <= i < |s[1..]| ==> p(s[1..][i]) by {
          forall i | 0 <= i < |s[1..]| ensures p(s[1..][i]) {
            assert s[1..][i] == s[i + 1];
          }
        }
      } else {
        var k :| 0 <= k < |s| && !p(s[k]);
        if k > 0 {
          assert s[1..][k - 1] == s[k];
        }
      }
    }
  }

  /** Index of the first occurrence of `x` in `s`. */
  function FirstIndex<T(==)>(s: seq<T>, x: T): (i: nat)
    requires x in s
    ensures i < |s| && s[i] == x
    ensures forall j :: 0 <= j < i ==> s[j] != x
  {
    if s[0] == x then 0 else 1 + FirstIndex(s[1..], x)
  }

  predicate NoDuplicates<T(==)>(s: seq<T>) {
    forall i, j :: 0 <= i < j < |s| ==> s[i] != s[j]
  }

  /** The distinct elements of `s` in first-occurrence order: what spreading a
      JavaScript `Set` built from `s` yields. */
  function Distinct<T(==)>(s: seq<T>): (r: seq<T>)
    ensures forall i :: 0 <= i < |r| ==> r[i] in s
    ensures forall i :: 0 <= i < |s| ==> s[i] in r
    ensures NoDuplicates(r)
    decreases |s|
  {
    if s == [] then []
    else
      var d := Distinct(s[..|s| - 1]);
      var x := s[|s| - 1];
      assert forall i :: 0 <= i < |s| - 1 ==> s[i] == s[..|s| - 1][i];
      if x in d then d else d + [x]
  }

  /** The distinct elements appear in the order of their first occurrence. */
  lemma {:induction false} DistinctFirstOccurrenceOrder<T>(s: seq<T>)
    ensures forall i, j :: 0 <= i < j < |Distinct(s)| ==>
      FirstIndex(s, Distinct(s)[i]) < FirstIndex(s, Distinct(s)[j])
    decreases |s|
  {
    if s != [] {
      var init := s[..|s| - 1];
      var x := s[|s| - 1];
      assert init + [x] == s;
      DistinctFirstOccurrenceOrder(init);
      var d := Distinct(init);
      forall y | y in init
        ensures FirstIndex(s, y) == FirstIndex(init, y)
      {
        FirstIndexPrefix(init, x, y);
      }
      if x !in d {
        assert x !in init;
        assert FirstIndex(s, x) == |init|;
        assert Distinct(s) == d + [x];
      }
    }
  }

  lemma {:induction false} FirstIndexPrefix<T>(a: seq<T>, x: T, y: T)
    requires y in a
    ensures FirstIndex(a + [x], y) == FirstIndex(a, y)
    decreases |a|
  {
    if a[0] != y {
      assert (a + [x])[1..] == a[1..] + [x];
      FirstIndexPrefix(a[1..], x, y);
    }
  }
}
