/** Filtering lists, and the sub-list relation a filter keeps. */
module Seqs {

  /** `a` is `b` with some elements left out, the rest in their order. */
  predicate Subsequence<T(==)>(a: seq<T>, b: seq<T>)
    decreases |b|
  {
    if |a| == 0 then true
    else if |b| == 0 then false
    else if a[0] == b[0] then Subsequence(a[1..], b[1..])
    else Subsequence(a, b[1..])
  }

  /** `Array.prototype.filter`. */
  function Filter<T>(s: seq<T>, p: T -> bool): (r: seq<T>)
    ensures |r| <= |s|
    decreases |s|
  {
    if |s| == 0 then [] else (if p(s[0]) then [s[0]] else []) + Filter(s[1..], p)
  }

  /** `Array.prototype.some`: some element satisfies `p`. */
  predicate Any<T>(s: seq<T>, p: T -> bool)
  {
    exists k :: 0 <= k < |s| && p(s[k])
  }

  /** Some element of a list satisfies `p` iff one of its front does or its last one does. */
  lemma AnySnoc<T>(s: seq<T>, p: T -> bool)
    requires |s| > 0
    ensures Any(s, p) <==> Any(s[..|s| - 1], p) || p(s[|s| - 1])
  {
    var init := s[..|s| - 1];
    if Any(init, p) {
      var k :| 0 <= k < |init| && p(init[k]);
      assert s[k] == init[k];
    }
    if Any(s, p) {
      var k :| 0 <= k < |s| && p(s[k]);
      if k < |init| {
        assert init[k] == s[k];
      }
    }
  }

  /** Appending to the second part of a concatenation appends to the whole. */
  lemma AppendSnoc<T>(a: seq<T>, b: seq<T>, x: T)
    ensures a + (b + [x]) == (a + b) + [x]
  {
  }

  /** The filter keeps exactly the elements that satisfy the test. */
  lemma {:induction false} FilterMembers<T>(s: seq<T>, p: T -> bool)
    ensures forall x :: x in Filter(s, p) <==> x in s && p(x)
    decreases |s|
  {
    if |s| > 0 {
      FilterMembers(s[1..], p);
      assert s == [s[0]] + s[1..];
    }
  }

  lemma {:induction false} FilterSubsequence<T>(s: seq<T>, p: T -> bool)
    ensures Subsequence(Filter(s, p), s)
    decreases |s|
  {
    if |s| > 0 {
      FilterSubsequence(s[1..], p);
      if p(s[0]) {
        assert Filter(s, p) == [s[0]] + Filter(s[1..], p);
        assert Filter(s, p)[1..] == Filter(s[1..], p);
      } else {
        assert Filter(s, p) == Filter(s[1..], p);
        SkipHead(Filter(s[1..], p), s);
      }
    }
  }

  /** Dropping the head of the longer list keeps a sub-list a sub-list of the whole. */
  lemma SkipHead<T>(a: seq<T>, b: seq<T>)
    requires |b| > 0 && Subsequence(a, b[1..])
    ensures Subsequence(a, b)
    decreases |b|, 0
  {
    if |a| > 0 && a[0] == b[0] {
      SubsequenceTail(a, b[1..]);
    }
  }

  /** A sub-list with its head removed is still a sub-list. */
  lemma {:induction false} SubsequenceTail<T>(a: seq<T>, b: seq<T>)
    requires |a| > 0 && Subsequence(a, b)
    ensures Subsequence(a[1..], b)
    decreases |b|, 1
  {
    if |b| > 0 {
      if a[0] == b[0] {
        SkipHead(a[1..], b);
      } else {
        SubsequenceTail(a, b[1..]);
        SkipHead(a[1..], b);
      }
    }
  }

  /** A sub-list of a sub-list is a sub-list. */
  lemma {:induction false} SubsequenceTransitive<T>(a: seq<T>, b: seq<T>, c: seq<T>)
    requires Subsequence(a, b) && Subsequence(b, c)
    ensures Subsequence(a, c)
    decreases |c|
  {
    if |a| > 0 {
      if b[0] == c[0] {
        if a[0] == b[0] {
          SubsequenceTransitive(a[1..], b[1..], c[1..]);
        } else {
          SubsequenceTransitive(a, b[1..], c[1..]);
          SkipHead(a, c);
        }
      } else {
        SubsequenceTransitive(a, b, c[1..]);
        SkipHead(a, c);
      }
    }
  }

  /** A prefix is a sub-list. */
  lemma {:induction false} PrefixSubsequence<T>(s: seq<T>, n: nat)
    requires n <= |s|
    ensures Subsequence(s[..n], s)
    decreases n
  {
    if n > 0 {
      PrefixSubsequence(s[1..], n - 1);
      assert s[..n][1..] == s[1..][..n - 1];
    }
  }

  /** Filtering one more element of `s`, as a loop over `s` does. */
  lemma FilterStep<T>(s: seq<T>, i: nat, p: T -> bool)
    requires i < |s|
    ensures Filter(s[..i + 1], p) == Filter(s[..i], p) + (if p(s[i]) then [s[i]] else [])
  {
    assert s[..i + 1] == s[..i] + [s[i]];
    FilterSnoc(s[..i], s[i], p);
  }

  /** Filtering a list one element longer. */
  lemma {:induction false} FilterSnoc<T>(s: seq<T>, x: T, p: T -> bool)
    ensures Filter(s + [x], p) == Filter(s, p) + (if p(x) then [x] else [])
    decreases |s|
  {
    if |s| == 0 {
      assert s + [x] == [x];
    } else {
      assert (s + [x])[0] == s[0];
      assert (s + [x])[1..] == s[1..] + [x];
      FilterSnoc(s[1..], x, p);
      var head := if p(s[0]) then [s[0]] else [];
      assert Filter(s + [x], p) == head + Filter(s[1..] + [x], p);
      assert Filter(s, p) == head + Filter(s[1..], p);
    }
  }

  /** A filter that every element passes changes nothing. */
  lemma {:induction false} FilterAll<T>(s: seq<T>, p: T -> bool)
    requires forall k :: 0 <= k < |s| ==> p(s[k])
    ensures Filter(s, p) == s
    decreases |s|
  {
    if |s| > 0 {
      FilterAll(s[1..], p);
    }
  }

  /** A filter that no element passes leaves nothing. */
  lemma {:induction false} FilterNone<T>(s: seq<T>, p: T -> bool)
    requires forall x :: x in s ==> !p(x)
    ensures Filter(s, p) == []
    decreases |s|
  {
    if |s| > 0 {
      assert s[0] in s;
      FilterNone(s[1..], p);
    }
  }

  /** Filtering twice with the same test is filtering once. */
  lemma {:induction false} FilterIdempotent<T>(s: seq<T>, p: T -> bool)
    ensures Filter(Filter(s, p), p) == Filter(s, p)
    decreases |s|
  {
    if |s| > 0 {
      FilterIdempotent(s[1..], p);
      if p(s[0]) {
        assert Filter(s, p) == [s[0]] + Filter(s[1..], p);
        assert Filter(s, p)[1..] == Filter(s[1..], p);
      } else {
        assert Filter(s, p) == Filter(s[1..], p);
      }
    }
  }

  /** The first `n` elements, or all of them when there are fewer (`slice(0, n)`). */
  function Take<T>(s: seq<T>, n: nat): (r: seq<T>)
    ensures |r| == if |s| < n then |s| else n
    ensures r == s[..|r|]
  {
    if |s| <= n then s else s[..n]
  }
}
