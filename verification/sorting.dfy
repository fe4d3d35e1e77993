/**
 * The stable sort of `Array.prototype.sort` / Python's `sorted`, by a key under a total
 * preorder: an element is inserted after every element whose key is not greater.
 */
module Sorting {
  import Text

  ghost predicate TotalPreorder<K(!new)>(le: (K, K) -> bool)
  {
    (forall a, b :: le(a, b) || le(b, a)) &&
    (forall a, b, c :: le(a, b) && le(b, c) ==> le(a, c))
  }

  predicate SortedByKey<T, K>(s: seq<T>, key: T -> K, le: (K, K) -> bool)
  {
    forall i, j :: 0 <= i < j < |s| ==> le(key(s[i]), key(s[j]))
  }

  /** Inserts `x` after the leading run of elements whose key is at most the key of `x`. */
  function Insert<T, K>(x: T, s: seq<T>, key: T -> K, le: (K, K) -> bool): (r: seq<T>)
    ensures multiset(r) == multiset(s) + multiset{x}
    ensures |r| == |s| + 1
    decreases |s|
  {
    if |s| == 0 then [x]
    else
      assert s == [s[0]] + s[1..];
      if le(key(s[0]), key(x)) then [s[0]] + Insert(x, s[1..], key, le)
      else [x] + s
  }

  /** Stable insertion sort of `s` by `key`. */
  function SortByKey<T, K>(s: seq<T>, key: T -> K, le: (K, K) -> bool): (r: seq<T>)
    ensures multiset(r) == multiset(s)
    ensures |r| == |s|
    decreases |s|
  {
    if |s| == 0 then []
    else
      assert s == s[..|s| - 1] + [s[|s| - 1]];
      Insert(s[|s| - 1], SortByKey(s[..|s| - 1], key, le), key, le)
  }

  lemma {:induction false} InsertSorted<T, K(!new)>(x: T, s: seq<T>, key: T -> K, le: (K, K) -> bool)
    requires TotalPreorder(le) && SortedByKey(s, key, le)
    ensures SortedByKey(Insert(x, s, key, le), key, le)
    decreases |s|
  {
    if |s| > 0 {
      var r := Insert(x, s, key, le);
      if le(key(s[0]), key(x)) {
        var t := Insert(x, s[1..], key, le);
        InsertSorted(x, s[1..], key, le);
        forall j | 0 <= j < |t| ensures le(key(s[0]), key(t[j])) {
          assert t[j] in multiset(t);
          assert t[j] in multiset(s[1..]) || t[j] == x;
          if t[j] != x {
            var m :| 0 <= m < |s[1..]| && s[1..][m] == t[j];
            assert s[m + 1] == t[j];
          }
        }
        assert r == [s[0]] + t;
      } else {
        assert le(key(x), key(s[0]));
      }
    }
  }

  lemma {:induction false} SortByKeySorted<T, K(!new)>(s: seq<T>, key: T -> K, le: (K, K) -> bool)
    requires TotalPreorder(le)
    ensures SortedByKey(SortByKey(s, key, le), key, le)
    decreases |s|
  {
    if |s| > 0 {
      SortByKeySorted(s[..|s| - 1], key, le);
      InsertSorted(s[|s| - 1], SortByKey(s[..|s| - 1], key, le), key, le);
    }
  }

  /** Sorting a list that is already sorted leaves it as it is (the sort is stable). */
  lemma {:induction false} SortByKeyOfSorted<T, K(!new)>(s: seq<T>, key: T -> K, le: (K, K) -> bool)
    requires SortedByKey(s, key, le)
    ensures SortByKey(s, key, le) == s
    decreases |s|
  {
    if |s| > 0 {
      var p := s[..|s| - 1];
      SortByKeyOfSorted(p, key, le);
      InsertAtEnd(s[|s| - 1], p, key, le);
    }
  }

  lemma {:induction false} InsertAtEnd<T, K>(x: T, s: seq<T>, key: T -> K, le: (K, K) -> bool)
    requires forall i :: 0 <= i < |s| ==> le(key(s[i]), key(x))
    ensures Insert(x, s, key, le) == s + [x]
    decreases |s|
  {
    if |s| > 0 {
      InsertAtEnd(x, s[1..], key, le);
      assert s == [s[0]] + s[1..];
    }
  }

  lemma InsertHead<T, K>(x: T, s: seq<T>, key: T -> K, le: (K, K) -> bool)
    requires |s| > 0
    ensures Insert(x, s, key, le)[0] == if le(key(s[0]), key(x)) then s[0] else x
  {
  }

  /** `s[i]` has a minimal key, and every earlier element's key is strictly greater. */
  predicate FirstMinimal<T, K>(s: seq<T>, key: T -> K, le: (K, K) -> bool, i: int)
  {
    0 <= i < |s| &&
    (forall j :: 0 <= j < |s| ==> le(key(s[i]), key(s[j]))) &&
    (forall j :: 0 <= j < i ==> !le(key(s[j]), key(s[i])))
  }

  /** The head of the stable sort is the first element of minimal key. */
  lemma {:induction false} SortHeadIsFirstMinimal<T, K(!new)>(s: seq<T>, key: T -> K, le: (K, K) -> bool) returns (i: nat)
    requires |s| > 0 && TotalPreorder(le)
    ensures i < |s| && SortByKey(s, key, le)[0] == s[i]
    ensures FirstMinimal(s, key, le, i)
    decreases |s|
  {
    var x := s[|s| - 1];
    var init := s[..|s| - 1];
    assert s == init + [x];
    if |init| == 0 {
      i := 0;
      LeTotal(le, key(x), key(x));
    } else {
      var i0 := SortHeadIsFirstMinimal(init, key, le);
      var t := SortByKey(init, key, le);
      assert SortByKey(s, key, le) == Insert(x, t, key, le);
      InsertHead(x, t, key, le);
      i := FirstMinimalSnoc(init, x, key, le, i0);
    }
  }

  /** Appending `x` keeps the first minimal element unless `x`'s key is strictly smaller. */
  lemma FirstMinimalSnoc<T, K(!new)>(init: seq<T>, x: T, key: T -> K, le: (K, K) -> bool, i0: int) returns (i: nat)
    requires TotalPreorder(le) && FirstMinimal(init, key, le, i0)
    ensures FirstMinimal(init + [x], key, le, i)
    ensures i == if le(key(init[i0]), key(x)) then i0 else |init|
  {
    var s := init + [x];
    var k0 := key(init[i0]);
    if le(k0, key(x)) {
      i := i0;
      forall j | 0 <= j < |s| ensures le(k0, key(s[j])) {
        if j < |init| {
          assert s[j] == init[j];
        } else {
          assert s[j] == x;
        }
      }
      forall j | 0 <= j < i ensures !le(key(s[j]), k0) {
        assert s[j] == init[j];
      }
    } else {
      i := |init|;
      LeTotal(le, k0, key(x));
      forall j | 0 <= j < |s| ensures le(key(x), key(s[j])) {
        if j < |init| {
          assert s[j] == init[j];
          LeTransitive(le, key(x), k0, key(s[j]));
        } else {
          LeTotal(le, key(x), key(x));
        }
      }
      forall j | 0 <= j < i ensures !le(key(s[j]), key(x)) {
        assert s[j] == init[j];
        if le(key(s[j]), key(x)) {
          LeTransitive(le, k0, key(s[j]), key(x));
        }
      }
    }
  }

  lemma LeTotal<K(!new)>(le: (K, K) -> bool, a: K, b: K)
    requires TotalPreorder(le)
    ensures le(a, b) || le(b, a)
  {
  }

  lemma LeTransitive<K(!new)>(le: (K, K) -> bool, a: K, b: K, c: K)
    requires TotalPreorder(le) && le(a, b) && le(b, c)
    ensures le(a, c)
  {
  }

  function Reverse<T>(s: seq<T>): (r: seq<T>)
    ensures |r| == |s|
    ensures forall i :: 0 <= i < |s| ==> r[i] == s[|s| - 1 - i]
    decreases |s|
  {
    if |s| == 0 then [] else [s[|s| - 1]] + Reverse(s[..|s| - 1])
  }

  lemma ReverseMultiset<T>(s: seq<T>)
    ensures multiset(Reverse(s)) == multiset(s)
    decreases |s|
  {
    if |s| > 0 {
      ReverseMultiset(s[..|s| - 1]);
      assert s == s[..|s| - 1] + [s[|s| - 1]];
    }
  }

  /** Code-point order of strings, a total preorder. */
  predicate StringLe(a: string, b: string)
  {
    Text.StrLessEq(a, b)
  }

  lemma StringLeTotalPreorder()
    ensures TotalPreorder(StringLe)
  {
    forall a, b ensures StringLe(a, b) || StringLe(b, a) {
      if a != b { Text.StrLessTotal(a, b); }
    }
    forall a, b, c | StringLe(a, b) && StringLe(b, c) ensures StringLe(a, c) {
      if a != b && b != c { Text.StrLessTransitive(a, b, c); }
    }
  }

  predicate RealLe(a: real, b: real) { a <= b }

  lemma RealLeTotalPreorder()
    ensures TotalPreorder(RealLe)
  {
  }

  predicate NatLe(a: nat, b: nat) { a <= b }

  lemma NatLeTotalPreorder()
    ensures TotalPreorder(NatLe)
  {
  }
}
