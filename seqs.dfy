/** Sequence operations that stand for Python list idioms: the filtering comprehension
    `[x for x in s if p(x)]` and the stable `sorted(s, key=k, reverse=True)`. */
module Seqs {

  /** A non-empty sequence is its front followed by its last element. */
  lemma SplitLast<T>(s: seq<T>)
    requires s != []
    ensures s[..|s| - 1] + [s[|s| - 1]] == s
  {
  }

  lemma TakeAll<T>(s: seq<T>)
    ensures s[..|s|] == s
  {
  }

  /** `[x for x in s if p(x)]`. */
  function Filter<T>(s: seq<T>, p: T -> bool): (r: seq<T>)
    ensures |r| <= |s|
    ensures forall i :: 0 <= i < |r| ==> r[i] in s && p(r[i])
    ensures forall i :: 0 <= i < |s| && p(s[i]) ==> s[i] in r
    decreases |s|
  {
    if s == [] then []
    else if p(s[0]) then [s[0]] + Filter(s[1..], p)
    else Filter(s[1..], p)
  }

  /** Filtering one more element appends it exactly when it passes. */
  lemma {:induction false} FilterSnoc<T>(s: seq<T>, x: T, p: T -> bool)
    ensures Filter(s + [x], p) == Filter(s, p) + (if p(x) then [x] else [])
    decreases |s|
  {
    if s == [] {
      assert s + [x] == [x];
    } else {
      assert (s + [x])[1..] == s[1..] + [x];
      FilterSnoc(s[1..], x, p);
    }
  }

  /** `a` is obtained from `b` by deleting elements, keeping the order of the rest. */
  predicate IsSubsequence<T(==)>(a: seq<T>, b: seq<T>)
    decreases |b|
  {
    a == [] || (b != [] && ((a[0] == b[0] && IsSubsequence(a[1..], b[1..])) || IsSubsequence(a, b[1..])))
  }

  /** A filter keeps the order of what it keeps. */
  lemma {:induction false} FilterIsSubsequence<T>(s: seq<T>, p: T -> bool)
    ensures IsSubsequence(Filter(s, p), s)
    decreases |s|
  {
    if s != [] {
      FilterIsSubsequence(s[1..], p);
      if p(s[0]) {
        assert Filter(s, p) == [s[0]] + Filter(s[1..], p);
      } else {
        assert Filter(s, p) == Filter(s[1..], p);
      }
    }
  }

  /** Putting `x` in front of either part of a split of `t` splits `[x] + t`. */
  lemma ConsSplit<T>(x: T, a: seq<T>, b: seq<T>, t: seq<T>)
    requires multiset(a) + multiset(b) == multiset(t) && |a| + |b| == |t|
    ensures multiset([x] + a) + multiset(b) == multiset([x] + t) && |[x] + a| + |b| == |[x] + t|
    ensures multiset(a) + multiset([x] + b) == multiset([x] + t) && |a| + |[x] + b| == |[x] + t|
  {
  }

  /** Filtering by a predicate and by its negation splits `s` into two parts whose elements,
      counted with multiplicity, are exactly those of `s`. */
  lemma {:induction false} FilterPartition<T>(s: seq<T>, p: T -> bool, q: T -> bool)
    requires forall x :: q(x) == !p(x)
    ensures multiset(Filter(s, p)) + multiset(Filter(s, q)) == multiset(s)
    ensures |Filter(s, p)| + |Filter(s, q)| == |s|
    decreases |s|
  {
    if s != [] {
      var t := s[1..];
      FilterPartition(t, p, q);
      assert s == [s[0]] + t;
      ConsSplit(s[0], Filter(t, p), Filter(t, q), t);
    }
  }

  /** A filter that every element passes changes nothing. */
  lemma {:induction false} FilterAll<T>(s: seq<T>, p: T -> bool)
    requires forall i :: 0 <= i < |s| ==> p(s[i])
    ensures Filter(s, p) == s
    decreases |s|
  {
    if s != [] {
      FilterAll(s[1..], p);
    }
  }

  /** The keys of `s` never increase from left to right. */
  predicate NonIncreasing<T>(s: seq<T>, key: T -> int) {
    forall i, j :: 0 <= i < j < |s| ==> key(s[i]) >= key(s[j])
  }

  /** The elements of `s` whose key is `c`, in their order in `s`. */
  function WithKey<T>(s: seq<T>, key: T -> int, c: int): seq<T>
    decreases |s|
  {
    if s == [] then []
    else if key(s[0]) == c then [s[0]] + WithKey(s[1..], key, c)
    else WithKey(s[1..], key, c)
  }

  lemma {:induction false} WithKeyConcat<T>(a: seq<T>, b: seq<T>, key: T -> int, c: int)
    ensures WithKey(a + b, key, c) == WithKey(a, key, c) + WithKey(b, key, c)
    decreases |a|
  {
    if a == [] {
      assert a + b == b;
    } else {
      assert (a + b)[1..] == a[1..] + b;
      WithKeyConcat(a[1..], b, key, c);
    }
  }

  lemma {:induction false} WithKeyNone<T>(s: seq<T>, key: T -> int, c: int)
    requires forall i :: 0 <= i < |s| ==> key(s[i]) < c
    ensures WithKey(s, key, c) == []
    decreases |s|
  {
    if s != [] {
      WithKeyNone(s[1..], key, c);
    }
  }

  /** Inserts `x` into `s` after every element whose key is at least `x`'s. */
  function InsertDesc<T>(x: T, s: seq<T>, key: T -> int): (r: seq<T>)
    ensures |r| == |s| + 1
    ensures multiset(r) == multiset(s) + multiset{x}
    decreases |s|
  {
    if s == [] then [x]
    else if key(s[0]) >= key(x) then
      assert s == [s[0]] + s[1..];
      [s[0]] + InsertDesc(x, s[1..], key)
    else [x] + s
  }

  /** The inserted sequence starts with `x` or with the old first element. */
  lemma InsertDescHead<T>(x: T, s: seq<T>, key: T -> int)
    ensures InsertDesc(x, s, key)[0] == x || (s != [] && InsertDesc(x, s, key)[0] == s[0])
  {
  }

  lemma {:induction false} InsertDescSorted<T>(x: T, s: seq<T>, key: T -> int)
    requires NonIncreasing(s, key)
    ensures NonIncreasing(InsertDesc(x, s, key), key)
    decreases |s|
  {
    if s != [] && key(s[0]) >= key(x) {
      var t := InsertDesc(x, s[1..], key);
      NonIncreasingTail(s, key);
      InsertDescSorted(x, s[1..], key);
      InsertDescHead(x, s[1..], key);
      assert key(s[0]) >= key(t[0]) by {
        if t[0] != x { assert t[0] == s[1]; }
      }
      var r := [s[0]] + t;
      forall i, j | 0 <= i < j < |r| ensures key(r[i]) >= key(r[j]) {
        if i == 0 {
          assert r[j] == t[j - 1];
          if j > 1 { assert key(t[0]) >= key(t[j - 1]); }
        } else {
          assert r[i] == t[i - 1] && r[j] == t[j - 1];
        }
      }
      assert InsertDesc(x, s, key) == r;
    }
  }

  lemma NonIncreasingTail<T>(s: seq<T>, key: T -> int)
    requires s != [] && NonIncreasing(s, key)
    ensures NonIncreasing(s[1..], key)
  {
    forall i, j | 0 <= i < j < |s[1..]| ensures key(s[1..][i]) >= key(s[1..][j]) {
      assert s[1..][i] == s[i + 1] && s[1..][j] == s[j + 1];
    }
  }

  /** Inserting an element with another key leaves the elements with key `c` as they were. */
  lemma {:induction false} InsertDescWithOtherKey<T>(x: T, s: seq<T>, key: T -> int, c: int)
    requires key(x) != c
    ensures WithKey(InsertDesc(x, s, key), key, c) == WithKey(s, key, c)
    decreases |s|
  {
    if s != [] && key(s[0]) >= key(x) {
      InsertDescWithOtherKey(x, s[1..], key, c);
      assert ([s[0]] + InsertDesc(x, s[1..], key))[1..] == InsertDesc(x, s[1..], key);
    }
  }

  /** Inserting an element with key `c` into a sorted sequence puts it after every element
      that already has key `c`. */
  lemma {:induction false} InsertDescWithSameKey<T>(x: T, s: seq<T>, key: T -> int)
    requires NonIncreasing(s, key)
    ensures WithKey(InsertDesc(x, s, key), key, key(x)) == WithKey(s, key, key(x)) + [x]
    decreases |s|
  {
    if s == [] {
    } else if key(s[0]) >= key(x) {
      var t := InsertDesc(x, s[1..], key);
      NonIncreasingTail(s, key);
      InsertDescWithSameKey(x, s[1..], key);
      assert ([s[0]] + t)[1..] == t;
    } else {
      forall i | 0 <= i < |s| ensures key(s[i]) < key(x) {
        if i > 0 { assert key(s[0]) >= key(s[i]); }
      }
      WithKeyNone(s, key, key(x));
      assert ([x] + s)[1..] == s;
    }
  }

  /** Python's `sorted(s, key=key, reverse=True)`: insertion sort, stable for equal keys. */
  function SortDesc<T>(s: seq<T>, key: T -> int): (r: seq<T>)
    ensures |r| == |s|
    decreases |s|
  {
    if s == [] then [] else InsertDesc(s[|s| - 1], SortDesc(s[..|s| - 1], key), key)
  }

  lemma {:induction false} SortDescSorted<T>(s: seq<T>, key: T -> int)
    ensures NonIncreasing(SortDesc(s, key), key)
    decreases |s|
  {
    if s != [] {
      var n := |s| - 1;
      SortDescSorted(s[..n], key);
      InsertDescSorted(s[n], SortDesc(s[..n], key), key);
    }
  }

  lemma {:induction false} SortDescPermutes<T>(s: seq<T>, key: T -> int)
    ensures multiset(SortDesc(s, key)) == multiset(s)
    decreases |s|
  {
    if s != [] {
      var n := |s| - 1;
      SortDescPermutes(s[..n], key);
      assert s == s[..n] + [s[n]];
    }
  }

  lemma {:induction false} SortDescStable<T>(s: seq<T>, key: T -> int, c: int)
    ensures WithKey(SortDesc(s, key), key, c) == WithKey(s, key, c)
    decreases |s|
  {
    if s != [] {
      var n := |s| - 1;
      var pre, x := s[..n], s[n];
      var sorted := SortDesc(pre, key);
      assert SortDesc(s, key) == InsertDesc(x, sorted, key);
      assert WithKey(s, key, c) == WithKey(pre, key, c) + WithKey([x], key, c) by {
        assert s == pre + [x];
        WithKeyConcat(pre, [x], key, c);
      }
      assert WithKey(InsertDesc(x, sorted, key), key, c) == WithKey(sorted, key, c) + WithKey([x], key, c) by {
        if key(x) == c {
          SortDescSorted(pre, key);
          InsertDescWithSameKey(x, sorted, key);
        } else {
          InsertDescWithOtherKey(x, sorted, key, c);
        }
      }
      SortDescStable(pre, key, c);
    }
  }

  /** The sort yields keys in non-increasing order, is a permutation of its input, and
      keeps elements with equal keys in their original order. */
  lemma SortDescCorrect<T>(s: seq<T>, key: T -> int)
    ensures NonIncreasing(SortDesc(s, key), key)
    ensures multiset(SortDesc(s, key)) == multiset(s)
    ensures forall c :: WithKey(SortDesc(s, key), key, c) == WithKey(s, key, c)
  {
    SortDescSorted(s, key);
    SortDescPermutes(s, key);
    forall c ensures WithKey(SortDesc(s, key), key, c) == WithKey(s, key, c) {
      SortDescStable(s, key, c);
    }
  }

  /** No element of `s` occurs twice. */
  predicate Distinct<T(==)>(s: seq<T>) {
    forall i, j :: 0 <= i < j < |s| ==> s[i] != s[j]
  }
}
