/** Python's `list.sort(key=..., reverse=True)`: a STABLE sort into
    non-increasing key order, so that elements with equal keys keep their
    original relative order. */
module Sorting {
  import opened Seqs

  predicate SortedDesc<T>(s: seq<T>, key: T -> real) {
    forall i, j :: 0 <= i < j < |s| ==> key(s[i]) >= key(s[j])
  }

  /** The elements whose key equals `w`, in order. Two sequences with the
      same key classes for every `w` agree on the order of equal keys. */
  function KeyClass<T>(s: seq<T>, key: T -> real, w: real): seq<T>
    decreases |s|
  {
    if |s| == 0 then []
    else (if key(s[0]) == w then [s[0]] else []) + KeyClass(s[1..], key, w)
  }

  /** Places `x` in front of the first element whose key is not larger. */
  function Insert<T>(x: T, s: seq<T>, key: T -> real): (r: seq<T>)
    ensures |r| == |s| + 1
    ensures multiset(r) == multiset(s) + multiset{x}
    decreases |s|
  {
    if |s| == 0 then [x]
    else if key(s[0]) <= key(x) then [x] + s
    else
      assert s == [s[0]] + s[1..];
      [s[0]] + Insert(x, s[1..], key)
  }

  lemma {:induction false} InsertSorted<T>(x: T, s: seq<T>, key: T -> real)
    requires SortedDesc(s, key)
    ensures SortedDesc(Insert(x, s, key), key)
    decreases |s|
  {
    if |s| > 0 && key(s[0]) > key(x) {
      var rest := Insert(x, s[1..], key);
      InsertSorted(x, s[1..], key);
      forall y | y in rest ensures key(y) <= key(s[0]) {
        assert y in multiset(rest);
        assert y == x || y in multiset(s[1..]);
      }
      assert Insert(x, s, key) == [s[0]] + rest;
    }
  }

  function SortDesc<T>(xs: seq<T>, key: T -> real): (r: seq<T>)
    ensures |r| == |xs|
    ensures multiset(r) == multiset(xs)
    ensures SortedDesc(r, key)
    decreases |xs|
  {
    if |xs| == 0 then []
    else
      assert xs == [xs[0]] + xs[1..];
      var rest := SortDesc(xs[1..], key);
      InsertSorted(xs[0], rest, key);
      Insert(xs[0], rest, key)
  }

  lemma KeyClassCons<T>(a: T, t: seq<T>, key: T -> real, w: real)
    ensures KeyClass([a] + t, key, w) == (if key(a) == w then [a] else []) + KeyClass(t, key, w)
  {
    assert ([a] + t)[1..] == t;
  }

  lemma {:induction false} InsertKeyClass<T>(x: T, s: seq<T>, key: T -> real, w: real)
    ensures KeyClass(Insert(x, s, key), key, w)
         == (if key(x) == w then [x] else []) + KeyClass(s, key, w)
    decreases |s|
  {
    if |s| == 0 {
      KeyClassCons(x, s, key, w);
    } else if key(s[0]) <= key(x) {
      KeyClassCons(x, s, key, w);
    } else {
      var rest := Insert(x, s[1..], key);
      assert Insert(x, s, key) == [s[0]] + rest;
      KeyClassCons(s[0], rest, key, w);
      InsertKeyClass(x, s[1..], key, w);
      assert s == [s[0]] + s[1..];
      KeyClassCons(s[0], s[1..], key, w);
      // key(s[0]) > key(x), so at most one of the two is in class w
      var cs: seq<T> := if key(s[0]) == w then [s[0]] else [];
      var cx: seq<T> := if key(x) == w then [x] else [];
      var tail := KeyClass(s[1..], key, w);
      if cs == [] {
        assert cs + (cx + tail) == cx + (cs + tail);
      } else {
        assert cx == [];
        assert cs + (cx + tail) == cx + (cs + tail);
      }
    }
  }

  /** Stability: sorting does not reorder elements that share a key. */
  lemma {:induction false} SortIsStable<T>(xs: seq<T>, key: T -> real, w: real)
    ensures KeyClass(SortDesc(xs, key), key, w) == KeyClass(xs, key, w)
    decreases |xs|
  {
    if |xs| > 0 {
      InsertKeyClass(xs[0], SortDesc(xs[1..], key), key, w);
      SortIsStable(xs[1..], key, w);
    }
  }

  /** Cutting a sequence short keeps a prefix of every key class. */
  lemma {:induction false} TakeKeyClass<T>(s: seq<T>, n: nat, key: T -> real, w: real)
    requires n <= |s|
    ensures IsPrefix(KeyClass(s[..n], key, w), KeyClass(s, key, w))
    decreases n
  {
    if n > 0 {
      assert s[..n][1..] == s[1..][..n - 1];
      TakeKeyClass(s[1..], n - 1, key, w);
    }
  }

  /** In a sorted rearrangement of `xs`, the first `n` elements come from
      `xs` and weigh at least as much as any element of `xs` left out. */
  lemma PrefixHoldsLargest<T>(xs: seq<T>, s: seq<T>, n: nat, key: T -> real)
    requires multiset(s) == multiset(xs) && SortedDesc(s, key) && n <= |s|
    ensures forall x :: x in s[..n] ==> x in xs
    ensures forall y, x :: y in s[..n] && x in xs && x !in s[..n] ==> key(y) >= key(x)
    ensures SortedDesc(s[..n], key)
  {
    assert forall i :: 0 <= i < n ==> s[..n][i] == s[i];
    forall x | x in s[..n] ensures x in xs {
      assert x in multiset(s);
    }
    forall y, x | y in s[..n] && x in xs && x !in s[..n] ensures key(y) >= key(x) {
      var i :| 0 <= i < n && s[..n][i] == y;
      assert x in multiset(s);
      var j :| 0 <= j < |s| && s[j] == x;
    }
  }

  /** Counting copies: the first `n` elements of a sorted rearrangement of
      `xs` are a sub-multiset of `xs`, and any copy left behind weighs no
      more than each element kept. */
  lemma PrefixLeavesLighterCopies<T>(xs: seq<T>, s: seq<T>, n: nat, key: T -> real)
    requires multiset(s) == multiset(xs) && SortedDesc(s, key) && n <= |s|
    ensures multiset(s[..n]) <= multiset(xs)
    ensures forall y, x :: y in s[..n] && x in xs && multiset(s[..n])[x] < multiset(xs)[x] ==> key(y) >= key(x)
  {
    assert s == s[..n] + s[n..];
    assert multiset(s) == multiset(s[..n]) + multiset(s[n..]);
    forall y, x | y in s[..n] && x in xs && multiset(s[..n])[x] < multiset(xs)[x] ensures key(y) >= key(x) {
      var i :| 0 <= i < n && s[..n][i] == y;
      assert x in multiset(s[n..]);
      var j :| 0 <= j < |s| - n && s[n..][j] == x;
      assert s[i] == y && s[n + j] == x;
    }
  }

  /** The `n` elements with the largest keys, heaviest first: the first `n`
      elements of the stable descending sort of `xs` (all of them when
      there are fewer). Repeated elements are counted: the result is a
      sub-multiset of `xs`, and every copy left behind weighs no more than
      anything kept. */
  function Top<T>(xs: seq<T>, n: nat, key: T -> real): (r: seq<T>)
    ensures |r| == if n < |xs| then n else |xs|
    ensures SortedDesc(r, key)
    ensures multiset(r) <= multiset(xs)
    ensures forall x :: x in r ==> x in xs
    ensures forall y, x :: y in r && x in xs && multiset(r)[x] < multiset(xs)[x] ==> key(y) >= key(x)
    ensures forall y, x :: y in r && x in xs && x !in r ==> key(y) >= key(x)
  {
    var s := SortDesc(xs, key);
    var k := if n < |s| then n else |s|;
    PrefixHoldsLargest(xs, s, k, key);
    PrefixLeavesLighterCopies(xs, s, k, key);
    s[..k]
  }

  /** Among elements of equal key, the top slice keeps a prefix of their
      original order: ties are broken by position in `xs`. */
  lemma TopKeepsTies<T>(xs: seq<T>, n: nat, key: T -> real, w: real)
    ensures IsPrefix(KeyClass(Top(xs, n, key), key, w), KeyClass(xs, key, w))
  {
    var s := SortDesc(xs, key);
    SortIsStable(xs, key, w);
    TakeKeyClass(s, |Top(xs, n, key)|, key, w);
  }
}
