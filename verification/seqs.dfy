/** Generic sequence operations shared by the client and the server models. */
module Seqs {

  /** `a` can be obtained from `b` by deleting elements (order is kept). */
  predicate IsSubsequence<T(==)>(a: seq<T>, b: seq<T>)
    decreases |b|
  {
    |a| == 0 || (|b| > 0 && if a[0] == b[0] then IsSubsequence(a[1..], b[1..]) else IsSubsequence(a, b[1..]))
  }

  /** `a` is an initial segment of `b`. */
  predicate IsPrefix<T(==)>(a: seq<T>, b: seq<T>) {
    |a| <= |b| && b[..|a|] == a
  }

  /** No element occurs twice. */
  predicate Distinct<T(==)>(s: seq<T>) {
    forall i, j :: 0 <= i < j < |s| ==> s[i] != s[j]
  }

  lemma {:induction false} SubsequenceOfTail<T>(a: seq<T>, b: seq<T>)
    requires |a| > 0 && IsSubsequence(a, b)
    ensures IsSubsequence(a[1..], b)
    decreases |b|, 1
  {
    if a[0] == b[0] {
      if |a| > 1 {
        DropHead(a[1..], b);
      }
    } else {
      SubsequenceOfTail(a, b[1..]);
      if |a| > 1 {
        DropHead(a[1..], b);
      }
    }
  }

  /** A subsequence of the tail is a subsequence of the whole. */
  lemma {:induction false} DropHead<T>(a: seq<T>, b: seq<T>)
    requires |b| > 0 && IsSubsequence(a, b[1..])
    ensures IsSubsequence(a, b)
    decreases |b|, 0
  {
    if |a| > 0 && a[0] == b[0] {
      SubsequenceOfTail(a, b[1..]);
    }
  }

  lemma {:induction false} SubsequenceReflexive<T>(s: seq<T>)
    ensures IsSubsequence(s, s)
    decreases |s|
  {
    if |s| > 0 {
      SubsequenceReflexive(s[1..]);
    }
  }

  /** Every element of a subsequence occurs in the sequence it was taken from. */
  lemma {:induction false} SubsequenceMembers<T>(a: seq<T>, b: seq<T>)
    requires IsSubsequence(a, b)
    ensures forall x :: x in a ==> x in b
    decreases |b|
  {
    if |a| > 0 {
      if a[0] == b[0] {
        SubsequenceMembers(a[1..], b[1..]);
        assert forall x :: x in a ==> x == a[0] || x in a[1..];
      } else {
        SubsequenceMembers(a, b[1..]);
      }
    }
  }

  /** A subsequence is never longer than the sequence it was taken from. */
  lemma {:induction false} SubsequenceLength<T>(a: seq<T>, b: seq<T>)
    requires IsSubsequence(a, b)
    ensures |a| <= |b|
    decreases |b|
  {
    if |a| > 0 {
      if a[0] == b[0] {
        SubsequenceLength(a[1..], b[1..]);
      } else {
        SubsequenceLength(a, b[1..]);
      }
    }
  }

  /** The set of a sequence's elements (Python's `set(xs)`). */
  function Elements<T(!new)>(xs: seq<T>): (r: set<T>)
    ensures forall x :: x in r <==> x in xs
  {
    set x | x in xs
  }

  /** Collapsing a sequence to a set never adds elements. */
  lemma {:induction false} ElementsNoLarger<T(!new)>(xs: seq<T>)
    ensures |Elements(xs)| <= |xs|
    decreases |xs|
  {
    if |xs| > 0 {
      ElementsNoLarger(xs[1..]);
      assert Elements(xs) == {xs[0]} + Elements(xs[1..]) by {
        assert forall x :: x in xs <==> x == xs[0] || x in xs[1..];
      }
    }
  }

  /** A subsequence of a duplicate-free sequence is duplicate-free. */
  lemma {:induction false} SubsequenceDistinct<T>(a: seq<T>, b: seq<T>)
    requires IsSubsequence(a, b) && Distinct(b)
    ensures Distinct(a)
    decreases |b|
  {
    if |a| > 0 {
      assert Distinct(b[1..]) by {
        forall i, j | 0 <= i < j < |b[1..]| ensures b[1..][i] != b[1..][j] {
          assert b[1..][i] == b[i + 1] && b[1..][j] == b[j + 1];
        }
      }
      if a[0] == b[0] {
        SubsequenceDistinct(a[1..], b[1..]);
        SubsequenceMembers(a[1..], b[1..]);
        forall j | 0 < j < |a| ensures a[0] != a[j] {
          assert a[j] == a[1..][j - 1];
          assert a[j] in b[1..];
        }
      } else {
        SubsequenceDistinct(a, b[1..]);
      }
    }
  }

  /** Two duplicate-free sequences with no element in common concatenate to
      a duplicate-free sequence. */
  lemma DistinctConcat<T>(a: seq<T>, b: seq<T>)
    requires Distinct(a) && Distinct(b)
    requires forall x :: x in a ==> x !in b
    ensures Distinct(a + b)
  {
    var all := a + b;
    forall i, j | 0 <= i < j < |all| ensures all[i] != all[j] {
      if j < |a| {
        assert all[i] == a[i] && all[j] == a[j];
      } else if i >= |a| {
        assert all[i] == b[i - |a|] && all[j] == b[j - |a|];
      } else {
        assert all[i] == a[i] && a[i] in a;
        assert all[j] == b[j - |a|] && b[j - |a|] in b;
      }
    }
  }

  /** The first `n` elements (all of them when there are fewer), as
      `slice(0, n)` in JavaScript and `[:n]` in Python for `n >= 0`. */
  function Take<T>(s: seq<T>, n: nat): (r: seq<T>)
    ensures |r| == if n < |s| then n else |s|
    ensures r == s[..|r|]
  {
    if n < |s| then s[..n] else s
  }

  /** How many elements Python's `s[:n]` keeps of a sequence of length
      `len`: a negative `n` drops `-n` elements from the end. */
  function SliceLength(len: nat, n: int): (k: nat)
    ensures k <= len
    ensures n >= 0 ==> k == if n < len then n else len
    ensures n < 0 ==> k + (if -n < len then -n else len) == len
  {
    if n >= 0 then (if n < len then n else len)
    else if len + n > 0 then len + n
    else 0
  }

  /** The elements at every position except `index`: JavaScript's
      `xs.filter((_, i) => i !== index)`. */
  function Without<T>(xs: seq<T>, index: int): (r: seq<T>)
    ensures 0 <= index < |xs| ==> |r| == |xs| - 1 && r[..index] == xs[..index] && r[index..] == xs[index + 1..]
    ensures !(0 <= index < |xs|) ==> r == xs
    decreases |xs|
  {
    if |xs| == 0 then []
    else if index == 0 then xs[1..]
    else
      var rest := Without(xs[1..], index - 1);
      assert 0 < index < |xs| ==> ([xs[0]] + rest)[..index] == [xs[0]] + rest[..index - 1];
      assert 0 < index < |xs| ==> ([xs[0]] + rest)[index..] == rest[index - 1..];
      assert 0 < index < |xs| ==> xs[..index] == [xs[0]] + xs[1..][..index - 1] && xs[index + 1..] == xs[1..][index..];
      [xs[0]] + rest
  }

  /** In a duplicate-free sequence, the value at position `j` survives the
      removal of position `index` exactly when `j` differs from `index`;
      nothing new appears. */
  lemma WithoutDistinct<T>(xs: seq<T>, index: int)
    requires Distinct(xs) && 0 <= index < |xs|
    ensures forall j :: 0 <= j < |xs| ==> (xs[j] in Without(xs, index) <==> j != index)
    ensures forall x :: x in Without(xs, index) ==> x in xs
  {
    var r := Without(xs, index);
    assert r == xs[..index] + xs[index + 1..];
    forall j | 0 <= j < |xs| ensures xs[j] in r <==> j != index {
      if j < index {
        assert r[j] == xs[j];
      } else if j > index {
        assert r[j - 1] == xs[j];
      }
    }
  }

  /** Removing one position keeps the others in order. */
  lemma {:induction false} WithoutIsSubsequence<T>(xs: seq<T>, index: int)
    ensures IsSubsequence(Without(xs, index), xs)
    decreases |xs|
  {
    if |xs| > 0 {
      var rest := Without(xs[1..], index - 1);
      WithoutIsSubsequence(xs[1..], index - 1);
      if index == 0 {
        assert Without(xs, index) == rest;
        DropHead(rest, xs);
      } else {
        assert Without(xs, index) == [xs[0]] + rest;
        assert ([xs[0]] + rest)[1..] == rest;
      }
    }
  }

  /** Elements of `xs` that do not occur in `ys`, in order:
      `xs.filter(s => !ys.includes(s))`. */
  function Absent<T(==,!new)>(xs: seq<T>, ys: seq<T>): (r: seq<T>)
    ensures forall x :: x in r <==> x in xs && x !in ys
    ensures IsSubsequence(r, xs)
    decreases |xs|
  {
    if |xs| == 0 then []
    else if xs[0] in ys then
      var rest := Absent(xs[1..], ys);
      DropHead(rest, xs);
      rest
    else [xs[0]] + Absent(xs[1..], ys)
  }

  /** The dictionary built by assigning each pair in order, so that a key
      repeated in `pairs` keeps the value of its LAST occurrence
      (`{k: v for k, v in pairs}` in Python). */
  function LastWins<K(!new), V>(pairs: seq<(K, V)>): (m: map<K, V>)
    ensures forall k :: k in m <==> exists i :: 0 <= i < |pairs| && pairs[i].0 == k
    ensures forall i :: 0 <= i < |pairs| && (forall j :: i < j < |pairs| ==> pairs[j].0 != pairs[i].0) ==> m[pairs[i].0] == pairs[i].1
    decreases |pairs|
  {
    if |pairs| == 0 then map[]
    else
      var init := pairs[..|pairs| - 1];
      var last := pairs[|pairs| - 1];
      var m := LastWins(init)[last.0 := last.1];
      assert forall i :: 0 <= i < |init| ==> init[i] == pairs[i];
      m
  }
}
