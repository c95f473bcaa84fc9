/** Sequence vocabulary used to state what the Java list and array code does:
    first and last matches of a name, removal at an index, the array resize of
    `setNumberOfPieces`, and repeated in-place doubling of a list. */
module Seqs {

  /** No element occurs twice. */
  predicate Distinct<T(==)>(s: seq<T>)
  {
    forall i, j :: 0 <= i < j < |s| ==> s[i] != s[j]
  }

  /** Index of the first occurrence of `x`, as a left-to-right scan finds it. */
  function FirstIndex<T(==)>(s: seq<T>, x: T): (i: nat)
    requires x in s
    ensures i < |s| && s[i] == x
    ensures forall j :: 0 <= j < i ==> s[j] != x
  {
    if s[0] == x then 0 else 1 + FirstIndex(s[1..], x)
  }

  /** Index of the last occurrence of `x`: the one a scan that keeps
      overwriting its candidate ends with. */
  function LastIndex<T(==)>(s: seq<T>, x: T): (i: nat)
    requires x in s
    ensures i < |s| && s[i] == x
    ensures forall j :: i < j < |s| ==> s[j] != x
  {
    if s[|s| - 1] == x then |s| - 1 else LastIndex(s[..|s| - 1], x)
  }

  /** Scanning one more element: it becomes the last match if it matches. */
  lemma LastIndexStep<T>(s: seq<T>, y: T, x: T)
    ensures x in s + [y] <==> x in s || y == x
    ensures x in s + [y] ==> LastIndex(s + [y], x) == if y == x then |s| else LastIndex(s, x)
  {
    assert (s + [y])[..|s|] == s;
  }

  /** Every requested element occurs in `s`. */
  predicate AllIn<T(==)>(requested: seq<T>, s: seq<T>)
  {
    forall k :: 0 <= k < |requested| ==> requested[k] in s
  }

  /** `s` with the element at index `i` taken out (`LinkedList.remove`). */
  function RemoveAt<T>(s: seq<T>, i: nat): (r: seq<T>)
    requires i < |s|
    ensures |r| == |s| - 1
    ensures forall k :: 0 <= k < i ==> r[k] == s[k]
    ensures forall k :: i <= k < |r| ==> r[k] == s[k + 1]
  {
    s[..i] + s[i + 1..]
  }

  /** `n` copies of `x`. */
  function Fill<T>(n: nat, x: T): (r: seq<T>)
    ensures |r| == n
    ensures forall i :: 0 <= i < n ==> r[i] == x
  {
    if n == 0 then [] else Fill(n - 1, x) + [x]
  }

  /** The piece array after `Arrays.copyOf(s, n)` followed by the loop that
      fills every new slot, one at a time, with the old last entry. */
  function Resized<T>(s: seq<T>, n: nat): (r: seq<T>)
    requires n <= |s| || 0 < |s|
    ensures |r| == n
    decreases n
  {
    if n <= |s| then s[..n] else Resized(s, n - 1) + [s[|s| - 1]]
  }

  /** Growing appends copies of the old last entry. */
  lemma {:induction false} ResizedGrown<T>(s: seq<T>, n: nat)
    requires 0 < |s| <= n
    ensures Resized(s, n) == s + Fill(n - |s|, s[|s| - 1])
    decreases n
  {
    if n > |s| {
      ResizedGrown(s, n - 1);
    } else {
      assert s[..n] == s;
    }
  }

  /** The shape of a resize: the new length, the kept prefix, and the grown
      slots all holding the old last entry. */
  lemma ResizedShape<T>(s: seq<T>, n: nat)
    requires n <= |s| || 0 < |s|
    ensures |Resized(s, n)| == n
    ensures forall k :: 0 <= k < n && k < |s| ==> Resized(s, n)[k] == s[k]
    ensures forall k :: |s| <= k < n ==> Resized(s, n)[k] == s[|s| - 1]
  {
    if n > |s| {
      ResizedGrown(s, n);
    }
  }

  /** Every entry of a resized list comes from the original list. */
  lemma ResizedElements<T>(s: seq<T>, n: nat, x: T)
    requires n <= |s| || 0 < |s|
    ensures x in Resized(s, n) ==> x in s
  {
    ResizedShape(s, n);
    if x in Resized(s, n) {
      var k :| 0 <= k < |Resized(s, n)| && Resized(s, n)[k] == x;
      if k >= |s| {
        assert x == s[|s| - 1];
      }
    }
  }

  /** Resizing twice to the same length is resizing once, so a pizza that is
      requested twice in one call ends with the same pieces. */
  lemma ResizedTwice<T>(s: seq<T>, n: nat)
    requires n <= |s| || 0 < |s|
    ensures Resized(Resized(s, n), n) == Resized(s, n)
  {
    assert |Resized(s, n)| == n;
  }

  /** How many times `x` occurs in `s`. */
  function Count<T(==)>(s: seq<T>, x: T): nat
  {
    if s == [] then 0 else Count(s[..|s| - 1], x) + (if s[|s| - 1] == x then 1 else 0)
  }

  lemma {:induction false} CountAppend<T>(a: seq<T>, b: seq<T>, x: T)
    ensures Count(a + b, x) == Count(a, x) + Count(b, x)
    decreases |b|
  {
    if b == [] {
      assert a + b == a;
    } else {
      var b' := b[..|b| - 1];
      assert (a + b)[..|a + b| - 1] == a + b';
      CountAppend(a, b', x);
    }
  }

  lemma {:induction false} CountFill<T>(n: nat, x: T, y: T)
    ensures Count(Fill(n, x), y) == if x == y then n else 0
  {
    if n > 0 {
      CountFill(n - 1, x, y);
    }
  }

  lemma {:induction false} CountDistinct<T>(s: seq<T>, i: nat)
    requires Distinct(s) && i < |s|
    ensures Count(s, s[i]) == 1
  {
    var p := s[..|s| - 1];
    assert s == p + [s[|s| - 1]];
    if i == |s| - 1 {
      assert s[i] !in p;
      CountAbsent(p, s[i]);
    } else {
      assert s[|s| - 1] != s[i];
      CountDistinct(p, i);
    }
  }

  lemma {:induction false} CountAbsent<T>(s: seq<T>, x: T)
    requires x !in s
    ensures Count(s, x) == 0
  {
    if s != [] {
      assert s[..|s| - 1] + [s[|s| - 1]] == s;
      CountAbsent(s[..|s| - 1], x);
    }
  }

  lemma {:induction false} CountPositive<T>(s: seq<T>, x: T)
    requires x in s
    ensures Count(s, x) > 0
  {
    var p := s[..|s| - 1];
    assert s == p + [s[|s| - 1]];
    if s[|s| - 1] != x {
      assert x in p;
      CountPositive(p, x);
    }
  }

  /** Growing a list of distinct pieces makes the grown slots share the old
      last piece: it then occurs once for itself and once per new slot. */
  lemma ResizedLastCount<T>(s: seq<T>, n: nat)
    requires Distinct(s) && 0 < |s| <= n
    ensures Count(Resized(s, n), s[|s| - 1]) == n - |s| + 1
    ensures forall i :: 0 <= i < |s| - 1 ==> Count(Resized(s, n), s[i]) == 1
  {
    var last := s[|s| - 1];
    ResizedGrown(s, n);
    CountAppend(s, Fill(n - |s|, last), last);
    CountDistinct(s, |s| - 1);
    CountFill(n - |s|, last, last);
    forall i | 0 <= i < |s| - 1
      ensures Count(Resized(s, n), s[i]) == 1
    {
      CountAppend(s, Fill(n - |s|, last), s[i]);
      CountDistinct(s, i);
      CountFill(n - |s|, last, s[i]);
    }
  }

  function Pow2(k: nat): (r: nat)
    ensures r >= 1
  {
    if k == 0 then 1 else 2 * Pow2(k - 1)
  }

  /** A list after `k` in-place doublings `l.addAll(l)`. */
  function Doubled<T>(s: seq<T>, k: nat): seq<T>
  {
    if k == 0 then s else Doubled(s, k - 1) + Doubled(s, k - 1)
  }

  /** Each doubling doubles the length, so `k` of them multiply it by 2^k. */
  lemma {:induction false} DoubledLength<T>(s: seq<T>, k: nat)
    ensures |Doubled(s, k)| == |s| * Pow2(k)
  {
    if k > 0 {
      DoubledLength(s, k - 1);
    }
  }
}
