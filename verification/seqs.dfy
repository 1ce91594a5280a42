/** Sequence operations the trusted-domains flow is built from: JavaScript's
    `Array.prototype.indexOf`, `Array.prototype.filter` with a `!==` test, and
    the multi-select picker's "keep the items left checked". */
module Seqs {

  /** `a` can be obtained from `b` by deleting elements: it keeps a selection
      of `b`'s elements in their original order. */
  predicate IsSubsequence<T(==)>(a: seq<T>, b: seq<T>)
    decreases |b|
  {
    && |a| <= |b|
    && (|a| == 0
        || (a[|a| - 1] == b[|b| - 1] && IsSubsequence(a[..|a| - 1], b[..|b| - 1]))
        || IsSubsequence(a, b[..|b| - 1]))
  }

  lemma SubsequenceExtend<T>(a: seq<T>, b: seq<T>, y: T)
    requires IsSubsequence(a, b)
    ensures IsSubsequence(a, b + [y])
  {
  }

  lemma SubsequenceSnoc<T>(a: seq<T>, b: seq<T>, y: T)
    requires IsSubsequence(a, b)
    ensures IsSubsequence(a + [y], b + [y])
  {
  }

  lemma {:induction false} SubsequenceReflexive<T>(a: seq<T>)
    ensures IsSubsequence(a, a)
    decreases |a|
  {
    if |a| > 0 {
      SubsequenceReflexive(a[..|a| - 1]);
    }
  }

  lemma {:induction false} SubsequenceTransitive<T>(a: seq<T>, b: seq<T>, c: seq<T>)
    requires IsSubsequence(a, b) && IsSubsequence(b, c)
    ensures IsSubsequence(a, c)
    decreases |c|
  {
    if |a| == 0 {
    } else if IsSubsequence(b, c[..|c| - 1]) {
      SubsequenceTransitive(a, b, c[..|c| - 1]);
    } else {
      assert b[|b| - 1] == c[|c| - 1] && IsSubsequence(b[..|b| - 1], c[..|c| - 1]);
      if a[|a| - 1] == b[|b| - 1] && IsSubsequence(a[..|a| - 1], b[..|b| - 1]) {
        SubsequenceTransitive(a[..|a| - 1], b[..|b| - 1], c[..|c| - 1]);
      } else {
        SubsequenceTransitive(a, b[..|b| - 1], c[..|c| - 1]);
      }
    }
  }

  /** `Array.prototype.indexOf`: the first position of `x` in `s`, or -1. */
  function IndexOf<T(==)>(s: seq<T>, x: T): (r: int)
    ensures -1 <= r < |s|
    ensures r == -1 <==> x !in s
    ensures 0 <= r ==> s[r] == x
    ensures forall j :: 0 <= j < r ==> s[j] != x
    decreases |s|
  {
    if |s| == 0 then -1
    else if s[0] == x then 0
    else
      var k := IndexOf(s[1..], x);
      if k == -1 then -1 else k + 1
  }

  /** `s.filter(y => y !== x)`: every occurrence of `x` removed, everything
      else kept with its multiplicity. */
  function Without<T(==)>(s: seq<T>, x: T): (r: seq<T>)
    ensures x !in r
    ensures multiset(r) == multiset(s)[x := 0]
    decreases |s|
  {
    if |s| == 0 then []
    else
      var n := |s| - 1;
      var w := Without(s[..n], x);
      assert s == s[..n] + [s[n]];
      assert multiset(s) == multiset(s[..n]) + multiset{s[n]};
      if s[n] == x then
        assert multiset(w) !! multiset{x};
        w
      else
        w + [s[n]]
  }

  /** ... and in their original order. */
  lemma {:induction false} WithoutIsSubsequence<T>(s: seq<T>, x: T)
    ensures IsSubsequence(Without(s, x), s)
    decreases |s|
  {
    if |s| > 0 {
      var n := |s| - 1;
      WithoutIsSubsequence(s[..n], x);
      assert s == s[..n] + [s[n]];
      if s[n] == x {
        SubsequenceExtend(Without(s[..n], x), s[..n], s[n]);
      } else {
        SubsequenceSnoc(Without(s[..n], x), s[..n], s[n]);
      }
    }
  }

  /** The positions of `x` in `s`. */
  function PositionsOf<T(==)>(s: seq<T>, x: T): (r: set<nat>)
    ensures forall i :: 0 <= i < |s| ==> (i in r <==> s[i] == x)
    ensures forall i :: i in r ==> i < |s|
  {
    set i: nat | i < |s| && s[i] == x
  }

  /** The positions below `n` that are not in `dropped`, in increasing order. */
  function KeptPositions(n: nat, dropped: set<nat>): (k: seq<nat>)
    ensures forall j :: 0 <= j < |k| ==> k[j] < n && k[j] !in dropped
    ensures forall i :: 0 <= i < n && i !in dropped ==> i in k
    ensures forall j, j' :: 0 <= j < j' < |k| ==> k[j] < k[j']
    decreases n
  {
    if n == 0 then []
    else if n - 1 in dropped then KeptPositions(n - 1, dropped)
    else KeptPositions(n - 1, dropped) + [n - 1]
  }

  /** The items of `s` whose position is not in `dropped`, in their order:
      what a multi-select picker returns when the positions in `dropped` were
      unchecked and every other item was left checked. The j-th item out is
      the item at the j-th kept position. */
  function Select<T(==)>(s: seq<T>, dropped: set<nat>): (r: seq<T>)
    ensures |r| == |KeptPositions(|s|, dropped)|
    ensures forall j :: 0 <= j < |r| ==> r[j] == s[KeptPositions(|s|, dropped)[j]]
    ensures (forall i :: 0 <= i < |s| ==> i !in dropped) ==> r == s
    decreases |s|
  {
    if |s| == 0 then []
    else
      var n := |s| - 1;
      var w := Select(s[..n], dropped);
      assert s == s[..n] + [s[n]];
      if n in dropped then
        assert KeptPositions(|s|, dropped) == KeptPositions(n, dropped);
        w
      else
        var r := w + [s[n]];
        assert KeptPositions(|s|, dropped) == KeptPositions(n, dropped) + [n];
        assert forall j :: 0 <= j < |w| ==> r[j] == w[j];
        r
  }

  /** No item comes out more often than it occurs in `s`. */
  lemma {:induction false} SelectSubMultiset<T>(s: seq<T>, dropped: set<nat>)
    ensures multiset(Select(s, dropped)) <= multiset(s)
    decreases |s|
  {
    if |s| > 0 {
      var n := |s| - 1;
      SelectSubMultiset(s[..n], dropped);
      assert s == s[..n] + [s[n]];
      assert multiset(s) == multiset(s[..n]) + multiset{s[n]};
    }
  }

  /** An item comes out exactly when some position holding it was kept. */
  lemma SelectMembership<T>(s: seq<T>, dropped: set<nat>, y: T)
    ensures y in Select(s, dropped) <==> exists i :: 0 <= i < |s| && i !in dropped && s[i] == y
  {
  }

  /** Every item at a kept position comes out. */
  lemma SelectKeepsChecked<T>(s: seq<T>, dropped: set<nat>)
    ensures forall i :: 0 <= i < |s| && i !in dropped ==> s[i] in Select(s, dropped)
  {
  }

  /** An unchecked item that no other position repeats does not come out. */
  lemma SelectLeavesOutDropped<T>(s: seq<T>, dropped: set<nat>, i: nat)
    requires i < |s| && i in dropped
    requires forall k :: 0 <= k < |s| && k != i ==> s[k] != s[i]
    ensures s[i] !in Select(s, dropped)
  {
  }

  /** The selected items keep their original order. */
  lemma {:induction false} SelectIsSubsequence<T>(s: seq<T>, dropped: set<nat>)
    ensures IsSubsequence(Select(s, dropped), s)
    decreases |s|
  {
    if |s| > 0 {
      var n := |s| - 1;
      SelectIsSubsequence(s[..n], dropped);
      assert s == s[..n] + [s[n]];
      if n in dropped {
        SubsequenceExtend(Select(s[..n], dropped), s[..n], s[n]);
      } else {
        SubsequenceSnoc(Select(s[..n], dropped), s[..n], s[n]);
      }
    }
  }

  /** Only the positions inside `s` matter to `Select`. */
  lemma {:induction false} SelectLocal<T>(s: seq<T>, d1: set<nat>, d2: set<nat>)
    requires forall i :: 0 <= i < |s| ==> (i in d1 <==> i in d2)
    ensures Select(s, d1) == Select(s, d2)
    decreases |s|
  {
    if |s| > 0 {
      SelectLocal(s[..|s| - 1], d1, d2);
    }
  }

  /** Filtering `x` out is selecting every position except those holding `x`. */
  lemma {:induction false} WithoutIsSelect<T>(s: seq<T>, x: T)
    ensures Without(s, x) == Select(s, PositionsOf(s, x))
    decreases |s|
  {
    if |s| > 0 {
      var n := |s| - 1;
      WithoutIsSelect(s[..n], x);
      SelectLocal(s[..n], PositionsOf(s[..n], x), PositionsOf(s, x));
    }
  }

  /** Filtering a sequence that does not hold `x` changes nothing. */
  lemma {:induction false} WithoutAbsent<T>(s: seq<T>, x: T)
    requires x !in s
    ensures Without(s, x) == s
    decreases |s|
  {
    if |s| > 0 {
      var n := |s| - 1;
      WithoutAbsent(s[..n], x);
      assert s == s[..n] + [s[n]];
    }
  }

  /** An `x` appended at the end is removed again by filtering `x`. */
  lemma WithoutAppended<T>(s: seq<T>, x: T)
    ensures Without(s + [x], x) == Without(s, x)
  {
  }
}
