/** What the live prefix of the container becomes after each bulk
    operation, stated on plain sequences and independent of the
    in-place algorithms that realise it. */
module Sequences {

  /** `n` copies of `x`: the source of `insert(pos, n, x)`,
      `assign(n, x)` and the count/value constructor. */
  function Repeat<T>(x: T, n: nat): (r: seq<T>)
    ensures |r| == n
    ensures forall i :: 0 <= i < n ==> r[i] == x
  {
    if n == 0 then [] else Repeat(x, n - 1) + [x]
  }

  /** `s` with `t` spliced in so that the first element of `t` lands at index `p`. */
  function InsertAt<T>(s: seq<T>, p: nat, t: seq<T>): seq<T>
    requires p <= |s|
  {
    s[..p] + t + s[p..]
  }

  /** `s` without the elements at indices `[first, last)`. */
  function RemoveRange<T>(s: seq<T>, first: nat, last: nat): seq<T>
    requires first <= last <= |s|
  {
    s[..first] + s[last..]
  }

  /** `s` cut to `n` elements, or extended to `n` elements with copies of `v`. */
  function Resized<T>(s: seq<T>, n: nat, v: T): seq<T>
  {
    if n <= |s| then s[..n] else s + Repeat(v, n - |s|)
  }

  /** The elements `x` of `s` with `p(x) == want`, in their original order. */
  function Select<T>(s: seq<T>, p: T -> bool, want: bool): seq<T>
  {
    if s == [] then []
    else Select(s[..|s| - 1], p, want) + (if p(s[|s| - 1]) == want then [s[|s| - 1]] else [])
  }

  /** The predicate "equals `x`", by which value erasure selects. */
  function EqualTo<T(==)>(x: T): T -> bool
  {
    y => y == x
  }

  /** The reverse view of `s`, as walked by the reverse iterators. */
  function Reversed<T>(s: seq<T>): (r: seq<T>)
    ensures |r| == |s|
    ensures forall i :: 0 <= i < |s| ==> r[i] == s[|s| - 1 - i]
  {
    if s == [] then [] else Reversed(s[1..]) + [s[0]]
  }

  // ---------------------------------------------------------------------
  // Reverse view

  /** Walking the reverse view backwards gives the forward order again. */
  lemma ReversedTwice<T>(s: seq<T>)
    ensures Reversed(Reversed(s)) == s
  {
    var r := Reversed(Reversed(s));
    assert forall i :: 0 <= i < |s| ==> r[i] == Reversed(s)[|s| - 1 - i] == s[i];
  }

  // ---------------------------------------------------------------------
  // Insertion and erasure

  /** Insertion keeps the elements before `p`, puts `t` at `[p, p + |t|)` in
      order, and moves the old elements from `p` on right by `|t|`. */
  lemma InsertAtIndex<T>(s: seq<T>, p: nat, t: seq<T>)
    requires p <= |s|
    ensures |InsertAt(s, p, t)| == |s| + |t|
    ensures forall i :: 0 <= i < p ==> InsertAt(s, p, t)[i] == s[i]
    ensures forall i :: 0 <= i < |t| ==> InsertAt(s, p, t)[p + i] == t[i]
    ensures forall i :: p <= i < |s| ==> InsertAt(s, p, t)[i + |t|] == s[i]
  {
  }

  /** Conversely, a sequence laid out that way is the insertion. */
  lemma InsertAtFromIndex<T>(u: seq<T>, s: seq<T>, p: nat, t: seq<T>)
    requires p <= |s| && |u| == |s| + |t|
    requires forall i :: 0 <= i < p ==> u[i] == s[i]
    requires forall i :: 0 <= i < |t| ==> u[p + i] == t[i]
    requires forall i :: p <= i < |s| ==> u[i + |t|] == s[i]
    ensures u == InsertAt(s, p, t)
  {
    InsertAtIndex(s, p, t);
    forall i | 0 <= i < |u|
      ensures u[i] == InsertAt(s, p, t)[i]
    {
      if i < p {
      } else if i < p + |t| {
        assert u[p + (i - p)] == t[i - p];
      } else {
        assert u[(i - |t|) + |t|] == s[i - |t|];
      }
    }
  }

  /** Erasure keeps the elements before `first` and moves the elements from
      `last` on left by `last - first`. */
  lemma RemoveRangeIndex<T>(s: seq<T>, first: nat, last: nat)
    requires first <= last <= |s|
    ensures |RemoveRange(s, first, last)| == |s| - (last - first)
    ensures forall i :: 0 <= i < first ==> RemoveRange(s, first, last)[i] == s[i]
    ensures forall i :: last <= i < |s| ==> RemoveRange(s, first, last)[i - (last - first)] == s[i]
  {
  }

  /** Erasing what was just inserted restores the original sequence. */
  lemma RemoveAfterInsert<T>(s: seq<T>, p: nat, t: seq<T>)
    requires p <= |s|
    ensures RemoveRange(InsertAt(s, p, t), p, p + |t|) == s
  {
    var u := InsertAt(s, p, t);
    assert u[..p] == s[..p];
    assert u[p + |t|..] == s[p..];
  }

  /** Re-inserting what was just erased restores the original sequence. */
  lemma InsertAfterRemove<T>(s: seq<T>, first: nat, last: nat)
    requires first <= last <= |s|
    ensures InsertAt(RemoveRange(s, first, last), first, s[first..last]) == s
  {
    var u := RemoveRange(s, first, last);
    assert u[..first] == s[..first];
    assert u[first..] == s[last..];
    assert s[..first] + s[first..last] + s[last..] == s;
  }

  /** Erasing an empty range changes nothing. */
  lemma RemoveEmptyRange<T>(s: seq<T>, p: nat)
    requires p <= |s|
    ensures RemoveRange(s, p, p) == s
  {
    assert s[..p] + s[p..] == s;
  }

  /** Inserting nothing changes nothing. */
  lemma InsertEmpty<T>(s: seq<T>, p: nat)
    requires p <= |s|
    ensures InsertAt(s, p, []) == s
  {
    assert s[..p] + s[p..] == s;
  }

  // ---------------------------------------------------------------------
  // Resize

  /** Resizing to `n` yields exactly `n` elements: the first `min(n, |s|)`
      old ones, then copies of `v`. */
  lemma ResizedIndex<T>(s: seq<T>, n: nat, v: T)
    ensures |Resized(s, n, v)| == n
    ensures forall i :: 0 <= i < n && i < |s| ==> Resized(s, n, v)[i] == s[i]
    ensures forall i :: |s| <= i < n ==> Resized(s, n, v)[i] == v
  {
  }

  /** Resizing to the current length is a no-op. */
  lemma ResizedSame<T>(s: seq<T>, v: T)
    ensures Resized(s, |s|, v) == s
  {
  }

  /** Growing and then shrinking back to the old length restores the sequence. */
  lemma ResizedGrowShrink<T>(s: seq<T>, n: nat, v: T)
    requires |s| <= n
    ensures Resized(Resized(s, n, v), |s|, v) == s
  {
    ResizedIndex(s, n, v);
  }

  // ---------------------------------------------------------------------
  // Selection (the specification of erase and erase_if)

  /** Selection distributes over concatenation: it keeps relative order. */
  lemma {:induction false} SelectAppend<T>(a: seq<T>, b: seq<T>, p: T -> bool, want: bool)
    ensures Select(a + b, p, want) == Select(a, p, want) + Select(b, p, want)
  {
    if b == [] {
      assert a + b == a;
    } else {
      var b' := b[..|b| - 1];
      assert (a + b)[..|a + b| - 1] == a + b';
      assert (a + b)[|a + b| - 1] == b[|b| - 1];
      SelectAppend(a, b', p, want);
    }
  }

  /** Selection of a sequence extended by one element. */
  lemma SelectSnoc<T>(s: seq<T>, x: T, p: T -> bool, want: bool)
    ensures Select(s + [x], p, want) == Select(s, p, want) + (if p(x) == want then [x] else [])
  {
    assert (s + [x])[..|s|] == s;
  }

  /** Every selected element has `p(x) == want`. */
  lemma {:induction false} SelectSatisfies<T>(s: seq<T>, p: T -> bool, want: bool)
    ensures forall i :: 0 <= i < |Select(s, p, want)| ==> p(Select(s, p, want)[i]) == want
  {
    if s != [] {
      SelectSatisfies(s[..|s| - 1], p, want);
    }
  }

  /** Selection keeps every occurrence of a wanted value and no occurrence
      of any other value. */
  lemma {:induction false} SelectOccurrences<T>(s: seq<T>, p: T -> bool, want: bool)
    ensures forall x :: multiset(Select(s, p, want))[x] == if p(x) == want then multiset(s)[x] else 0
  {
    if s != [] {
      var s' := s[..|s| - 1];
      SelectOccurrences(s', p, want);
      assert s == s' + [s[|s| - 1]];
      assert multiset(s) == multiset(s') + multiset{s[|s| - 1]};
    }
  }

  /** The wanted and the unwanted elements together account for all of `s`. */
  lemma {:induction false} SelectPartition<T>(s: seq<T>, p: T -> bool)
    ensures |Select(s, p, true)| + |Select(s, p, false)| == |s|
  {
    if s != [] {
      SelectPartition(s[..|s| - 1], p);
    }
  }

  /** Selecting twice selects nothing more: a second erase_if removes nothing. */
  lemma {:induction false} SelectIdempotent<T>(s: seq<T>, p: T -> bool, want: bool)
    ensures Select(Select(s, p, want), p, want) == Select(s, p, want)
  {
    if s != [] {
      var s' := s[..|s| - 1];
      var x := s[|s| - 1];
      SelectIdempotent(s', p, want);
      if p(x) == want {
        assert Select(s, p, want) == Select(s', p, want) + [x];
        SelectAppend(Select(s', p, want), [x], p, want);
        assert Select([x], p, want) == Select([], p, want) + [x];
      } else {
        assert Select(s, p, want) == Select(s', p, want) + [];
        assert Select(s', p, want) + [] == Select(s', p, want);
      }
    }
  }

  /** When no element has `p(x) == want`, nothing is selected. */
  lemma {:induction false} SelectNone<T>(s: seq<T>, p: T -> bool, want: bool)
    requires forall i :: 0 <= i < |s| ==> p(s[i]) != want
    ensures Select(s, p, want) == []
  {
    if s != [] {
      SelectNone(s[..|s| - 1], p, want);
    }
  }

  /** When every element has `p(x) == want`, everything is selected. */
  lemma {:induction false} SelectAll<T>(s: seq<T>, p: T -> bool, want: bool)
    requires forall i :: 0 <= i < |s| ==> p(s[i]) == want
    ensures Select(s, p, want) == s
  {
    if s != [] {
      SelectAll(s[..|s| - 1], p, want);
      assert s[..|s| - 1] + [s[|s| - 1]] == s;
    }
  }

  /** The elements equal to `x` are exactly the occurrences of `x`. */
  lemma {:induction false} SelectEqualToCount<T>(s: seq<T>, x: T)
    ensures |Select(s, EqualTo(x), true)| == multiset(s)[x]
  {
    if s != [] {
      var s' := s[..|s| - 1];
      SelectEqualToCount(s', x);
      assert s == s' + [s[|s| - 1]];
      assert multiset(s) == multiset(s') + multiset{s[|s| - 1]};
    }
  }
}
