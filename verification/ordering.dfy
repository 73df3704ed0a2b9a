/** Equality and lexicographic ordering of two containers, taken over
    their live elements. The element order `lt` is a parameter: for the
    test's class `M` it compares only the string member, so two elements
    may be unordered without being equal. */
module Ordering {

  /** Element-wise equality: equal sizes and equal elements at every index. */
  function Equal<T(==)>(a: seq<T>, b: seq<T>): (r: bool)
    ensures r <==> a == b
  {
    |a| == |b| && (|a| == 0 || (a[0] == b[0] && Equal(a[1..], b[1..])))
  }

  /** Lexicographic `a < b`: walk both sequences while neither element is
      less than the other; the first strict difference decides, and running
      out of `a` first (a proper prefix) makes `a` the smaller. */
  function Less<T>(a: seq<T>, b: seq<T>, lt: (T, T) -> bool): (r: bool)
    ensures r <==> exists k :: DecidesAt(a, b, lt, k)
  {
    if |b| == 0 then false
    else if |a| == 0 then assert DecidesAt(a, b, lt, 0); true
    else if lt(a[0], b[0]) then assert DecidesAt(a, b, lt, 0); true
    else if lt(b[0], a[0]) then false
    else DecidesAtTail(a, b, lt); Less(a[1..], b[1..], lt)
  }

  /** Index `k` decides `a < b`: the first `k` elements are pairwise
      unordered, `b` has an element at `k`, and either `a` has run out
      there or its element is the smaller. */
  ghost predicate DecidesAt<T>(a: seq<T>, b: seq<T>, lt: (T, T) -> bool, k: int)
  {
    && 0 <= k <= |a| && k < |b|
    && (forall i :: 0 <= i < k ==> !lt(a[i], b[i]) && !lt(b[i], a[i]))
    && (k == |a| || lt(a[k], b[k]))
  }

  /** When the first elements are unordered, a deciding index of the tails
      is one less than a deciding index of the whole sequences. */
  lemma DecidesAtTail<T>(a: seq<T>, b: seq<T>, lt: (T, T) -> bool)
    requires |a| > 0 && |b| > 0 && !lt(a[0], b[0]) && !lt(b[0], a[0])
    ensures (exists k :: DecidesAt(a, b, lt, k)) <==> (exists k :: DecidesAt(a[1..], b[1..], lt, k))
  {
    if k :| DecidesAt(a, b, lt, k) {
      assert k > 0;
      assert DecidesAt(a[1..], b[1..], lt, k - 1);
    }
    if k :| DecidesAt(a[1..], b[1..], lt, k) {
      assert DecidesAt(a, b, lt, k + 1);
    }
  }

  /** A size-first order, one non-standard order consistent with the test
      driver's assertions after `pop_back`: a shorter container is less,
      and only containers of equal size are compared element by element.
      It disagrees with `Less`. */
  function SizeFirstLess<T>(a: seq<T>, b: seq<T>, lt: (T, T) -> bool): (r: bool)
    ensures |a| < |b| ==> r
    ensures |a| > |b| ==> !r
    ensures |a| == |b| ==> (r <==> exists k :: DecidesAt(a, b, lt, k))
  {
    |a| < |b| || (|a| == |b| && Less(a, b, lt))
  }

  /** `a > b`, `a <= b` and `a >= b`, each derived from `Less`. */
  function Greater<T>(a: seq<T>, b: seq<T>, lt: (T, T) -> bool): (r: bool)
    ensures r <==> exists k :: DecidesAt(b, a, lt, k)
  {
    Less(b, a, lt)
  }

  /** Over a strict total element order, `a <= b` is `a < b` or `a == b`. */
  function LessOrEqual<T(!new)>(a: seq<T>, b: seq<T>, lt: (T, T) -> bool): (r: bool)
    ensures StrictTotalOrder(lt) ==> (r <==> Less(a, b, lt) || a == b)
  {
    TotalOrderCases(a, b, lt); !Less(b, a, lt)
  }

  /** Over a strict total element order, `a >= b` is `b < a` or `a == b`. */
  function GreaterOrEqual<T(!new)>(a: seq<T>, b: seq<T>, lt: (T, T) -> bool): (r: bool)
    ensures StrictTotalOrder(lt) ==> (r <==> Less(b, a, lt) || a == b)
  {
    TotalOrderCases(b, a, lt); !Less(a, b, lt)
  }

  /** Trichotomy, made available to the two non-strict orders. */
  lemma TotalOrderCases<T(!new)>(a: seq<T>, b: seq<T>, lt: (T, T) -> bool)
    ensures StrictTotalOrder(lt) ==> (!Less(b, a, lt) <==> Less(a, b, lt) || a == b)
  {
    if StrictTotalOrder(lt) {
      LessTrichotomy(a, b, lt);
    }
  }

  /** The built-in orders of the test's `int` and `char` elements. */
  function IntLess(a: int, b: int): bool
  {
    a < b
  }

  function CharLess(a: char, b: char): bool
  {
    a < b
  }

  ghost predicate Irreflexive<T(!new)>(lt: (T, T) -> bool)
  {
    forall x :: !lt(x, x)
  }

  ghost predicate Asymmetric<T(!new)>(lt: (T, T) -> bool)
  {
    forall x, y :: lt(x, y) ==> !lt(y, x)
  }

  /** A strict total order: irreflexive, transitive and relating every two
      distinct values (the order of `int` and `char`). */
  ghost predicate StrictTotalOrder<T(!new)>(lt: (T, T) -> bool)
  {
    && Irreflexive(lt)
    && (forall x, y, z :: lt(x, y) && lt(y, z) ==> lt(x, z))
    && (forall x, y :: x != y ==> lt(x, y) || lt(y, x))
  }

  /** A proper prefix is less than the sequence it starts. */
  lemma {:induction false} PrefixIsLess<T>(a: seq<T>, b: seq<T>, lt: (T, T) -> bool)
    requires |a| < |b| && a == b[..|a|]
    ensures Less(a, b, lt)
  {
    if |a| > 0 {
      assert a[0] == b[0];
      assert a[1..] == b[1..][..|a[1..]|];
      PrefixIsLess(a[1..], b[1..], lt);
    }
  }

  /** No sequence is less than itself. */
  lemma {:induction false} LessIrreflexive<T(!new)>(a: seq<T>, lt: (T, T) -> bool)
    requires Irreflexive(lt)
    ensures !Less(a, a, lt)
  {
    if |a| > 0 {
      assert !lt(a[0], a[0]);
      LessIrreflexive(a[1..], lt);
    }
  }

  /** `a < b` and `b < a` never hold together. */
  lemma {:induction false} LessAsymmetric<T(!new)>(a: seq<T>, b: seq<T>, lt: (T, T) -> bool)
    requires Asymmetric(lt)
    ensures !(Less(a, b, lt) && Less(b, a, lt))
  {
    if |a| > 0 && |b| > 0 && !lt(a[0], b[0]) && !lt(b[0], a[0]) {
      LessAsymmetric(a[1..], b[1..], lt);
    }
  }

  /** Over a strict total order of elements, `Less` is transitive. */
  lemma {:induction false} LessTransitive<T(!new)>(a: seq<T>, b: seq<T>, c: seq<T>, lt: (T, T) -> bool)
    requires StrictTotalOrder(lt)
    requires Less(a, b, lt) && Less(b, c, lt)
    ensures Less(a, c, lt)
  {
    if |a| > 0 {
      if a[0] == b[0] && b[0] == c[0] {
        assert !lt(a[0], b[0]) && !lt(b[0], c[0]) && !lt(a[0], c[0]);
        LessTransitive(a[1..], b[1..], c[1..], lt);
      } else if a[0] == b[0] {
        assert lt(b[0], c[0]);
      } else {
        assert lt(a[0], b[0]);
        assert b[0] == c[0] || lt(b[0], c[0]);
      }
    }
  }

  /** Over a strict total order of elements, exactly one of `a < b`,
      `a == b` and `b < a` holds. */
  lemma {:induction false} LessTrichotomy<T(!new)>(a: seq<T>, b: seq<T>, lt: (T, T) -> bool)
    requires StrictTotalOrder(lt)
    ensures Less(a, b, lt) || a == b || Less(b, a, lt)
    ensures !(Less(a, b, lt) && a == b)
    ensures !(Less(a, b, lt) && Less(b, a, lt))
  {
    assert Asymmetric(lt) by {
      assert forall x, y :: lt(x, y) && lt(y, x) ==> lt(x, x);
    }
    LessAsymmetric(a, b, lt);
    if a == b {
      LessIrreflexive(a, lt);
    } else if |a| > 0 && |b| > 0 && a[0] == b[0] {
      assert a == [a[0]] + a[1..] && b == [b[0]] + b[1..];
      LessTrichotomy(a[1..], b[1..], lt);
    }
  }

  /** The two orders agree on containers of equal size. */
  lemma SizeFirstAgreesOnEqualSizes<T>(a: seq<T>, b: seq<T>, lt: (T, T) -> bool)
    requires |a| == |b|
    ensures SizeFirstLess(a, b, lt) == Less(a, b, lt)
  {
  }

  /** They disagree on `[2]` and `[1, 2]`: lexicographically `[2]` is the
      greater, by size it is the smaller. */
  lemma SizeFirstDisagrees()
    ensures SizeFirstLess([2], [1, 2], IntLess)
    ensures !Less([2], [1, 2], IntLess)
    ensures Less([1, 2], [2], IntLess)
  {
  }
}
