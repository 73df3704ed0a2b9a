/** The fixed-capacity vector `inplace_vector<T, N>`: at most `N` elements,
    held in storage embedded in the container and never reallocated.

    The storage is the array `data` of `N` slots; the slots `[0, size)` hold
    the live elements and the others hold no meaningful value. Positions
    (iterators) are indices into the live prefix, and the reference an
    operation returns to an element is that element's index. */
module InplaceVectors {
  import opened Outcomes
  import opened Sequences

  class InplaceVector<T(0)> {
    /** The capacity, fixed with the type. */
    const N: nat
    /** The inline storage of `N` slots. */
    const data: array<T>
    /** The number of live elements. */
    var size: nat

    /** The object invariant: `0 <= size <= N == capacity`. */
    ghost predicate Valid()
      reads this
    {
      data.Length == N && size <= N
    }

    /** The live elements, front to back. */
    function Elements(): seq<T>
      reads this, data
      requires Valid()
    {
      data[..size]
    }

    /** The default constructor: an empty container of capacity `n`. */
    constructor (n: nat)
      ensures Valid() && fresh(data)
      ensures N == n && Elements() == []
    {
      N := n;
      data := new T[n];
      size := 0;
    }

    /** The range, iterator-pair and initializer-list constructors: a
        container of capacity `n` holding `s`, or `CapacityExceeded` when
        `s` has more than `n` elements. */
    static method FromSeq(n: nat, s: seq<T>) returns (r: Result<InplaceVector<T>>)
      ensures r.Ok? <==> |s| <= n
      ensures r.Err? ==> r.error == CapacityExceeded
      ensures r.Ok? ==> fresh(r.value) && fresh(r.value.data) && r.value.Valid()
      ensures r.Ok? ==> r.value.N == n && r.value.Elements() == s
    {
      if |s| > n {
        return Err(CapacityExceeded);
      }
      var v := new InplaceVector(n);
      var st := v.Assign(s);
      return Ok(v);
    }

    /** The count and count/value constructors: `count` copies of `x`
        (for the count form, `x` is the value-initialised element). */
    static method FromCount(n: nat, count: nat, x: T) returns (r: Result<InplaceVector<T>>)
      ensures r.Ok? <==> count <= n
      ensures r.Err? ==> r.error == CapacityExceeded
      ensures r.Ok? ==> fresh(r.value) && fresh(r.value.data) && r.value.Valid()
      ensures r.Ok? ==> r.value.N == n && r.value.Elements() == Repeat(x, count)
    {
      r := FromSeq(n, Repeat(x, count));
    }

    /** The copy constructor: an independent container with equal elements. */
    static method CopyOf(other: InplaceVector<T>) returns (v: InplaceVector<T>)
      requires other.Valid()
      ensures fresh(v) && fresh(v.data) && v.Valid() && other.Valid()
      ensures v.N == other.N && v.Elements() == other.Elements()
    {
      v := new InplaceVector(other.N);
      v.CopyFrom(other);
    }

    /** The move constructor: the new container takes the elements and
        `other` is left empty and usable. */
    static method MoveOf(other: InplaceVector<T>) returns (v: InplaceVector<T>)
      requires other.Valid()
      modifies other
      ensures fresh(v) && fresh(v.data) && v.Valid() && other.Valid()
      ensures v.N == other.N && v.Elements() == old(other.Elements())
      ensures other.Elements() == []
    {
      v := new InplaceVector(other.N);
      v.MoveFrom(other);
    }

    // -------------------------------------------------------------------
    // Capacity

    /** `size()`: the number of live elements, never more than the capacity. */
    function Size(): (n: nat)
      reads this, data
      requires Valid()
      ensures n == |Elements()| && n <= N
    {
      size
    }

    predicate IsEmpty()
      reads this, data
      requires Valid()
      ensures IsEmpty() <==> Elements() == []
    {
      size == 0
    }

    /** `capacity()` and `max_size()`: the number of storage slots. */
    function Capacity(): (c: nat)
      reads this
      requires Valid()
      ensures c == data.Length && size <= c
    {
      N
    }

    /** `reserve(n)`: changes nothing, and fails with `CapacityExceeded`
        exactly when `n` exceeds the capacity. */
    method Reserve(n: nat) returns (st: Status)
      requires Valid()
      ensures st.Fail? <==> n > N
      ensures st.Fail? ==> st.error == CapacityExceeded
    {
      if n > N {
        return Fail(CapacityExceeded);
      }
      return Pass;
    }

    /** `shrink_to_fit()`: the storage is fixed, so nothing changes. */
    method ShrinkToFit()
      requires Valid()
      ensures Valid() && Capacity() == N
    {
    }

    // -------------------------------------------------------------------
    // Element access

    /** `at(pos)`: the element at `pos`, or `OutOfRange` when `pos >= size`. */
    function At(pos: nat): (r: Result<T>)
      reads this, data
      requires Valid()
      ensures r.Ok? <==> pos < size
      ensures r.Ok? ==> r.value == Elements()[pos]
      ensures r.Err? ==> r.error == OutOfRange
    {
      if pos < size then Ok(data[pos]) else Err(OutOfRange)
    }

    /** `operator[]`: unchecked access, so `i < size` is the caller's duty. */
    function Get(i: nat): (x: T)
      reads this, data
      requires Valid() && i < size
      ensures x == Elements()[i]
    {
      data[i]
    }

    function Front(): (x: T)
      reads this, data
      requires Valid() && size > 0
      ensures x == Elements()[0]
    {
      data[0]
    }

    function Back(): (x: T)
      reads this, data
      requires Valid() && size > 0
      ensures x == Elements()[|Elements()| - 1]
    {
      data[size - 1]
    }

    /** Assignment through `operator[]`: replaces one element. */
    method Set(i: nat, x: T)
      requires Valid() && i < size
      modifies data
      ensures Valid() && Elements() == old(Elements())[i := x]
    {
      data[i] := x;
    }

    // -------------------------------------------------------------------
    // Appending and removing at the back, in the three capacity tiers

    /** `unchecked_push_back` / `unchecked_emplace_back`: room is the
        caller's duty. Returns the new element's index. */
    method UncheckedPushBack(x: T) returns (i: nat)
      requires Valid() && size < N
      modifies this, data
      ensures Valid() && i == old(size)
      ensures Elements() == old(Elements()) + [x]
    {
      data[size] := x;
      i := size;
      size := size + 1;
    }

    /** `push_back` / `emplace_back`: appends `x`, or fails with
        `CapacityExceeded` and changes nothing when full. */
    method PushBack(x: T) returns (r: Result<nat>)
      requires Valid()
      modifies this, data
      ensures Valid()
      ensures r.Ok? <==> old(size) < N
      ensures r.Ok? ==> r.value == old(size) && Elements() == old(Elements()) + [x]
      ensures r.Err? ==> r.error == CapacityExceeded && Elements() == old(Elements())
    {
      if size == N {
        return Err(CapacityExceeded);
      }
      var i := UncheckedPushBack(x);
      return Ok(i);
    }

    /** `try_push_back` / `try_emplace_back`: appends `x` and returns its
        index, or returns `None` and changes nothing when full. */
    method TryPushBack(x: T) returns (r: Option<nat>)
      requires Valid()
      modifies this, data
      ensures Valid()
      ensures r.Some? <==> old(size) < N
      ensures r.Some? ==> r.value == old(size) && Elements() == old(Elements()) + [x]
      ensures r.None? ==> Elements() == old(Elements())
    {
      if size == N {
        return None;
      }
      var i := UncheckedPushBack(x);
      return Some(i);
    }

    /** `pop_back`: removing from an empty container is a precondition
        violation. */
    method PopBack()
      requires Valid() && size > 0
      modifies this
      ensures Valid() && Elements() == old(Elements())[..old(size) - 1]
    {
      size := size - 1;
    }

    /** `append_range`: appends all of `s`, or fails with `CapacityExceeded`
        and changes nothing when `s` does not fit. */
    method AppendRange(s: seq<T>) returns (st: Status)
      requires Valid()
      modifies this, data
      ensures Valid()
      ensures st.Pass? <==> old(size) + |s| <= N
      ensures st.Pass? ==> Elements() == old(Elements()) + s
      ensures st.Fail? ==> st.error == CapacityExceeded && Elements() == old(Elements())
    {
      var r := InsertRange(size, s);
      st := if r.Ok? then Pass else Fail(r.error);
    }

    /** `try_append_range`: appends the elements of `s` in order while room
        remains and returns the index in `s` of the first element not
        appended (`|s|` when all were). */
    method TryAppendRange(s: seq<T>) returns (k: nat)
      requires Valid()
      modifies this, data
      ensures Valid()
      ensures k == if old(size) + |s| <= N then |s| else N - old(size)
      ensures Elements() == old(Elements()) + s[..k]
    {
      ghost var prev := data[..size];
      k := 0;
      while k < |s| && size < N
        invariant Valid()
        invariant k <= |s| && size == |prev| + k
        invariant data[..size] == prev + s[..k]
      {
        data[size] := s[k];
        size := size + 1;
        k := k + 1;
        assert s[..k] == s[..k - 1] + [s[k - 1]];
      }
    }

    // -------------------------------------------------------------------
    // Insertion and erasure at a position

    /** `insert(pos, first, last)`, `insert(pos, ilist)`, `insert_range`:
        shifts the elements from `pos` on right by `|s|` and puts `s` at
        `[pos, pos + |s|)`. Fails with `CapacityExceeded`, changing
        nothing, when the result would exceed the capacity. Returns `pos`. */
    method InsertRange(pos: nat, s: seq<T>) returns (r: Result<nat>)
      requires Valid() && pos <= size
      modifies this, data
      ensures Valid()
      ensures r.Ok? <==> old(size) + |s| <= N
      ensures r.Ok? ==> r.value == pos && Elements() == InsertAt(old(Elements()), pos, s)
      ensures r.Err? ==> r.error == CapacityExceeded && Elements() == old(Elements())
    {
      if size + |s| > N {
        return Err(CapacityExceeded);
      }
      ghost var prev := data[..size];
      ShiftUp(pos, |s|);
      CopyIn(pos, s);
      size := size + |s|;
      InsertAtFromIndex(data[..size], prev, pos, s);
      return Ok(pos);
    }

    /** Copies `s` into the slots `[pos, pos + |s|)`; every other slot stays. */
    method CopyIn(pos: nat, s: seq<T>)
      requires Valid() && pos + |s| <= N
      modifies data
      ensures forall q :: 0 <= q < |s| ==> data[pos + q] == s[q]
      ensures forall q :: 0 <= q < N && !(pos <= q < pos + |s|) ==> data[q] == old(data[q])
    {
      var j := 0;
      while j < |s|
        invariant j <= |s|
        invariant forall q :: 0 <= q < j ==> data[pos + q] == s[q]
        invariant forall q :: 0 <= q < N && !(pos <= q < pos + |s|) ==> data[q] == old(data[q])
      {
        data[pos + j] := s[j];
        j := j + 1;
      }
    }

    /** The right shift that opens a gap for insertion: the live slots from
        `pos` on move up by `k`, last one first; the slots below `pos` stay. */
    method ShiftUp(pos: nat, k: nat)
      requires Valid() && pos <= size && size + k <= N
      modifies data
      ensures forall q :: 0 <= q < pos ==> data[q] == old(data[q])
      ensures forall q :: pos <= q < size ==> data[q + k] == old(data[q])
    {
      ghost var prev := data[..];
      var i := size;
      while i > pos
        invariant pos <= i <= size
        invariant forall j :: 0 <= j < i ==> data[j] == prev[j]
        invariant forall j :: i + k <= j < size + k ==> data[j] == prev[j - k]
      {
        data[i - 1 + k] := data[i - 1];
        i := i - 1;
      }
    }

    /** `insert(pos, x)` and `emplace(pos, args)`. */
    method Insert(pos: nat, x: T) returns (r: Result<nat>)
      requires Valid() && pos <= size
      modifies this, data
      ensures Valid()
      ensures r.Ok? <==> old(size) < N
      ensures r.Ok? ==> r.value == pos && Elements() == InsertAt(old(Elements()), pos, [x])
      ensures r.Err? ==> r.error == CapacityExceeded && Elements() == old(Elements())
    {
      r := InsertRange(pos, [x]);
    }

    /** `insert(pos, count, x)`. */
    method InsertCount(pos: nat, count: nat, x: T) returns (r: Result<nat>)
      requires Valid() && pos <= size
      modifies this, data
      ensures Valid()
      ensures r.Ok? <==> old(size) + count <= N
      ensures r.Ok? ==> r.value == pos && Elements() == InsertAt(old(Elements()), pos, Repeat(x, count))
      ensures r.Err? ==> r.error == CapacityExceeded && Elements() == old(Elements())
    {
      r := InsertRange(pos, Repeat(x, count));
    }

    /** `erase(first, last)`: removes `[first, last)` and shifts the tail
        left. Returns `first`, which is the new end exactly when the tail
        was removed. */
    method EraseRange(first: nat, last: nat) returns (p: nat)
      requires Valid() && first <= last <= size
      modifies this, data
      ensures Valid() && p == first
      ensures Elements() == RemoveRange(old(Elements()), first, last)
      ensures p == size <==> last == old(size)
    {
      ghost var prev := data[..size];
      ShiftDown(first, last);
      size := size - (last - first);
      RemoveRangeIndex(prev, first, last);
      assert data[..size] == RemoveRange(prev, first, last);
      p := first;
    }

    /** The left shift that closes the gap left by erasure: the live slots
        from `last` on move down to `first`, first one first; the slots below
        `first` stay. */
    method ShiftDown(first: nat, last: nat)
      requires Valid() && first <= last <= size
      modifies data
      ensures forall q :: 0 <= q < first ==> data[q] == old(data[q])
      ensures forall q :: first <= q < size - (last - first) ==> data[q] == old(data[q + (last - first)])
    {
      ghost var prev := data[..];
      var d := last - first;
      var i := last;
      while i < size
        invariant last <= i <= size
        invariant forall q :: 0 <= q < first ==> data[q] == prev[q]
        invariant forall q :: first <= q < i - d ==> data[q] == prev[q + d]
        invariant forall q :: i <= q < size ==> data[q] == prev[q]
      {
        data[i - d] := data[i];
        i := i + 1;
      }
    }

    /** `erase(pos)`: `pos` must name a live element (not `end()`). */
    method Erase(pos: nat) returns (p: nat)
      requires Valid() && pos < size
      modifies this, data
      ensures Valid() && p == pos
      ensures Elements() == RemoveRange(old(Elements()), pos, pos + 1)
      ensures p == size <==> pos == old(size) - 1
    {
      p := EraseRange(pos, pos + 1);
    }

    // -------------------------------------------------------------------
    // Whole-container modifiers

    /** `clear()`. */
    method Clear()
      requires Valid()
      modifies this
      ensures Valid() && Elements() == []
    {
      size := 0;
    }

    /** `resize(n, v)` (and `resize(n)` with the value-initialised `v`):
        keeps the first `n` elements, or appends copies of `v` up to `n`;
        fails with `CapacityExceeded`, changing nothing, when `n > N`. */
    method Resize(n: nat, v: T) returns (st: Status)
      requires Valid()
      modifies this, data
      ensures Valid()
      ensures st.Pass? <==> n <= N
      ensures st.Pass? ==> Elements() == Resized(old(Elements()), n, v)
      ensures st.Fail? ==> st.error == CapacityExceeded && Elements() == old(Elements())
    {
      if n > N {
        return Fail(CapacityExceeded);
      }
      if n <= size {
        size := n;
      } else {
        ghost var prev := data[..size];
        var i := size;
        while i < n
          modifies data
          invariant size <= i <= n
          invariant data[..size] == prev
          invariant forall q :: size <= q < i ==> data[q] == v
        {
          data[i] := v;
          i := i + 1;
        }
        size := n;
        ResizedIndex(prev, n, v);
        assert data[..size] == Resized(prev, n, v);
      }
      return Pass;
    }

    /** `assign(first, last)`, `assign(ilist)`, `assign_range` and
        assignment from an initializer list: replaces the contents by `s`,
        or fails with `CapacityExceeded`, changing nothing. */
    method Assign(s: seq<T>) returns (st: Status)
      requires Valid()
      modifies this, data
      ensures Valid()
      ensures st.Pass? <==> |s| <= N
      ensures st.Pass? ==> Elements() == s
      ensures st.Fail? ==> st.error == CapacityExceeded && Elements() == old(Elements())
    {
      if |s| > N {
        return Fail(CapacityExceeded);
      }
      var i := 0;
      while i < |s|
        modifies data
        invariant i <= |s|
        invariant data[..i] == s[..i]
      {
        data[i] := s[i];
        i := i + 1;
      }
      size := |s|;
      return Pass;
    }

    /** `assign(count, x)`. */
    method AssignCount(count: nat, x: T) returns (st: Status)
      requires Valid()
      modifies this, data
      ensures Valid()
      ensures st.Pass? <==> count <= N
      ensures st.Pass? ==> Elements() == Repeat(x, count)
      ensures st.Fail? ==> st.error == CapacityExceeded && Elements() == old(Elements())
    {
      st := Assign(Repeat(x, count));
    }

    /** Copy assignment between containers of the same capacity (self
        assignment included): the source keeps its contents. Distinct
        containers own distinct storage. */
    method CopyFrom(other: InplaceVector<T>)
      requires Valid() && other.Valid() && other.N == N
      requires other == this || other.data != data
      modifies this, data
      ensures Valid() && other.Valid()
      ensures Elements() == old(other.Elements())
      ensures other.Elements() == old(other.Elements())
    {
      var st := Assign(other.Elements());
    }

    /** Move assignment: this container takes `other`'s elements in order and
        `other` is left empty. Distinct containers own distinct storage. */
    method MoveFrom(other: InplaceVector<T>)
      requires Valid() && other.Valid() && other.N == N && other.data != data
      modifies this, data, other
      ensures Valid() && other.Valid()
      ensures Elements() == old(other.Elements())
      ensures other.Elements() == []
    {
      var i := 0;
      while i < other.size
        modifies data
        invariant i <= other.size
        invariant data[..i] == other.data[..i]
      {
        data[i] := other.data[i];
        i := i + 1;
      }
      size := other.size;
      other.size := 0;
    }

    /** `swap`: exchanges the contents of two containers of the same
        capacity, slot by slot; never fails. */
    method Swap(other: InplaceVector<T>)
      requires Valid() && other.Valid() && other.N == N
      requires other == this || other.data != data
      modifies this, data, other, other.data
      ensures Valid() && other.Valid()
      ensures Elements() == old(other.Elements())
      ensures other.Elements() == old(Elements())
    {
      if other == this {
        return;
      }
      ghost var mine, theirs := data[..], other.data[..];
      var m := if size < other.size then other.size else size;
      var i := 0;
      while i < m
        modifies data, other.data
        invariant i <= m
        invariant forall q :: 0 <= q < i ==> data[q] == theirs[q] && other.data[q] == mine[q]
        invariant forall q :: i <= q < N ==> data[q] == mine[q] && other.data[q] == theirs[q]
      {
        data[i], other.data[i] := other.data[i], data[i];
        i := i + 1;
      }
      size, other.size := other.size, size;
      assert data[..size] == theirs[..size];
      assert other.data[..other.size] == mine[..other.size];
    }
  }

  // ---------------------------------------------------------------------
  // Non-member erasure

  /** `erase_if(v, pred)`: removes every element satisfying `pred` in one
      compacting pass, keeps the survivors in order, and returns how many
      were removed. */
  method EraseIf<T(0)>(v: InplaceVector<T>, pred: T -> bool) returns (count: nat)
    requires v.Valid()
    modifies v, v.data
    ensures v.Valid()
    ensures v.Elements() == Select(old(v.Elements()), pred, false)
    ensures count == old(v.size) - v.size == |Select(old(v.Elements()), pred, true)|
  {
    ghost var prev := v.data[..v.size];
    var w := 0;
    var r := 0;
    while r < v.size
      modifies v.data
      invariant w <= r <= v.size
      invariant v.data[..w] == Select(prev[..r], pred, false)
      invariant r - w == |Select(prev[..r], pred, true)|
      invariant forall q :: r <= q < v.size ==> v.data[q] == prev[q]
    {
      var x := v.data[r];
      assert prev[..r + 1][..r] == prev[..r];
      if !pred(x) {
        v.data[w] := x;
        w := w + 1;
      }
      r := r + 1;
    }
    assert prev[..r] == prev;
    count := v.size - w;
    v.size := w;
  }

  /** `erase(v, x)`: removes every element equal to `x`, keeps the survivors
      in order, and returns how many were removed (the occurrences of `x`). */
  method EraseValue<T(==,0)>(v: InplaceVector<T>, x: T) returns (count: nat)
    requires v.Valid()
    modifies v, v.data
    ensures v.Valid()
    ensures v.Elements() == Select(old(v.Elements()), EqualTo(x), false)
    ensures x !in v.Elements()
    ensures count == multiset(old(v.Elements()))[x]
  {
    ghost var prev := v.Elements();
    count := EraseIf(v, EqualTo(x));
    SelectOccurrences(prev, EqualTo(x), false);
    assert multiset(v.Elements())[x] == 0;
    SelectEqualToCount(prev, x);
  }
}
