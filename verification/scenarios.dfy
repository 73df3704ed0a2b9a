/** The test blocks of the test driver's `main()`, replayed against the
    model as client methods: each asserts the driver's checks on the steps
    it replays and returns their outcome (final contents, returned values
    or the error reported), which its postcondition pins down. Elements of the test's class `M` are represented by their
    string member, the only part on which the blocks' outcomes depend. */
module Scenarios {
  import opened Outcomes
  import opened Sequences
  import opened Ordering
  import opened InplaceVectors

  /** `M`'s `operator<`: the lexicographic order of the string member,
      decided at the first index where the strings differ or one ends. */
  function StringLess(a: string, b: string): (r: bool)
    ensures r <==> exists k :: DecidesAt(a, b, CharLess, k)
  {
    Less(a, b, CharLess)
  }

  /** `M`'s order is a strict total order on the string member, so the
      container comparisons of `M` values obey trichotomy. */
  lemma StringLessTotal()
    ensures StrictTotalOrder(StringLess)
  {
    assert StrictTotalOrder(CharLess);
    StringLessIrreflexive();
    forall a: string, b: string, c: string | StringLess(a, b) && StringLess(b, c)
      ensures StringLess(a, c)
    {
      LessTransitive(a, b, c, CharLess);
    }
    forall a: string, b: string | a != b
      ensures StringLess(a, b) || StringLess(b, a)
    {
      LessTrichotomy(a, b, CharLess);
    }
  }

  /** `M`'s order is irreflexive, as the test's `>=` on equal containers needs. */
  lemma StringLessIrreflexive()
    ensures Irreflexive(StringLess)
  {
    forall s: string
      ensures !StringLess(s, s)
    {
      LessIrreflexive(s, CharLess);
    }
  }

  function IsEven(x: int): bool
  {
    x % 2 == 0
  }

  /** Default construction, capacity queries, `reserve` and `shrink_to_fit`. */
  method CapacityBlock() returns (st: Status)
    ensures st == Fail(CapacityExceeded) && Message(st.error) == "bad allocation"
  {
    var iv := new InplaceVector<int>(100);
    assert iv.IsEmpty() && iv.Size() == 0 && iv.Capacity() == 100;
    var r := iv.Reserve(10);
    assert r == Pass && iv.Capacity() == 100;
    iv.ShrinkToFit();
    assert iv.Capacity() == 100 && iv.Size() == 0;

    var ivM := new InplaceVector<string>(10);
    assert ivM.IsEmpty() && ivM.Size() == 0 && ivM.Capacity() == 10;
    r := ivM.Reserve(5);
    assert r == Pass && ivM.Capacity() == 10;
    ivM.ShrinkToFit();
    assert ivM.Capacity() == 10 && ivM.Size() == 0;
    st := ivM.Reserve(11);
  }

  /** The count and count/value constructors with `front`, `back` and
      `operator[]`; `M{}` is represented by its string "Initialized". */
  method CountCtorBlock() returns (xs: seq<int>, names: seq<string>, ys: seq<int>)
    ensures xs == [0, 0, 0] && names == ["Initialized", "Initialized", "Initialized"]
    ensures ys == [42, 42, 42]
  {
    var made := InplaceVector<int>.FromCount(4, 3, 0);
    assert made.Ok?;
    var iv := made.value;
    assert iv.Size() == 3 && iv.Capacity() == 4;
    assert iv.Front() == 0 && iv.Back() == 0 && iv.Get(1) == 0;
    xs := iv.Elements();

    var madeM := InplaceVector<string>.FromCount(4, 3, "Initialized");
    assert madeM.Ok?;
    var ivM := madeM.value;
    assert ivM.Size() == 3 && ivM.Capacity() == 4;
    assert ivM.Front() == "Initialized" && ivM.Back() == "Initialized";
    assert ivM.Get(1) == "Initialized";
    names := ivM.Elements();

    var made42 := InplaceVector<int>.FromCount(4, 3, 42);
    assert made42.Ok?;
    var iv42 := made42.value;
    assert iv42.Size() == 3 && iv42.Capacity() == 4;
    assert iv42.Front() == 42 && iv42.Back() == 42 && iv42.Get(1) == 42;
    ys := iv42.Elements();
  }

  /** The copy and move constructors: a copy compares equal; a move leaves
      the source empty and unequal to the destination. */
  method CopyMoveBlock() returns (moved: seq<int>, source: seq<int>, movedM: seq<string>, sourceM: seq<string>)
    ensures moved == [42, 42, 42] && source == []
    ensures movedM == ["Initialized", "Initialized", "Initialized"] && sourceM == []
  {
    var made := InplaceVector<int>.FromCount(4, 3, 42);
    assert made.Ok?;
    var iv := made.value;
    var iv2 := InplaceVector<int>.CopyOf(iv);
    assert Equal(iv.Elements(), iv2.Elements());

    var iv3 := InplaceVector<int>.MoveOf(iv);
    assert iv.IsEmpty();
    assert !Equal(iv.Elements(), iv3.Elements());
    assert iv3.Size() == 3 && iv3.Capacity() == 4;
    assert iv3.Front() == 42 && iv3.Back() == 42 && iv3.Get(1) == 42;
    moved, source := iv3.Elements(), iv.Elements();

    var madeM := InplaceVector<string>.FromCount(4, 3, "Initialized");
    assert madeM.Ok?;
    var ivM := madeM.value;
    var ivM2 := InplaceVector<string>.MoveOf(ivM);
    assert ivM.IsEmpty();
    assert !Equal(ivM.Elements(), ivM2.Elements());
    assert ivM2.Size() == 3 && ivM2.Capacity() == 4;
    assert ivM2.Front() == "Initialized" && ivM2.Back() == "Initialized";
    assert ivM2.Get(1) == "Initialized";
    movedM, sourceM := ivM2.Elements(), ivM.Elements();
  }

  /** The iterator-pair and range constructors copy the given elements. */
  method RangeCtorBlock() returns (xs: seq<int>, ys: seq<int>)
    ensures xs == [1, 2, 3] && ys == [1, 2, 3]
  {
    var fromIters := InplaceVector<int>.FromSeq(4, [1, 2, 3]);
    assert fromIters.Ok?;
    var iv := fromIters.value;
    assert iv.Size() == 3 && iv.Get(0) == 1 && iv.Get(1) == 2 && iv.Get(2) == 3;
    xs := iv.Elements();
    var fromRange := InplaceVector<int>.FromSeq(4, [1, 2, 3]);
    assert fromRange.Ok?;
    var iv2 := fromRange.value;
    assert iv2.Size() == 3 && iv2.Front() == 1 && iv2.Back() == 3;
    ys := iv2.Elements();
  }

  /** An initializer list longer than the capacity is refused. */
  method InitListBlock() returns (r: Result<InplaceVector<int>>)
    ensures r == Err(CapacityExceeded)
  {
    var ok := InplaceVector<int>.FromSeq(4, [1, 2, 3]);
    assert ok.Ok? && ok.value.Size() == 3 && ok.value.Front() == 1 && ok.value.Back() == 3;
    r := InplaceVector<int>.FromSeq(2, [1, 2, 3]);
  }

  /** Copy assignment makes unequal containers equal, including assignment
      from an empty one. */
  method CopyAssignBlock() returns (copied: seq<string>, emptied: seq<string>)
    ensures copied == Repeat("copied from", 10) && emptied == []
  {
    var ivEmpty := new InplaceVector<string>(10);
    var ivM1 := new InplaceVector<string>(10);
    var made := InplaceVector<string>.FromCount(10, 10, "copied from");
    assert made.Ok?;
    var ivM2 := made.value;
    assert !Equal(ivM1.Elements(), ivM2.Elements());
    ivM1.CopyFrom(ivM2);
    assert Equal(ivM1.Elements(), ivM2.Elements());
    copied := ivM1.Elements();
    ivM2.CopyFrom(ivEmpty);
    assert Equal(ivM2.Elements(), ivEmpty.Elements());
    emptied := ivM2.Elements();
  }

  /** Move assignment from a temporary and from a named container, which is
      left empty. */
  method MoveAssignBlock() returns (names: seq<string>, source: seq<string>)
    ensures names == ["iv", "iv"] && source == []
  {
    var madeA := InplaceVector<string>.FromCount(4, 2, "Initialized");
    var madeB := InplaceVector<string>.FromCount(4, 2, "iv");
    assert madeA.Ok? && madeB.Ok?;
    var ivA, ivB := madeA.value, madeB.value;
    assert ivA.Get(1) == "Initialized" && ivB.Get(1) == "iv";
    var temp := new InplaceVector<string>(4);
    ivA.MoveFrom(temp);
    assert ivA.IsEmpty();
    ivA.MoveFrom(ivB);
    assert ivA.Size() == 2 && ivA.Get(1) == "iv" && ivB.IsEmpty();
    names, source := ivA.Elements(), ivB.Elements();
  }

  /** Assignment from an initializer list, twice, and the range forms of
      `assign`. */
  method InitListAssignBlock() returns (names: seq<string>, xs: seq<int>)
    ensures names == ["a", "b", "c"] && xs == [1, 2, 3]
  {
    var iv := new InplaceVector<string>(4);
    assert iv.Size() == 0;
    var st := iv.Assign(["a", "b", "c"]);
    assert iv.Size() == 3 && iv.Get(0) == "a" && iv.Get(1) == "b" && iv.Get(2) == "c";
    st := iv.Assign(["a", "b", "c"]);
    assert iv.Size() == 3 && iv.Get(2) == "c";
    names := iv.Elements();

    var ivI := new InplaceVector<int>(4);
    st := ivI.Assign([1, 2, 3]);
    assert ivI.Size() == 3 && ivI.Front() == 1 && ivI.Back() == 3;
    xs := ivI.Elements();
  }

  /** `assign(count, x)` shrinking and then growing the container. */
  method AssignBlock() returns (names: seq<string>)
    ensures names == ["m", "m", "m"]
  {
    var made := InplaceVector<string>.FromCount(4, 2, "Initialized");
    assert made.Ok?;
    var iv := made.value;
    assert iv.Get(1) == "Initialized";
    var st := iv.AssignCount(1, "m");
    assert st == Pass && iv.Elements() == ["m"];
    st := iv.AssignCount(3, "m");
    assert st == Pass && iv.Size() == 3;
    names := iv.Elements();
  }

  /** `at` succeeds below the size and reports `OutOfRange` at the size. */
  method AtBlock() returns (r: Result<string>)
    ensures r == Err(OutOfRange) && Message(r.error) == "inplace_vector::at"
  {
    var made := InplaceVector<string>.FromCount(5, 3, "Initialized");
    assert made.Ok?;
    var iv := made.value;
    assert iv.At(0) == Ok("Initialized");
    assert iv.At(1) == Ok("Initialized");
    r := iv.At(3);
  }

  /** `front` and `back` of a one-element container coincide; after an
      `emplace` at the end they differ. */
  method FrontBackBlock() returns (front: string, back: string)
    ensures front == "Initialized" && back == "b"
  {
    var iv := new InplaceVector<string>(5);
    var st := iv.AssignCount(1, "Initialized");
    assert iv.Front() == "Initialized" && iv.Front() == iv.Back();
    var r := iv.Insert(iv.Size(), "b");
    assert iv.Elements() == ["Initialized", "b"];
    front, back := iv.Front(), iv.Back();
  }

  /** Forward and reverse iteration over `{1.0, 2.0, 3.0}`: `*begin()`,
      `*(end() - 1)`, `*rbegin()` and `*(rend() - 1)`. */
  method IteratorBlock() returns (first: real, last: real, rfirst: real, rlast: real)
    ensures first == 1.0 && last == 3.0 && rfirst == 3.0 && rlast == 1.0
  {
    var made := InplaceVector<real>.FromSeq(4, [1.0, 2.0, 3.0]);
    assert made.Ok?;
    var iv := made.value;
    var s := iv.Elements();
    first, last := s[0], s[|s| - 1];
    var rs := Reversed(s);
    rfirst, rlast := rs[0], rs[|rs| - 1];
  }

  /** `resize` growing with default and given values, shrinking, and
      failing beyond the capacity. */
  method ResizeBlock() returns (names: seq<string>, st: Status, st2: Status)
    ensures |names| == 10 && names[3] == "Initialized"
    ensures forall i :: 4 <= i < 10 ==> names[i] == "a"
    ensures st == Fail(CapacityExceeded) && st2 == Fail(CapacityExceeded)
  {
    var d := "Initialized";
    var iv := new InplaceVector<string>(10);
    st := iv.Resize(0, d);
    assert iv.Size() == 0;
    st := iv.Resize(1, d);
    assert iv.Size() == 1 && iv.Front() == d;
    st := iv.Resize(0, d);
    assert iv.Size() == 0;
    st := iv.Resize(5, d);
    assert iv.Get(4) == d;
    st := iv.Resize(6, "a");
    assert iv.Size() == 6 && iv.Get(4) == d && iv.Get(5) == "a";
    st := iv.Resize(5, "a");
    assert iv.Size() == 5 && iv.Get(4) == d;
    st := iv.Resize(4, d);
    st := iv.Resize(10, "a");
    assert st == Pass;
    names := iv.Elements();
    ResizedIndex(Repeat(d, 4), 10, "a");
    st := iv.Resize(11, d);
    st2 := iv.Resize(11, "a");
  }

  /** `operator[]` on the live elements of a count-constructed container. */
  method SubscriptBlock() returns (first: string, second: string)
    ensures first == "Initialized" && second == "Initialized"
  {
    var made := InplaceVector<string>.FromCount(5, 3, "Initialized");
    assert made.Ok?;
    var iv := made.value;
    first := iv.Get(0);
    second := iv.Get(1);
  }

  /** Single insertion of `M` elements at the end, the front and inside. */
  method InsertSingleSteps(iv: InplaceVector<string>)
    requires iv.Valid() && iv.N == 10 && iv.Elements() == []
    modifies iv, iv.data
    ensures iv.Valid() && iv.Elements() == ["c", "b", "Initialized", "c", "a", "a"]
  {
    var r := iv.Insert(iv.Size(), "a");
    assert r == Ok(0) && iv.Elements() == ["a"];
    r := iv.Insert(0, "b");
    assert r == Ok(0) && iv.Elements() == ["b", "a"];
    r := iv.Insert(1, "c");
    assert r == Ok(1) && iv.Elements() == ["b", "c", "a"];
    r := iv.Insert(iv.Size(), "a");
    assert r == Ok(3) && iv.Elements() == ["b", "c", "a", "a"];
    r := iv.Insert(0, "c");
    assert r == Ok(0) && iv.Elements() == ["c", "b", "c", "a", "a"];
    r := iv.Insert(2, "Initialized");
    assert r == Ok(2);
  }

  /** Single, repeated and failing insertion of `M` elements. */
  method InsertBlock() returns (names: seq<string>)
    ensures names == ["Initialized", "Initialized", "c", "b", "Initialized", "c", "a", "a"]
  {
    var iv := new InplaceVector<string>(10);
    InsertSingleSteps(iv);
    var r := iv.InsertCount(0, 2, "Initialized");
    assert Repeat("Initialized", 2) == ["Initialized", "Initialized"];
    assert r == Ok(0);
    r := iv.InsertCount(0, 3, "Initialized");
    assert r == Err(CapacityExceeded) && iv.Size() == 8;
    names := iv.Elements();
  }

  /** Range insertion at the end, in the middle, of nothing, and a failing
      repeated insertion into the full-but-one container. */
  method InsertRangeSteps(iv: InplaceVector<int>)
    requires iv.Valid() && iv.N == 10 && iv.Elements() == []
    modifies iv, iv.data
    ensures iv.Valid() && iv.Elements() == [1, 2, 1, 2, 3, 3, 1, 2, 3]
  {
    var r := iv.InsertRange(iv.Size(), [1, 2, 3]);
    assert r == Ok(0) && iv.Elements() == [1, 2, 3];
    r := iv.InsertRange(2, [1, 2, 3]);
    assert r == Ok(2) && iv.Elements() == [1, 2, 1, 2, 3, 3];
    r := iv.InsertRange(1, []);
    assert r == Ok(1) && iv.Elements() == [1, 2, 1, 2, 3, 3];
    r := iv.InsertRange(iv.Size(), [1, 2, 3]);
    assert r == Ok(6) && iv.Elements() == [1, 2, 1, 2, 3, 3, 1, 2, 3];
    r := iv.InsertCount(0, 3, 42);
    assert r == Err(CapacityExceeded);
  }

  /** Range insertion, then `clear` and `insert_range` on the emptied container. */
  method InsertRangeBlock() returns (xs: seq<int>)
    ensures xs == [1, 1, 2, 3, 2, 3, 1, 2, 3]
  {
    var iv := new InplaceVector<int>(10);
    InsertRangeSteps(iv);
    assert iv.Size() == 9;
    iv.Clear();
    var r := iv.InsertRange(iv.Size(), [1, 2, 3]);
    assert iv.Size() == 3;
    r := iv.InsertRange(1, [1, 2, 3]);
    assert iv.Elements() == [1, 1, 2, 3, 2, 3];
    r := iv.InsertRange(iv.Size(), [1, 2, 3]);
    assert r == Ok(6) && iv.Size() == 9;
    xs := iv.Elements();
  }

  /** `emplace` at the end and the front of a three-slot container, then
      a refused fourth. */
  method EmplaceBlock() returns (cs: seq<char>)
    ensures cs == ['c', 'a', 'b']
  {
    var iv := new InplaceVector<char>(3);
    var r := iv.Insert(iv.Size(), 'a');
    assert r == Ok(0) && iv.Elements() == ['a'];
    r := iv.Insert(iv.Size(), 'b');
    assert r == Ok(1) && r.value == iv.Size() - 1 && iv.Elements() == ['a', 'b'];
    r := iv.Insert(0, 'c');
    assert r == Ok(0) && iv.Elements() == ['c', 'a', 'b'];
    r := iv.Insert(0, 'd');
    assert r == Err(CapacityExceeded) && iv.Size() == 3;
    cs := iv.Elements();
  }

  /** The three tiers of appending: try and unchecked forms, `pop_back`,
      and the checked form failing when full. */
  method PushBackBlock() returns (cs: seq<char>, tried: Option<nat>)
    ensures cs == ['a', 'b', 'c'] && tried == None
  {
    var iv := new InplaceVector<char>(3);
    var r := iv.PushBack('a');
    assert r.Ok? && iv.Get(r.value) == 'a';
    var t := iv.TryPushBack('b');
    assert t == Some(1) && iv.Get(1) == 'b';
    iv.PopBack();
    t := iv.TryPushBack('b');
    assert t == Some(1);
    var u := iv.UncheckedPushBack('c');
    assert iv.Get(u) == 'c';
    iv.PopBack();
    u := iv.UncheckedPushBack('c');
    assert iv.Elements() == ['a', 'b', 'c'];
    tried := iv.TryPushBack('d');
    r := iv.PushBack('f');
    assert r == Err(CapacityExceeded) && iv.Size() == 3 && iv.Get(2) == 'c';
    cs := iv.Elements();
  }

  /** `emplace_back`, `try_emplace_back` and `unchecked_emplace_back` each
      filling a three-slot container; only the checked and the try forms
      are called on the full container. */
  method EmplaceBackBlock() returns (checked: Result<nat>, tried: Option<nat>, cs: seq<char>)
    ensures checked == Err(CapacityExceeded) && tried == None
    ensures cs == ['a', 'b', 'c']
  {
    var iv := new InplaceVector<char>(3);
    var r := iv.PushBack('a');
    assert r == Ok(0) && iv.Get(0) == 'a';
    r := iv.PushBack('b');
    assert r == Ok(1) && iv.Elements() == ['a', 'b'];
    r := iv.PushBack('c');
    assert r == Ok(2) && iv.Elements() == ['a', 'b', 'c'];
    checked := iv.PushBack('d');
    assert iv.Size() == 3 && iv.Get(2) == 'c';

    var tv := new InplaceVector<char>(3);
    var t := tv.TryPushBack('a');
    assert t == Some(0) && tv.Get(0) == 'a';
    t := tv.TryPushBack('b');
    assert t == Some(1) && tv.Elements() == ['a', 'b'];
    t := tv.TryPushBack('c');
    assert t == Some(2) && tv.Elements() == ['a', 'b', 'c'];
    tried := tv.TryPushBack('d');

    var uv := new InplaceVector<char>(3);
    var u := uv.UncheckedPushBack('a');
    assert u == 0 && uv.Get(0) == 'a';
    u := uv.UncheckedPushBack('b');
    assert u == 1 && uv.Elements() == ['a', 'b'];
    u := uv.UncheckedPushBack('c');
    cs := uv.Elements();
  }

  /** `pop_back` on `char` and on `M` elements. */
  method PopBackBlock() returns (cs: seq<char>, names: seq<string>)
    ensures cs == ['a'] && names == ["a"]
  {
    var iv := new InplaceVector<char>(3);
    var r := iv.PushBack('a');
    assert r.Ok? && iv.Get(r.value) == 'a';
    iv.PopBack();
    assert iv.IsEmpty();
    r := iv.PushBack('a');
    assert r.Ok? && iv.Get(r.value) == 'a';
    r := iv.PushBack('b');
    assert r.Ok? && iv.Get(r.value) == 'b';
    iv.PopBack();
    assert iv.Size() == 1 && iv.Get(0) == 'a';
    cs := iv.Elements();

    var ivm := new InplaceVector<string>(2);
    var rm := ivm.PushBack("Initialized");
    assert rm.Ok? && ivm.Get(rm.value) == "Initialized";
    ivm.PopBack();
    assert ivm.IsEmpty();
    rm := ivm.PushBack("a");
    assert rm.Ok? && ivm.Get(rm.value) == "a";
    rm := ivm.PushBack("b");
    assert rm.Ok? && ivm.Get(rm.value) == "b";
    assert ivm.Get(1) == "b";
    ivm.PopBack();
    assert ivm.Size() == 1;
    names := ivm.Elements();
  }

  /** `append_range` filling, then failing, then `try_append_range` taking
      one element, none, and an empty range. */
  method AppendRangeBlock() returns (xs: seq<int>, k1: nat, k2: nat, k3: nat)
    ensures xs == [1, 2, 3, 1]
    ensures k1 == 1 && k2 == 0 && k3 == 0
  {
    var iv := new InplaceVector<int>(4);
    var st := iv.AppendRange([1, 2, 3]);
    assert iv.Elements() == [1, 2, 3];
    st := iv.AppendRange([1, 2, 3]);
    assert st == Fail(CapacityExceeded) && iv.Size() == 3 && iv.Get(2) == 3;
    k1 := iv.TryAppendRange([1, 2, 3]);
    assert iv.Size() == 4 && iv.Get(3) == 1;
    k2 := iv.TryAppendRange([1, 2, 3]);
    assert iv.Size() == 4;
    k3 := iv.TryAppendRange([]);
    xs := iv.Elements();
  }

  /** Five `push_back`s fill the five-slot container with 'a' to 'e'. */
  method PushFive(iv: InplaceVector<char>)
    requires iv.Valid() && iv.N == 5 && iv.Elements() == []
    modifies iv, iv.data
    ensures iv.Valid() && iv.Elements() == ['a', 'b', 'c', 'd', 'e']
  {
    var r := iv.PushBack('a');
    assert r.Ok? && iv.Get(r.value) == 'a';
    r := iv.PushBack('b');
    assert r.Ok? && iv.Get(r.value) == 'b';
    r := iv.PushBack('c');
    assert r.Ok? && iv.Get(r.value) == 'c';
    r := iv.PushBack('d');
    assert r.Ok? && iv.Get(r.value) == 'd';
    r := iv.PushBack('e');
    assert r.Ok? && iv.Get(r.value) == 'e';
    assert iv.Size() == 5;
    assert iv.Elements() == ['a', 'b', 'c', 'd', 'e'];
  }

  /** `erase(pos)` at the front and in the middle: each returns the position
      of the element that followed the erased one. */
  method EraseFrontAndMiddle(iv: InplaceVector<char>) returns (afterA: char, afterC: char)
    requires iv.Valid() && iv.Elements() == ['a', 'b', 'c', 'd', 'e']
    modifies iv, iv.data
    ensures iv.Valid() && iv.Elements() == ['b', 'd', 'e']
    ensures afterA == 'b' && afterC == 'd'
  {
    var p := iv.Erase(0);
    assert iv.Elements() == ['b', 'c', 'd', 'e'];
    afterA := iv.Get(p);
    p := iv.Erase(1);
    assert iv.Elements() == ['b', 'd', 'e'];
    afterC := iv.Get(p);
  }

  /** `clear`, then `erase(pos)` at the front, in the middle and at the
      last element, down to empty. */
  method EraseAtBlock() returns (afterA: char, afterC: char, tailEnd: bool)
    ensures afterA == 'b' && afterC == 'd' && tailEnd
  {
    var iv := new InplaceVector<char>(5);
    var r := iv.PushBack('a');
    assert r.Ok? && iv.Get(r.value) == 'a';
    iv.Clear();
    assert iv.IsEmpty();
    r := iv.PushBack('a');
    assert r.Ok? && iv.Get(r.value) == 'a';
    r := iv.PushBack('b');
    assert r.Ok? && iv.Get(r.value) == 'b';
    assert iv.Get(1) == 'b';
    iv.Clear();
    assert iv.Size() == 0;
    PushFive(iv);
    afterA, afterC := EraseFrontAndMiddle(iv);
    var p := iv.Erase(2);
    tailEnd := p == iv.Size();
    assert iv.Elements() == ['b', 'd'];
    p := iv.Erase(0);
    assert iv.Elements() == ['d'];
    p := iv.Erase(0);
    assert iv.IsEmpty();
  }

  /** `erase(first, last)` of an empty range, an inner range and everything. */
  method EraseRangeBlock() returns (cs: seq<char>, allEnd: bool)
    ensures cs == [] && allEnd
  {
    var iv := new InplaceVector<char>(5);
    PushFive(iv);
    var p := iv.EraseRange(0, 0);
    assert iv.Elements() == ['a', 'b', 'c', 'd', 'e'];
    assert iv.Get(p) == 'a';
    p := iv.EraseRange(1, 3);
    assert iv.Elements() == ['a', 'd', 'e'];
    assert iv.Get(p) == 'd';
    p := iv.EraseRange(0, iv.Size());
    cs, allEnd := iv.Elements(), p == iv.Size();
  }

  /** Member `swap` exchanges whole contents; a second swap (`std::swap`,
      which moves through a temporary to the same effect) exchanges them back. */
  method SwapBlock() returns (xs: seq<int>, ys: seq<int>, ms: seq<string>, ms2: seq<string>)
    ensures xs == [5, 4, 3, 2, 1] && ys == [1, 2, 3, 4, 5]
    ensures ms == ["a", "b"] && ms2 == ["x", "y"]
  {
    var a := new InplaceVector<int>(5);
    var b := new InplaceVector<int>(5);
    var st := a.Assign([1, 2, 3, 4, 5]);
    st := b.Assign([5, 4, 3, 2, 1]);
    a.Swap(b);
    xs, ys := a.Elements(), b.Elements();

    var ivm := new InplaceVector<string>(2);
    var ivm2 := new InplaceVector<string>(2);
    st := ivm.Assign(["a", "b"]);
    st := ivm2.Assign(["x", "y"]);
    ivm.Swap(ivm2);
    assert ivm.Elements() == ["x", "y"] && ivm2.Elements() == ["a", "b"];
    ivm.Swap(ivm2);
    ms, ms2 := ivm.Elements(), ivm2.Elements();
  }

  /** One more element extends a known selection. */
  /** A known selection of `a` and of `b` gives the selection of `a + [x] + b`. */
  lemma SelectAround<T>(a: seq<T>, x: T, b: seq<T>, p: T -> bool, want: bool, ra: seq<T>, rx: seq<T>, rb: seq<T>)
    requires Select(a, p, want) == ra && Select([x], p, want) == rx && Select(b, p, want) == rb
    ensures Select(a + [x] + b, p, want) == ra + rx + rb
  {
    SelectAppend(a + [x], b, p, want);
    SelectAppend(a, [x], p, want);
  }

  /** Value erasure of 3 from 0..9 keeps every other value in order. */
  lemma EraseThreeFromIota(s: seq<int>)
    requires s == [0, 1, 2, 3, 4, 5, 6, 7, 8, 9]
    ensures Select(s, EqualTo(3), false) == [0, 1, 2, 4, 5, 6, 7, 8, 9]
  {
    var a, b := s[..3], s[4..];
    assert s == a + [3] + b;
    SelectAll(a, EqualTo(3), false);
    SelectNone([3], EqualTo(3), false);
    SelectAll(b, EqualTo(3), false);
    SelectAround(a, 3, b, EqualTo(3), false, a, [], b);
  }

  /** 0..9 holds one 3, so value erasure reports one removal. */
  lemma ThreeOccursOnce(s: seq<int>)
    requires s == [0, 1, 2, 3, 4, 5, 6, 7, 8, 9]
    ensures multiset(s)[3] == 1
  {
    var a, b := s[..3], s[4..];
    assert s == a + [3] + b;
    SelectNone(a, EqualTo(3), true);
    SelectAll([3], EqualTo(3), true);
    SelectNone(b, EqualTo(3), true);
    SelectAround(a, 3, b, EqualTo(3), true, [], [3], []);
    SelectEqualToCount(s, 3);
  }

  /** Erasing the even values from what is left keeps 1, 5, 7, 9 and removes five. */
  lemma EraseEvensFromRest(s: seq<int>)
    requires s == [0, 1, 2, 4, 5, 6, 7, 8, 9]
    ensures Select(s, IsEven, false) == [1, 5, 7, 9]
    ensures |Select(s, IsEven, true)| == 5
  {
    SelectNone(s[..0], IsEven, false);
    assert s[..1] == s[..0] + [0];
    SelectSnoc(s[..0], 0, IsEven, false);
    assert s[..2] == s[..1] + [1];
    SelectSnoc(s[..1], 1, IsEven, false);
    assert s[..3] == s[..2] + [2];
    SelectSnoc(s[..2], 2, IsEven, false);
    assert s[..4] == s[..3] + [4];
    SelectSnoc(s[..3], 4, IsEven, false);
    assert s[..5] == s[..4] + [5];
    SelectSnoc(s[..4], 5, IsEven, false);
    assert s[..6] == s[..5] + [6];
    SelectSnoc(s[..5], 6, IsEven, false);
    assert s[..7] == s[..6] + [7];
    SelectSnoc(s[..6], 7, IsEven, false);
    assert s[..8] == s[..7] + [8];
    SelectSnoc(s[..7], 8, IsEven, false);
    assert s[..9] == s[..8] + [9];
    SelectSnoc(s[..8], 9, IsEven, false);
    assert s[..9] == s;
    SelectPartition(s, IsEven);
  }

  /** Non-member `erase(v, 3)` on 0..9. */
  method EraseThreeStep(iv: InplaceVector<int>) returns (removed3: nat)
    requires iv.Valid() && iv.Elements() == [0, 1, 2, 3, 4, 5, 6, 7, 8, 9]
    modifies iv, iv.data
    ensures iv.Valid() && iv.Elements() == [0, 1, 2, 4, 5, 6, 7, 8, 9]
    ensures removed3 == 1
  {
    ThreeOccursOnce(iv.Elements());
    EraseThreeFromIota(iv.Elements());
    removed3 := EraseValue(iv, 3);
  }

  /** The driver's erase block: `erase(v, 3)`, two reads, then
      `erase_if(v, even)` on what is left. */
  method EraseIfBlock() returns (removed3: nat, at2: int, at3: int, removedEven: nat, xs: seq<int>)
    ensures removed3 == 1 && at2 == 2 && at3 == 4
    ensures removedEven == 5 && xs == [1, 5, 7, 9]
  {
    var made := InplaceVector<int>.FromCount(10, 10, 0);
    assert made.Ok?;
    var iv := made.value;
    var st := iv.Assign([0, 1, 2, 3, 4, 5, 6, 7, 8, 9]);
    removed3 := EraseThreeStep(iv);
    at2 := iv.Get(2);
    at3 := iv.Get(3);
    EraseEvensFromRest(iv.Elements());
    removedEven := EraseIf(iv, IsEven);
    xs := iv.Elements();
  }

  /** The cppreference example: queries, `push_back`, `resize` down, a
      `try_push_back` that fits and one that does not, then `clear`. */
  method CppReferenceBlock() returns (refused: Option<nat>, last: int, empty: bool)
    ensures refused == None && last == 3 && empty
  {
    var made := InplaceVector<int>.FromSeq(4, [0, 1, 2]);
    assert made.Ok?;
    var v1 := made.value;
    assert v1.Capacity() == 4 && v1.Size() == 3 && v1.Elements() == [0, 1, 2];
    assert v1.Get(0) == 0 && v1.At(0) == Ok(0) && v1.Front() == 0 && v1.Back() == 2;
    var r := v1.PushBack(3);
    assert v1.Back() == 3 && v1.Elements() == [0, 1, 2, 3];
    var st := v1.Resize(3, 0);
    assert v1.Elements() == [0, 1, 2];
    var t := v1.TryPushBack(3);
    assert t.Some? && v1.Back() == 3 && v1.Size() == 4;
    refused := v1.TryPushBack(13);
    last := v1.Back();
    assert v1.Size() == 4;
    v1.Clear();
    empty := v1.IsEmpty() && v1.Size() == 0;
  }

  /** Equality and the four orderings between two-element containers.
      After `pop_back` the driver asserts `ivA < ivB` with `ivA == [2]` and
      `ivB == [1, 2]`: that fails lexicographically and holds under
      non-standard orders such as the size-first one. */
  method ComparisonBlock() returns (lexicographic: bool, sizeFirst: bool)
    ensures !lexicographic && sizeFirst
  {
    var a := new InplaceVector<int>(2);
    var b := new InplaceVector<int>(2);
    var st := a.Assign([1, 2]);
    st := b.Assign([1, 2]);
    assert Equal(a.Elements(), b.Elements());
    a.Set(0, 2);
    assert a.Elements() == [2, 2];
    assert !Equal(a.Elements(), b.Elements());
    assert Greater(a.Elements(), b.Elements(), IntLess);
    assert Less(b.Elements(), a.Elements(), IntLess);
    assert GreaterOrEqual(a.Elements(), b.Elements(), IntLess);
    assert LessOrEqual(b.Elements(), a.Elements(), IntLess);
    a.PopBack();
    assert a.Elements() == [2];
    SizeFirstDisagrees();
    lexicographic := Less(a.Elements(), b.Elements(), IntLess);
    sizeFirst := SizeFirstLess(a.Elements(), b.Elements(), IntLess);
  }

  /** The same with `M` elements ordered by their string member. */
  method ComparisonOfMBlock() returns (after: bool)
    ensures after
  {
    var x := new InplaceVector<string>(2);
    var y := new InplaceVector<string>(2);
    var st := x.Assign(["Initialized", "Initialized"]);
    st := y.Assign(["Initialized", "Initialized"]);
    assert Equal(x.Elements(), y.Elements());
    x.Set(0, "a");
    assert x.Elements() == ["a", "Initialized"];
    assert StringLess("Initialized", "a");
    assert Greater(x.Elements(), y.Elements(), StringLess);
    assert Less(y.Elements(), x.Elements(), StringLess);
    StringLessTotal();
    assert GreaterOrEqual(x.Elements(), y.Elements(), StringLess);
    assert LessOrEqual(y.Elements(), x.Elements(), StringLess);
    x.Set(0, "Initialized");
    assert x.Elements() == y.Elements();
    after := GreaterOrEqual(x.Elements(), y.Elements(), StringLess)
      && LessOrEqual(y.Elements(), x.Elements(), StringLess);
  }
}
