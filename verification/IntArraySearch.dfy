/** The cursor of the INTARRAY virtual table: bounds, search strategies and the rows a scan visits. */
module IntArraySearch {
  import opened Memory
  import opened IntArrayBounds

  const BSEARCH_THRESHOLD: nat := 7

  /** The content of an array as it was bound. The flags are the caller's word. */
  datatype IntArray = IntArray(a: seq<int64>, ordered: bool, unique: bool)

  /** The flags are true of the content. The array is small enough for the sum of two indices to fit an int. */
  ghost predicate Honest(arr: IntArray) {
    && |arr.a| <= 0x4000_0000
    && (arr.ordered ==> forall i, j :: 0 <= i < j < |arr.a| ==> arr.a[i] <= arr.a[j])
    && (arr.unique ==> forall i, j :: 0 <= i < j < |arr.a| ==> arr.a[i] != arr.a[j])
  }

  // ---- the naive scan ----

  /** The indices from `from` below `n` that satisfy `p`, in ascending order. */
  function Select(n: nat, p: nat -> bool, from: nat): seq<nat>
    decreases if from < n then n - from else 0
  {
    if from >= n then []
    else if p(from) then [from] + Select(n, p, from + 1)
    else Select(n, p, from + 1)
  }

  function Wants(arr: IntArray, b: Bounds): nat -> bool {
    (k: nat) => WantsRow(arr, b, k)
  }

  /** What a full scan that tests every row would visit. */
  function Wanted(arr: IntArray, b: Bounds): seq<nat> {
    Select(|arr.a|, Wants(arr, b), 0)
  }

  predicate WantsRow(arr: IntArray, b: Bounds, k: nat) {
    && !NeverTrue(b)
    && (b.mode == ROWID ==> Admits(b, k))
    && (b.mode == VALUE ==> k < |arr.a| && Admits(b, arr.a[k]))
  }

  // ---- the cursor's search ----

  /** The first index from `start` on whose value lies within the bounds. */
  function FirstWithin(a: seq<int64>, b: Bounds, start: nat): (k: nat)
    requires start <= |a|
    ensures start <= k <= |a|
    ensures forall j :: start <= j < k ==> !Admits(b, a[j])
    ensures k < |a| ==> Admits(b, a[k])
    decreases |a| - start
  {
    if start == |a| || Admits(b, a[start]) then start else FirstWithin(a, b, start + 1)
  }

  /** Where a search from `start` ends, and what is left of the number of values still to be found. */
  function NextMatch(arr: IntArray, b: Bounds, left: int, start: nat): (r: (nat, int))
    ensures r.0 < |arr.a| ==> start <= r.0
    ensures r.0 <= |arr.a|
  {
    var n := |arr.a|;
    if start >= n || b.mode < 0 then (n, left)
    else if b.mode == ROWID then (if b.hasMax && start > b.max then n else start, left)
    else if b.mode == VALUE then
      if arr.ordered then (if b.hasMax && arr.a[start] > b.max then n else start, left)
      else if arr.unique && left == 0 then (n, left)
      else
        var k := FirstWithin(arr.a, b, start);
        (k, if arr.unique && left > 0 && k < n then left - 1 else left)
    else (start, left)
  }

  /** The rows visited by repeated xNext calls from a search at `start`. */
  function Visit(arr: IntArray, b: Bounds, left: int, start: nat): seq<nat>
    decreases if start < |arr.a| then |arr.a| - start else 0
  {
    var (k, left') := NextMatch(arr, b, left, start);
    if k >= |arr.a| then [] else [k] + Visit(arr, b, left', k + 1)
  }

  /** Lower bound: everything before `k` is less than `value`, everything from `k` on is not. */
  ghost predicate IsLowerBound(a: seq<int64>, value: int64, k: nat) {
    k <= |a| && AllBelow(a, value, k) && NoneBelow(a, value, k)
  }

  ghost predicate AllBelow(a: seq<int64>, value: int64, k: int) {
    forall j :: 0 <= j < k && j < |a| ==> a[j] < value
  }

  ghost predicate NoneBelow(a: seq<int64>, value: int64, k: int) {
    forall j :: 0 <= j < |a| && k <= j ==> a[j] >= value
  }

  /** Binary search on an ascending array. When it is not told to locate the first of equal elements, the array must not
      have any. */
  method BinarySearch(value: int64, a: seq<int64>, begin: nat, end: nat, locateFirst: bool) returns (r: nat)
    requires begin == 0 && end == |a| <= 0x4000_0000
    requires forall i, j :: 0 <= i < j < |a| ==> a[i] <= a[j]
    requires !locateFirst ==> forall i, j :: 0 <= i < j < |a| ==> a[i] != a[j]
    ensures IsLowerBound(a, value, r)
  {
    var first: int, last: int := begin, end;
    last := last - 1;
    while first <= last
      invariant 0 <= first <= last + 1 <= |a|
      invariant AllBelow(a, value, first) && NoneBelow(a, value, last + 1)
      decreases last + 1 - first
    {
      var i := (first + last) / 2;
      var mid := a[i];
      assert forall j :: 0 <= j < i ==> a[j] <= a[i];
      assert forall j :: i < j < |a| ==> a[i] <= a[j];
      if mid < value {
        first := i + 1;
      } else if mid > value || locateFirst {
        last := i - 1;
      } else {
        return i;
      }
    }
    return first;
  }

  /** The conversion of a 64-bit value to a 32-bit int. */
  function IntCast(v: int64): (r: int)
    ensures -0x8000_0000 <= r < 0x8000_0000 && (v - r) % 0x1_0000_0000 == 0
    ensures -0x8000_0000 <= v < 0x8000_0000 ==> r == v
  {
    (v + 0x8000_0000) % TWO32 - 0x8000_0000
  }

  /** A 64-bit sum with wrap-around. */
  function Wrap64(v: int): int64 {
    (v + TWO63) % TWO64 - TWO63
  }

  /** Where xFilter starts the search. */
  ghost predicate StartsAt(arr: IntArray, b: Bounds, start: nat) {
    if b.hasMin && b.mode == ROWID then
      start == if IntCast(b.min) < 0 then 0 else IntCast(b.min)
    else if b.hasMin && b.mode == VALUE && arr.ordered && |arr.a| > BSEARCH_THRESHOLD then
      IsLowerBound(arr.a, b.min, start)
    else start == 0
  }

  /** How many values xFilter lets the search find; -1 for no limit. */
  function InitialLeft(arr: IntArray, b: Bounds): int {
    if arr.unique && b.mode == VALUE && b.hasMin && b.hasMax then
      var v := Wrap64(b.max - b.min + 1);
      if 0 < v < 0x7FFFFFFF then v else -1
    else -1
  }

  /** The bounds xFilter derives from the index number and the arguments. */
  function FilterBounds(idxNum: nat, argv: seq<Arg>): Bounds
    requires forall k :: 0 <= k < |argv| ==> IsArg(argv[k])
  {
    var op1, op2 := (idxNum / 4) % 8, (idxNum / 32) % 8;
    var b0 := Bounds(idxNum % 4, false, 0, false, 0);
    var b1 := if b0.mode > 0 && |argv| > 0 && op1 != 0 then Constrain(op1, argv[0], b0) else b0;
    if b1.mode > 0 && |argv| > 1 && op2 != 0 then Constrain(op2, argv[1], b1) else b1
  }

  /** The cursor object. */
  class Cursor {
    const arr: IntArray
    var mode: int
    var max: int64
    var min: int64
    var hasMax: bool
    var hasMin: bool
    var i: int
    var uniqueLeft: int

    ghost function Limits(): Bounds
      reads this
    {
      Bounds(mode, hasMin, min, hasMax, max)
    }

    constructor (arr: IntArray)
      ensures this.arr == arr && mode == 0 && i == 0
    {
      this.arr := arr;
      mode, max, min, hasMax, hasMin, i, uniqueLeft := 0, 0, 0, false, false, 0, 0;
    }

    method IntarrayNextMatch(startIndex0: nat) returns (startIndex: nat)
      modifies this`uniqueLeft
      ensures (startIndex, uniqueLeft) == NextMatch(arr, Limits(), old(uniqueLeft), startIndex0)
    {
      startIndex := startIndex0;
      var n := |arr.a|;
      if startIndex >= n || mode < 0 {
        return n;
      }
      if mode == ROWID {
        return if hasMax && startIndex > max then n else startIndex;
      } else if mode == VALUE {
        if arr.ordered {
          return if hasMax && arr.a[startIndex] > max then n else startIndex;
        }
        if arr.unique && uniqueLeft == 0 {
          return n;
        }
        while startIndex < n && ((hasMin && min > arr.a[startIndex]) || (hasMax && max < arr.a[startIndex]))
          invariant startIndex0 <= startIndex <= n
          invariant FirstWithin(arr.a, Limits(), startIndex) == FirstWithin(arr.a, Limits(), startIndex0)
        {
          startIndex := startIndex + 1;
        }
        if arr.unique && uniqueLeft > 0 && startIndex < n {
          uniqueLeft := uniqueLeft - 1;
        }
      }
    }

    method IntarrayBoundary(op: nat, intValue: int64, exactInt: bool)
      modifies this`mode, this`min, this`max, this`hasMin, this`hasMax
      ensures Limits() == Boundary(op, old(Limits()), intValue, exactInt)
    {
      if HasLower(op) {
        SetMinimum(intValue, exactInt && !HasEqual(op));
      } else if HasUpper(op) {
        SetMaximum(intValue, exactInt && !HasEqual(op));
      } else if HasEqual(op) {
        if !exactInt {
          mode := ZEROSET;
        } else {
          SetMinimum(intValue, false);
          SetMaximum(intValue, false);
        }
      }
    }

    method SetMaximum(val: int64, exclusive: bool)
      modifies this`max, this`hasMax
      ensures Limits() == SetMax(old(Limits()), val, exclusive)
    {
      var v := val;
      if exclusive && v > SMALLEST {
        v := v - 1;
      }
      if !hasMax || max > v {
        max, hasMax := v, true;
      }
    }

    method SetMinimum(val: int64, exclusive: bool)
      modifies this`min, this`hasMin
      ensures Limits() == SetMin(old(Limits()), val, exclusive)
    {
      var v := val;
      if exclusive && v < LARGEST {
        v := v + 1;
      }
      if !hasMin || min < v {
        min, hasMin := v, true;
      }
    }

    method IntarrayConstrainCursor(op: nat, value: Arg)
      requires IsArg(value)
      modifies this`mode, this`min, this`max, this`hasMin, this`hasMax
      ensures Limits() == Constrain(op, value, old(Limits()))
    {
      match value
      case TextArg =>
        if !HasUpper(op) {
          mode := ZEROSET;
        }
      case RealArg(doubleValue) =>
        if doubleValue > TWO63_REAL {
          if !HasUpper(op) || HasLower(op) {
            mode := ZEROSET;
          }
        } else if doubleValue < -TWO63_REAL {
          if !HasLower(op) || HasUpper(op) {
            mode := ZEROSET;
          }
        } else {
          DoubleFits(op, doubleValue);
          var intValue: int64 := if HasLower(op) then Ceil(doubleValue)
                                 else if HasUpper(op) then doubleValue.Floor
                                 else Truncate(doubleValue);
          IntarrayBoundary(op, intValue, intValue as real == doubleValue);
        }
      case IntArg(v) => IntarrayBoundary(op, v, true);
      case NullArg => mode := ZEROSET;
    }

    /** xFilter: the first part evaluates the arguments, the rest is `Seek`. */
    method IntarrayFilter(idxNum: nat, argv: seq<Arg>) returns (ghost start: nat)
      requires Honest(arr) && forall k :: 0 <= k < |argv| ==> IsArg(argv[k])
      modifies this
      ensures Limits() == FilterBounds(idxNum, argv)
      ensures NeverTrue(Limits()) ==> i == |arr.a|
      ensures !NeverTrue(Limits()) ==>
                && StartsAt(arr, Limits(), start)
                && (i, uniqueLeft) == NextMatch(arr, Limits(), InitialLeft(arr, Limits()), start)
    {
      var op1, op2 := (idxNum / 4) % 8, (idxNum / 32) % 8;
      mode := idxNum % 4;
      hasMin, hasMax := false, false;
      min := 0;
      max := 0;
      uniqueLeft := -1;
      if mode > 0 && |argv| > 0 && op1 != 0 {
        IntarrayConstrainCursor(op1, argv[0]);
      }
      if mode > 0 && |argv| > 1 && op2 != 0 {
        IntarrayConstrainCursor(op2, argv[1]);
      }
      hide NextMatch, StartsAt, Constrain, InitialLeft, Honest;
      start := Seek();
    }

    /** The part of xFilter that follows the evaluation of the arguments. */
    method Seek() returns (ghost start: nat)
      requires Honest(arr)
      modifies this`i, this`uniqueLeft
      ensures NeverTrue(Limits()) ==> i == |arr.a|
      ensures !NeverTrue(Limits()) ==>
                && StartsAt(arr, Limits(), start)
                && (i, uniqueLeft) == NextMatch(arr, Limits(), InitialLeft(arr, Limits()), start)
    {
      start := 0;
      uniqueLeft := -1;
      if mode < 0 || (hasMin && hasMax && min > max) {
        i := |arr.a|;
        return;
      }
      var startIndex := 0;
      if hasMin && mode == ROWID {
        startIndex := IntCast(min);
        if startIndex < 0 {
          startIndex := 0;
        }
      } else if hasMin && mode == VALUE && arr.ordered && |arr.a| > BSEARCH_THRESHOLD {
        startIndex := BinarySearch(min, arr.a, 0, |arr.a|, !arr.unique);
      }
      if arr.unique && mode == VALUE && hasMin && hasMax {
        var v := Wrap64(max - min + 1);
        if v > 0 && v < 0x7FFFFFFF {
          uniqueLeft := v;
        }
      }
      start := startIndex;
      i := IntarrayNextMatch(startIndex);
    }

    predicate Eof()
      reads this
    {
      i >= |arr.a|
    }

    method IntarrayNext()
      requires 0 <= i
      modifies this`i, this`uniqueLeft
      ensures (i, uniqueLeft) == NextMatch(arr, Limits(), old(uniqueLeft), old(i) + 1)
    {
      i := IntarrayNextMatch(i + 1);
    }

    /** SQLite's loop over the cursor: xFilter, then xNext until xEof. What it visits is what a naive scan would, when
        and only when `ScanExact` says. */
    method VisitAll(idxNum: nat, argv: seq<Arg>) returns (rows: seq<nat>)
      requires Honest(arr) && idxNum % 4 <= VALUE && forall k :: 0 <= k < |argv| ==> IsArg(argv[k])
      modifies this
      ensures Limits() == FilterBounds(idxNum, argv)
      ensures rows == Visited(arr, Limits())
      ensures rows == Wanted(arr, Limits()) <==> ScanExact(arr, Limits())
    {
      hide NextMatch, StartsAt, ScanExact, Wanted, Honest, Visit, Ahead, InitialLeft, FilterBounds, WantsRow;
      ghost var start := IntarrayFilter(idxNum, argv);
      ghost var b, left := Limits(), InitialLeft(arr, Limits());
      VisitIsAhead(arr, b, left, start);
      rows := [];
      while !Eof()
        invariant 0 <= i <= |arr.a|
        invariant Limits() == b
        invariant NeverTrue(b) ==> rows == [] && Eof()
        invariant !NeverTrue(b) ==> rows + Ahead(arr, b, uniqueLeft, i) == Visit(arr, b, left, start)
        decreases |arr.a| - i
      {
        AheadStep(arr, b, uniqueLeft, i);
        VisitIsAhead(arr, b, uniqueLeft, i + 1);
        rows := rows + [i];
        IntarrayNext();
      }
      AheadEnd(arr, b, uniqueLeft, i);
      KeepsMode(idxNum, argv);
      if NeverTrue(b) {
        NothingVisited(arr, b, 0);
      } else {
        ScanVisits(arr, b, start);
      }
      VisitedIffExact(arr, b);
    }
  }

  /** Bounds that can be true still have the search mode of the index number. */
  lemma {:induction false} KeepsMode(idxNum: nat, argv: seq<Arg>)
    requires forall k :: 0 <= k < |argv| ==> IsArg(argv[k])
    ensures var b := FilterBounds(idxNum, argv); b.mode == idxNum % 4 || b.mode == ZEROSET
  {
  }

  /** The rows a cursor at row `i` has still to visit. */
  function Ahead(arr: IntArray, b: Bounds, left: int, i: nat): seq<nat> {
    if i >= |arr.a| then [] else [i] + Visit(arr, b, left, i + 1)
  }

  lemma {:induction false} VisitIsAhead(arr: IntArray, b: Bounds, left: int, start: nat)
    ensures var (k, left') := NextMatch(arr, b, left, start); Visit(arr, b, left, start) == Ahead(arr, b, left', k)
  {
  }

  lemma {:induction false} AheadStep(arr: IntArray, b: Bounds, left: int, i: nat)
    requires i < |arr.a|
    ensures Ahead(arr, b, left, i) == [i] + Visit(arr, b, left, i + 1)
  {
  }

  lemma {:induction false} AheadEnd(arr: IntArray, b: Bounds, left: int, i: nat)
    requires i >= |arr.a|
    ensures Ahead(arr, b, left, i) == []
  {
  }

  // ---- why the search is right, and when it is not ----

  /** The row at which a search by rowid starts. */
  function StartRow(b: Bounds): nat {
    if b.hasMin && IntCast(b.min) > 0 then IntCast(b.min) else 0
  }

  /** A search in a small ordered array looks at no minimum. */
  predicate SkipsMinimum(arr: IntArray) {
    arr.ordered && |arr.a| <= BSEARCH_THRESHOLD
  }

  /** Whether a scan visits row `k`. */
  predicate VisitsRow(arr: IntArray, b: Bounds, k: nat) {
    && !NeverTrue(b)
    && (b.mode == ROWID ==> StartRow(b) <= k && (b.hasMax ==> k <= b.max))
    && (b.mode == VALUE ==>
          && k < |arr.a| && (b.hasMax ==> arr.a[k] <= b.max)
          && (b.hasMin && !SkipsMinimum(arr) ==> b.min <= arr.a[k]))
  }

  /** What a scan gets wrong of row `k`: the value lies below a minimum that is not looked at, or the row on one side of
      the minimum and on the other of what that is cut to. */
  predicate Misread(arr: IntArray, b: Bounds, k: nat) {
    && !NeverTrue(b) && b.hasMin
    && (|| (b.mode == VALUE && SkipsMinimum(arr) && k < |arr.a| && arr.a[k] < b.min && (b.hasMax ==> arr.a[k] <= b.max))
        || (b.mode == ROWID && (b.min <= k) != (StartRow(b) <= k) && (b.hasMax ==> k <= b.max)))
  }

  lemma {:induction false} MisreadIff(arr: IntArray, b: Bounds, k: nat)
    ensures (VisitsRow(arr, b, k) <==> WantsRow(arr, b, k)) <==> !Misread(arr, b, k)
  {
    hide IntCast;
  }

  function Visits(arr: IntArray, b: Bounds): nat -> bool {
    (k: nat) => VisitsRow(arr, b, k)
  }

  function Visited(arr: IntArray, b: Bounds): seq<nat> {
    Select(|arr.a|, Visits(arr, b), 0)
  }

  lemma {:induction false} NothingVisited(arr: IntArray, b: Bounds, from: nat)
    requires NeverTrue(b)
    ensures Select(|arr.a|, Visits(arr, b), from) == []
    decreases if from < |arr.a| then |arr.a| - from else 0
  {
    if from < |arr.a| {
      NothingVisited(arr, b, from + 1);
    }
  }

  /** Rows beyond the last one a maximum on the rowid lets through. */
  function RowTop(arr: IntArray, b: Bounds): nat {
    if b.hasMax && b.max < |arr.a| then (if b.max < 0 then 0 else b.max + 1) else |arr.a|
  }

  function Lesser(x: int, y: int): int {
    if x < y then x else y
  }

  /** The scan visits exactly the wanted rows: a search by value unless a small ordered array starts below the minimum,
      a search by rowid unless the conversion of the minimum to int moves it within the rows. */
  predicate ScanExact(arr: IntArray, b: Bounds) {
    NeverTrue(b)
    || (b.mode != ROWID && b.mode != VALUE)
    || (b.mode == VALUE && !(arr.ordered && b.hasMin && 0 < |arr.a| <= BSEARCH_THRESHOLD && arr.a[0] < b.min))
    || (b.mode == ROWID && (b.hasMin ==>
          Lesser(if IntCast(b.min) < 0 then 0 else IntCast(b.min), RowTop(arr, b))
          == Lesser(if b.min < 0 then 0 else b.min, RowTop(arr, b))))
  }

  /** The selected indices, each once and in ascending order. */
  lemma {:induction false} SelectMeans(n: nat, p: nat -> bool, from: nat)
    ensures forall k: nat :: k in Select(n, p, from) <==> from <= k < n && p(k)
    ensures forall i, j :: 0 <= i < j < |Select(n, p, from)| ==> Select(n, p, from)[i] < Select(n, p, from)[j]
    decreases if from < n then n - from else 0
  {
    if from < n {
      var rest := Select(n, p, from + 1);
      SelectMeans(n, p, from + 1);
      assert Select(n, p, from) == (if p(from) then [from] + rest else rest);
      assert forall i :: 0 <= i < |rest| ==> rest[i] in rest;
    }
  }

  lemma {:induction false} SelectSound(n: nat, p: nat -> bool, from: nat)
    ensures forall k :: k in Select(n, p, from) ==> from <= k < n && p(k)
    decreases if from < n then n - from else 0
  {
    if from < n {
      SelectSound(n, p, from + 1);
    }
  }

  predicate Agree(n: nat, p: nat -> bool, q: nat -> bool, from: nat) {
    forall k :: from <= k < n ==> p(k) == q(k)
  }

  /** Two tests select the same rows exactly if they agree on each. */
  lemma {:induction false} SelectSame(n: nat, p: nat -> bool, q: nat -> bool, from: nat)
    ensures Select(n, p, from) == Select(n, q, from) <==> Agree(n, p, q, from)
    decreases if from < n then n - from else 0
  {
    if from < n {
      SelectSame(n, p, q, from + 1);
      if p(from) != q(from) {
        assert !Agree(n, p, q, from);
        OneSelects(n, if p(from) then p else q, if p(from) then q else p, from);
      } else {
        assert Agree(n, p, q, from) <==> Agree(n, p, q, from + 1);
        assert p(from) ==> Select(n, p, from)[1..] == Select(n, p, from + 1);
        assert q(from) ==> Select(n, q, from)[1..] == Select(n, q, from + 1);
      }
    }
  }

  lemma {:induction false} OneSelects(n: nat, p: nat -> bool, q: nat -> bool, from: nat)
    requires from < n && p(from) && !q(from)
    ensures Select(n, p, from) != Select(n, q, from)
  {
    SelectSound(n, q, from + 1);
    var rows := Select(n, q, from);
    assert rows == Select(n, q, from + 1) && Select(n, p, from)[0] == from;
    assert rows != [] ==> rows[0] in rows;
  }

  /** Rows that fail the test may be skipped. */
  lemma {:induction false} SelectSkips(n: nat, p: nat -> bool, from: nat, upto: nat)
    requires from <= upto && forall k :: from <= k < upto && k < n ==> !p(k)
    ensures Select(n, p, from) == Select(n, p, upto)
    decreases upto - from
  {
    if from < upto && from < n {
      SelectSkips(n, p, from + 1, upto);
    }
  }

  // a full scan

  lemma {:induction false} FullScan(arr: IntArray, b: Bounds, left: int, start: nat)
    requires b.mode == SCAN && !NeverTrue(b)
    ensures Visit(arr, b, left, start) == Select(|arr.a|, Visits(arr, b), start)
    decreases if start < |arr.a| then |arr.a| - start else 0
  {
    if start < |arr.a| {
      FullScan(arr, b, left, start + 1);
    }
  }

  // a search by rowid

  function Range(from: nat, upto: nat): (r: seq<nat>)
    ensures |r| == if from < upto then upto - from else 0
    ensures from < upto ==> r[0] == from
    decreases if from < upto then upto - from else 0
  {
    if from >= upto then [] else [from] + Range(from + 1, upto)
  }

  lemma {:induction false} RowsVisited(arr: IntArray, b: Bounds, left: int, start: nat)
    requires b.mode == ROWID
    ensures Visit(arr, b, left, start) == Range(start, RowTop(arr, b))
    decreases if start < |arr.a| then |arr.a| - start else 0
  {
    if start < RowTop(arr, b) {
      RowsVisited(arr, b, left, start + 1);
    }
  }

  lemma {:induction false} RowsSelected(arr: IntArray, b: Bounds, from: nat)
    requires b.mode == ROWID && !NeverTrue(b)
    ensures Select(|arr.a|, Visits(arr, b), from)
         == Range(if StartRow(b) > from then StartRow(b) else from, RowTop(arr, b))
    decreases if from < |arr.a| then |arr.a| - from else 0
  {
    if from < |arr.a| {
      RowsSelected(arr, b, from + 1);
    }
  }

  // a search by value in an ordered array

  lemma {:induction false} OrderedVisit(arr: IntArray, b: Bounds, left: int, start: nat)
    requires Honest(arr) && arr.ordered && b.mode == VALUE && !NeverTrue(b)
    requires b.hasMin && !SkipsMinimum(arr) ==> forall j :: start <= j < |arr.a| ==> arr.a[j] >= b.min
    ensures Visit(arr, b, left, start) == Select(|arr.a|, Visits(arr, b), start)
    decreases if start < |arr.a| then |arr.a| - start else 0
  {
    if start < |arr.a| {
      if b.hasMax && arr.a[start] > b.max {
        SelectSkips(|arr.a|, Visits(arr, b), start, |arr.a|);
      } else {
        OrderedVisit(arr, b, left, start + 1);
      }
    }
  }

  // a search by value in an unordered array

  /** The wanted values found before `start`. */
  ghost function Found(arr: IntArray, b: Bounds, start: nat): set<int>
    requires start <= |arr.a|
  {
    set j | 0 <= j < start && Admits(b, arr.a[j]) :: arr.a[j]
  }

  function Interval(lo: int, hi: int): (s: set<int>)
    ensures lo <= hi + 1 ==> |s| == hi - lo + 1
    ensures forall x :: x in s <==> lo <= x <= hi
    decreases hi - lo
  {
    if lo > hi then {}
    else
      var rest := Interval(lo, hi - 1);
      rest + {hi}
  }

  /** What is left to find is what the interval of bounds has beyond the values found. */
  ghost predicate LeftCounts(arr: IntArray, b: Bounds, left: int, start: nat)
    requires start <= |arr.a|
  {
    arr.unique && left >= 0 ==>
      b.hasMin && b.hasMax && b.min <= b.max && |Found(arr, b, start)| + left == b.max - b.min + 1
  }

  lemma {:induction false} FoundSame(arr: IntArray, b: Bounds, start: nat, k: nat)
    requires start <= k <= |arr.a| && forall j :: start <= j < k ==> !Admits(b, arr.a[j])
    ensures Found(arr, b, k) == Found(arr, b, start)
  {
  }

  lemma {:induction false} FoundOneMore(arr: IntArray, b: Bounds, k: nat)
    requires Honest(arr) && arr.unique && k < |arr.a| && Admits(b, arr.a[k])
    ensures |Found(arr, b, k + 1)| == |Found(arr, b, k)| + 1
  {
    assert Found(arr, b, k + 1) == Found(arr, b, k) + {arr.a[k]};
  }

  /** When nothing is left to find, every value of the interval was found, so no later value can be in it. */
  lemma {:induction false} Pigeonhole(arr: IntArray, b: Bounds, start: nat, k: nat)
    requires Honest(arr) && arr.unique && start <= k < |arr.a|
    requires LeftCounts(arr, b, 0, start)
    ensures !Admits(b, arr.a[k])
  {
    var all, found := Interval(b.min, b.max), Found(arr, b, start);
    assert found <= all;
    if found != all {
      SmallerSubset(found, all);
    }
    assert arr.a[k] !in found;
  }

  lemma {:induction false} SmallerSubset(s: set<int>, t: set<int>)
    requires s <= t && s != t
    ensures |s| < |t|
  {
    assert t == s + (t - s);
  }

  lemma {:induction false} UnorderedVisit(arr: IntArray, b: Bounds, left: int, start: nat)
    requires Honest(arr) && !arr.ordered && b.mode == VALUE && !NeverTrue(b) && start <= |arr.a|
    requires LeftCounts(arr, b, left, start)
    ensures Visit(arr, b, left, start) == Select(|arr.a|, Wants(arr, b), start)
    decreases if start < |arr.a| then |arr.a| - start else 0
  {
    var n := |arr.a|;
    if start < n {
      if arr.unique && left == 0 {
        forall k | start <= k < n
          ensures !WantsRow(arr, b, k)
        {
          Pigeonhole(arr, b, start, k);
        }
        SelectSkips(n, Wants(arr, b), start, n);
      } else {
        var k := FirstWithin(arr.a, b, start);
        SelectSkips(n, Wants(arr, b), start, k);
        if k < n {
          if arr.unique && left > 0 {
            FoundSame(arr, b, start, k);
            FoundOneMore(arr, b, k);
          }
          UnorderedVisit(arr, b, NextMatch(arr, b, left, start).1, k + 1);
        }
      }
    }
  }

  /** The limit xFilter sets is the number of values between the bounds, although it is computed with wrap-around. */
  lemma {:induction false} InitialLeftCounts(arr: IntArray, b: Bounds)
    requires !NeverTrue(b)
    ensures LeftCounts(arr, b, InitialLeft(arr, b), 0)
    ensures InitialLeft(arr, b) == -1 || InitialLeft(arr, b) == b.max - b.min + 1
  {
    assert Found(arr, b, 0) == {};
  }

  /** What a scan visits, whatever the array, the bounds and the strategy: the rows within the bounds, but for a minimum
      that is not looked at or cut to 32 bits. */
  lemma {:induction false} ScanVisits(arr: IntArray, b: Bounds, start: nat)
    requires Honest(arr) && !NeverTrue(b) && b.mode <= VALUE && StartsAt(arr, b, start)
    ensures Visit(arr, b, InitialLeft(arr, b), start) == Visited(arr, b)
  {
    if b.mode == SCAN {
      FullScan(arr, b, InitialLeft(arr, b), 0);
    } else if b.mode == ROWID {
      RowsVisited(arr, b, InitialLeft(arr, b), start);
      RowsSelected(arr, b, 0);
    } else if arr.ordered {
      OrderedVisit(arr, b, InitialLeft(arr, b), start);
      SelectSkips(|arr.a|, Visits(arr, b), 0, start);
    } else {
      InitialLeftCounts(arr, b);
      UnorderedVisit(arr, b, InitialLeft(arr, b), 0);
      SelectSame(|arr.a|, Wants(arr, b), Visits(arr, b), 0);
    }
  }

  /** Row by row, the scan is right exactly if `ScanExact` holds. */
  lemma {:induction false} ExactRows(arr: IntArray, b: Bounds)
    requires Honest(arr) && b.mode <= VALUE
    ensures ScanExact(arr, b) <==> forall k :: 0 <= k < |arr.a| ==> (VisitsRow(arr, b, k) <==> WantsRow(arr, b, k))
  {
    if !NeverTrue(b) && b.mode == VALUE && b.hasMin && SkipsMinimum(arr) && 0 < |arr.a| {
      assert arr.a[0] < b.min ==> VisitsRow(arr, b, 0) && !WantsRow(arr, b, 0);
    } else if !NeverTrue(b) && b.mode == ROWID && b.hasMin {
      RowidRows(arr, b);
    }
  }

  lemma {:induction false} RowidRows(arr: IntArray, b: Bounds)
    requires !NeverTrue(b) && b.mode == ROWID && b.hasMin
    ensures ScanExact(arr, b) <==> forall k :: 0 <= k < |arr.a| ==> (VisitsRow(arr, b, k) <==> WantsRow(arr, b, k))
  {
    hide IntCast;
    var s, m, top := StartRow(b), if b.min < 0 then 0 else b.min, RowTop(arr, b);
    forall k: nat | k < |arr.a|
      ensures VisitsRow(arr, b, k) <==> s <= k < top
      ensures WantsRow(arr, b, k) <==> m <= k < top
    {
    }
    var k := Lesser(s, m);
    if Lesser(s, top) != Lesser(m, top) {
      assert VisitsRow(arr, b, k) != WantsRow(arr, b, k);
    }
  }

  /** A scan visits what a naive scan that tests every row would, if and only if `ScanExact` holds. */
  lemma {:induction false} VisitedIffExact(arr: IntArray, b: Bounds)
    requires Honest(arr) && b.mode <= VALUE
    ensures Visited(arr, b) == Wanted(arr, b) <==> ScanExact(arr, b)
  {
    SelectSame(|arr.a|, Visits(arr, b), Wants(arr, b), 0);
    ExactRows(arr, b);
    hide VisitsRow, WantsRow, ScanExact, Select;
    assert forall k :: 0 <= k < |arr.a| ==> Visits(arr, b)(k) == VisitsRow(arr, b, k);
    assert forall k :: 0 <= k < |arr.a| ==> Wants(arr, b)(k) == WantsRow(arr, b, k);
  }

  /** A small ordered array: `value >= 2` on {1, 2, 3} also visits the 1. */
  lemma {:induction false} SmallOrderedArrayVisitsTooMuch()
    ensures var arr, b := IntArray([1, 2, 3], true, false), Bounds(VALUE, true, 2, false, 0);
            && Honest(arr) && StartsAt(arr, b, 0)
            && Visit(arr, b, InitialLeft(arr, b), 0) == [0, 1, 2] && Wanted(arr, b) == [1, 2]
  {
    var arr, b := IntArray([1, 2, 3], true, false), Bounds(VALUE, true, 2, false, 0);
    var p := Wants(arr, b);
    assert Select(3, p, 3) == [];
    assert Select(3, p, 2) == [2];
    assert Select(3, p, 1) == [1, 2];
    assert Visit(arr, b, -1, 3) == [];
    assert Visit(arr, b, -1, 2) == [2];
    assert Visit(arr, b, -1, 1) == [1, 2];
  }

  /** `rowid >= 4294967296` on a one-row array visits row 0. */
  lemma {:induction false} LargeRowidWraps()
    ensures var arr, b := IntArray([5], false, false), Bounds(ROWID, true, 0x1_0000_0000, false, 0);
            && Honest(arr) && StartsAt(arr, b, 0)
            && Visit(arr, b, InitialLeft(arr, b), 0) == [0] && Wanted(arr, b) == []
  {
    var arr, b := IntArray([5], false, false), Bounds(ROWID, true, 0x1_0000_0000, false, 0);
    assert Visit(arr, b, -1, 1) == [];
    assert Select(1, Wants(arr, b), 1) == [];
  }

  /** The conditions a caller can check: 32-bit rowids, and more than seven values or none below the minimum. */
  lemma {:induction false} ScanExactInPractice(arr: IntArray, b: Bounds)
    requires b.mode == ROWID && b.hasMin ==> -0x8000_0000 <= b.min < 0x8000_0000
    requires b.mode == VALUE && b.hasMin && arr.ordered ==>
              |arr.a| > 7 || arr.a == [] || b.min <= arr.a[0]
    ensures ScanExact(arr, b)
  {
  }
}
