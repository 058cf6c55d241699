/** Bounds of an INTARRAY cursor and how the arguments of constraints set them. */
module IntArrayBounds {
  import opened Memory

  const SMALLEST: int64 := -TWO63
  const LARGEST: int64 := TWO63 - 1

  const ZEROSET: int := -1
  const SCAN: int := 0
  const ROWID: int := 1
  const VALUE: int := 2

  /** Search mode and bounds of a cursor. */
  datatype Bounds = Bounds(mode: int, hasMin: bool, min: int64, hasMax: bool, max: int64)

  predicate Admits(b: Bounds, x: int) {
    (b.hasMin ==> b.min <= x) && (b.hasMax ==> x <= b.max)
  }

  predicate NeverTrue(b: Bounds) {
    b.mode < 0 || (b.hasMin && b.hasMax && b.min > b.max)
  }

  /** A constraint operator as the query planner passes it; `Strange` is any the module does not search by. */
  datatype Op = EQ | GT | LE | LT | GE | Strange

  /** A constraint's argument. A double is the real number it stands for. */
  datatype Arg = NullArg | IntArg(v: int64) | RealArg(r: real) | TextArg

  const UPPER: nat := 1
  const EQUAL: nat := 2
  const LOWER: nat := 4

  function OpBit(op: Op): (bits: nat)
    ensures bits < 8
  {
    match op
    case EQ => EQUAL
    case GE => EQUAL + LOWER
    case GT => LOWER
    case LE => EQUAL + UPPER
    case LT => UPPER
    case Strange => 0
  }

  predicate HasUpper(bits: nat) { bits % 2 == 1 }
  predicate HasEqual(bits: nat) { (bits / 2) % 2 == 1 }
  predicate HasLower(bits: nat) { (bits / 4) % 2 == 1 }

  /** The macro INTARRAY_MAX. */
  function SetMax(b: Bounds, val: int64, exclusive: bool): Bounds {
    var v := if exclusive && val > SMALLEST then val - 1 else val;
    if !b.hasMax || b.max > v then b.(max := v, hasMax := true) else b
  }

  /** The macro INTARRAY_MIN. */
  function SetMin(b: Bounds, val: int64, exclusive: bool): Bounds {
    var v := if exclusive && val < LARGEST then val + 1 else val;
    if !b.hasMin || b.min < v then b.(min := v, hasMin := true) else b
  }

  function Boundary(op: nat, b: Bounds, intValue: int64, exactInt: bool): Bounds {
    if HasLower(op) then SetMin(b, intValue, exactInt && !HasEqual(op))
    else if HasUpper(op) then SetMax(b, intValue, exactInt && !HasEqual(op))
    else if HasEqual(op) then
      if !exactInt then b.(mode := ZEROSET) else SetMax(SetMin(b, intValue, false), intValue, false)
    else b
  }

  const TWO63_REAL: real := 9223372036854775808.0

  /** A double in the range where the module converts it to a 64-bit integer, or beyond it. The double 2^63 itself is
      excluded: its conversion is undefined. Below 2^63 doubles are 1024 apart. */
  predicate IsDouble(r: real) {
    r <= TWO63_REAL - 1024.0 || r > TWO63_REAL
  }

  predicate IsArg(arg: Arg) {
    arg.RealArg? ==> IsDouble(arg.r)
  }

  function Ceil(r: real): int {
    -((-r).Floor)
  }

  /** Conversion of a double to an integer: towards zero. */
  function Truncate(r: real): int {
    if r >= 0.0 then r.Floor else Ceil(r)
  }

  /** The integer a double bound stands for. */
  function BoundOf(op: nat, r: real): int {
    if HasLower(op) then Ceil(r) else if HasUpper(op) then r.Floor else Truncate(r)
  }

  function Constrain(op: nat, arg: Arg, b: Bounds): Bounds
    requires IsArg(arg)
  {
    match arg
    case TextArg => if !HasUpper(op) then b.(mode := ZEROSET) else b
    case RealArg(r) =>
      if r > TWO63_REAL then (if !HasUpper(op) || HasLower(op) then b.(mode := ZEROSET) else b)
      else if r < -TWO63_REAL then (if !HasLower(op) || HasUpper(op) then b.(mode := ZEROSET) else b)
      else
        DoubleFits(op, r);
        var intValue: int64 := BoundOf(op, r);
        Boundary(op, b, intValue, intValue as real == r)
    case IntArg(v) => Boundary(op, b, v, true)
    case NullArg => b.(mode := ZEROSET)
  }

  lemma {:induction false} DoubleFits(op: nat, r: real)
    requires -TWO63_REAL <= r <= TWO63_REAL - 1024.0
    ensures -TWO63 <= BoundOf(op, r) < TWO63
  {
    assert TWO63_REAL == TWO63 as real;
  }

  // ---- what the bounds mean ----

  /** SQLite's comparison of an integer with an argument: numbers by value, every number below every text, and no
      comparison with NULL is true. */
  predicate Satisfies(x: int, op: Op, arg: Arg) {
    match arg
    case NullArg => false
    case TextArg => op.LT? || op.LE?
    case IntArg(v) =>
      (match op
       case EQ => x == v
       case GT => x > v
       case LE => x <= v
       case LT => x < v
       case GE => x >= v
       case Strange => false)
    case RealArg(r) =>
      (match op
       case EQ => x as real == r
       case GT => x as real > r
       case LE => x as real <= r
       case LT => (x as real) < r
       case GE => x as real >= r
       case Strange => false)
  }

  /** What the comparisons mean: `<` by difference, the others by each other; a double that is a whole number compares
      like the integer. */
  lemma {:induction false} Comparisons(x: int, v: int64, arg: Arg)
    ensures Satisfies(x, LT, IntArg(v)) <==> v - x >= 1
    ensures !arg.NullArg? ==>
              && (Satisfies(x, GE, arg) <==> !Satisfies(x, LT, arg))
              && (Satisfies(x, GT, arg) <==> !Satisfies(x, LE, arg))
              && (Satisfies(x, EQ, arg) <==> Satisfies(x, GE, arg) && Satisfies(x, LE, arg))
    ensures Satisfies(x, GT, IntArg(v)) <==> x - v >= 1
    ensures forall op: Op :: Satisfies(x, op, RealArg(v as real)) <==> Satisfies(x, op, IntArg(v))
    ensures forall op: Op :: !Satisfies(x, op, NullArg)
    ensures Satisfies(x, LT, TextArg) && Satisfies(x, LE, TextArg)
  {
  }

  /** The cursor may visit a row with value or rowid `x`. */
  predicate Lets(b: Bounds, x: int) {
    b.mode >= 0 && Admits(b, x)
  }

  /** Strict bounds at the extremes of the 64-bit range are not tightened. */
  predicate Tight(op: Op, arg: Arg) {
    && !(op.GT? && arg == IntArg(LARGEST))
    && !(op.LT? && (arg == IntArg(SMALLEST) || arg == RealArg(-TWO63_REAL)))
  }

  lemma {:induction false} CeilFloor(x: int, r: real)
    ensures x as real <= r <==> x <= r.Floor
    ensures x as real >= r <==> x >= Ceil(r)
    ensures r.Floor as real == r <==> Ceil(r) as real == r
    ensures r.Floor as real == r <==> Truncate(r) as real == r
  {
    FloorBound(x, r);
    FloorBound(-x, -r);
    WholeNumber(r);
  }

  lemma {:induction false} FloorBound(x: int, r: real)
    ensures x as real <= r <==> x <= r.Floor
    ensures (-x) as real == -(x as real)
  {
  }

  lemma {:induction false} WholeNumber(r: real)
    ensures r.Floor as real == r <==> Ceil(r) as real == r
  {
    if r.Floor as real == r {
      assert (-r).Floor == -(r.Floor);
    }
  }

  /** The one value that slips through such a bound, although it does not meet it. */
  predicate Slips(op: Op, arg: Arg, x: int) {
    !Tight(op, arg) && x == if op.GT? then LARGEST else SMALLEST
  }

  /** A constraint lets through, from the rows let through before, those it should, and the one that slips through. */
  lemma {:induction false} ConstrainMeaning(b: Bounds, op: Op, arg: Arg, x: int64)
    requires !op.Strange? && IsArg(arg)
    ensures Lets(Constrain(OpBit(op), arg, b), x) <==> Lets(b, x) && (Satisfies(x, op, arg) || Slips(op, arg, x))
    ensures Slips(op, arg, x) ==> !Satisfies(x, op, arg)
  {
    if arg.RealArg? {
      RealMeaning(b, op, arg.r, x);
    }
  }

  lemma {:induction false} RealMeaning(b: Bounds, op: Op, r: real, x: int64)
    requires !op.Strange? && IsArg(RealArg(r))
    ensures Lets(Constrain(OpBit(op), RealArg(r), b), x)
            <==> Lets(b, x) && (Satisfies(x, op, RealArg(r)) || Slips(op, RealArg(r), x))
    ensures Slips(op, RealArg(r), x) ==> !Satisfies(x, op, RealArg(r))
  {
    CeilFloor(x, r);
    assert TWO63_REAL == TWO63 as real;
  }

  /** On a cursor without bounds, the constraint is turned into bounds faithfully exactly if it is tight. */
  lemma {:induction false} FaithfulIffTight(mode: nat, op: Op, arg: Arg)
    requires !op.Strange? && IsArg(arg)
    ensures (forall x: int64 :: Lets(Constrain(OpBit(op), arg, Bounds(mode, false, 0, false, 0)), x)
                                <==> Satisfies(x, op, arg))
            <==> Tight(op, arg)
  {
    var open := Bounds(mode, false, 0, false, 0);
    if Tight(op, arg) {
      forall x: int64
        ensures Lets(Constrain(OpBit(op), arg, open), x) <==> Satisfies(x, op, arg)
      {
        ConstrainMeaning(open, op, arg, x);
      }
    } else {
      var x: int64 := if op.GT? then LARGEST else SMALLEST;
      assert TWO63_REAL == TWO63 as real;
      assert Lets(Constrain(OpBit(op), arg, open), x) && !Satisfies(x, op, arg);
    }
  }
}
