/** The planner of the INTARRAY virtual table, and the proof that planning keeps the meaning of the WHERE clause. */
module IntArrayPlan {
  import opened Memory
  import opened IntArrayBounds
  import opened IntArraySearch

  /** A constraint of the WHERE clause on the table's rowid or on its value column. */
  datatype Constraint = Constraint(rowid: bool, op: Op, usable: bool)

  /** What the planner tells SQLite about a constraint: the argument it becomes, counted from 1, and whether SQLite need
      not test it again. */
  datatype Usage = Usage(argvIndex: nat, omit: bool)

  const UNUSED: Usage := Usage(0, false)

  predicate Picked(c: Constraint, rowid: bool) {
    c.usable && c.rowid == rowid
  }

  /** The usable constraints on rowid or value among the first `k`. */
  function Picks(cs: seq<Constraint>, rowid: bool, k: nat): (p: seq<nat>)
    requires k <= |cs|
    ensures forall j :: 0 <= j < |p| ==> p[j] < k && Picked(cs[p[j]], rowid)
    ensures forall i, j :: 0 <= i < j < |p| ==> p[i] < p[j]
  {
    if k == 0 then []
    else Picks(cs, rowid, k - 1) + if Picked(cs[k - 1], rowid) then [k - 1] else []
  }

  predicate HasStrange(cs: seq<Constraint>, k: nat)
    requires k <= |cs|
  {
    exists i :: 0 <= i < k && cs[i].usable && cs[i].op.Strange?
  }

  /** Both lower bounds or both upper bounds. */
  predicate SameSide(op1: nat, op2: nat) {
    (HasLower(op1) && HasLower(op2)) || (HasUpper(op1) && HasUpper(op2))
  }

  lemma {:induction false} NoneYet(cs: seq<Constraint>)
    ensures Picks(cs, true, 0) == [] && Picks(cs, false, 0) == [] && !HasStrange(cs, 0)
  {
  }

  lemma {:induction false} OneMore(cs: seq<Constraint>, i: nat)
    requires i < |cs|
    ensures Picks(cs, true, i + 1)
         == if cs[i].usable && cs[i].rowid then Picks(cs, true, i) + [i] else Picks(cs, true, i)
    ensures Picks(cs, false, i + 1)
         == if cs[i].usable && !cs[i].rowid then Picks(cs, false, i) + [i] else Picks(cs, false, i)
    ensures HasStrange(cs, i + 1) <==> HasStrange(cs, i) || (cs[i].usable && cs[i].op.Strange?)
  {
  }

  datatype Plan = Plan(idxNum: nat, usage: seq<Usage>)

  function PlanFor(cs: seq<Constraint>, mode: nat, p: seq<nat>): (plan: Plan)
    requires |p| > 0 && forall j :: 0 <= j < |p| ==> p[j] < |cs|
    ensures |plan.usage| == |cs| && (mode < 4 ==> plan.idxNum % 4 == mode)
  {
    var none := seq(|cs|, _ => UNUSED);
    var op1 := OpBit(cs[p[0]].op);
    if |p| > 1 && !SameSide(op1, OpBit(cs[p[1]].op)) then
      Plan(mode + 4 * op1 + 32 * OpBit(cs[p[1]].op), none[p[0] := Usage(1, true)][p[1] := Usage(2, true)])
    else Plan(mode + 4 * op1, none[p[0] := Usage(1, true)])
  }

  function BestPlan(cs: seq<Constraint>): (plan: Plan)
    ensures |plan.usage| == |cs| && plan.idxNum % 4 <= VALUE
  {
    if !HasStrange(cs, |cs|) && Picks(cs, true, |cs|) != [] then PlanFor(cs, ROWID, Picks(cs, true, |cs|))
    else if !HasStrange(cs, |cs|) && Picks(cs, false, |cs|) != [] then PlanFor(cs, VALUE, Picks(cs, false, |cs|))
    else Plan(SCAN, seq(|cs|, _ => UNUSED))
  }

  // ---- which plan is chosen ----

  /** The first usable constraint on rowid or value. */
  predicate IsFirst(cs: seq<Constraint>, rowid: bool, i: nat) {
    && i < |cs| && cs[i].usable && cs[i].rowid == rowid
    && forall j :: 0 <= j < i ==> !(cs[j].usable && cs[j].rowid == rowid)
  }

  /** The second one, behind the first at `i`. */
  predicate IsSecond(cs: seq<Constraint>, rowid: bool, i: nat, j: nat) {
    && i < j < |cs| && cs[j].usable && cs[j].rowid == rowid
    && forall k :: i < k < j ==> !(cs[k].usable && cs[k].rowid == rowid)
  }

  /** Both operators bound from below, or both from above. */
  predicate BoundsSameSide(o: Op, p: Op) {
    ((o.GT? || o.GE?) && (p.GT? || p.GE?)) || ((o.LT? || o.LE?) && (p.LT? || p.LE?))
  }

  /** The first usable constraint on the column is argument 1, the second, unless it bounds the same side, argument 2;
      SQLite need not test these two. The index number has the mode and the bits of their operators. */
  ghost predicate SearchesBy(cs: seq<Constraint>, rowid: bool, mode: nat, plan: Plan) {
    && |plan.usage| == |cs|
    && exists i: nat :: IsFirst(cs, rowid, i) && plan.usage[i] == Usage(1, true) && UsesSecond(cs, rowid, i, mode, plan)
  }

  ghost predicate UsesSecond(cs: seq<Constraint>, rowid: bool, i: nat, mode: nat, plan: Plan)
    requires i < |cs| == |plan.usage|
  {
    || (exists j: nat ::
          && IsSecond(cs, rowid, i, j) && !BoundsSameSide(cs[i].op, cs[j].op) && plan.usage[j] == Usage(2, true)
          && plan.idxNum == mode + 4 * OpBit(cs[i].op) + 32 * OpBit(cs[j].op)
          && forall k :: 0 <= k < |cs| && k != i && k != j ==> plan.usage[k] == Usage(0, false))
    || (&& (forall j: nat :: IsSecond(cs, rowid, i, j) ==> BoundsSameSide(cs[i].op, cs[j].op))
        && plan.idxNum == mode + 4 * OpBit(cs[i].op)
        && forall k :: 0 <= k < |cs| && k != i ==> plan.usage[k] == Usage(0, false))
  }

  /** A usable constraint with a strange operator, or no usable constraint, makes a full scan; else the rowid is
      searched by if a usable constraint is on it, and only otherwise the value. */
  ghost predicate ChoosesWell(cs: seq<Constraint>, plan: Plan) {
    if (exists i :: 0 <= i < |cs| && cs[i].usable && cs[i].op.Strange?) || (forall i :: 0 <= i < |cs| ==> !cs[i].usable)
    then plan.idxNum == 0 && plan.usage == seq(|cs|, _ => Usage(0, false))
    else if exists i :: 0 <= i < |cs| && cs[i].usable && cs[i].rowid then SearchesBy(cs, true, 1, plan)
    else SearchesBy(cs, false, 2, plan)
  }

  lemma {:induction false} OpBits(o: Op, p: Op)
    ensures OpBit(EQ) == 2 && OpBit(GT) == 4 && OpBit(GE) == 6 && OpBit(LT) == 1 && OpBit(LE) == 3
    ensures SameSide(OpBit(o), OpBit(p)) <==> BoundsSameSide(o, p)
  {
  }

  /** Every usable constraint on the column is among the picks. */
  lemma {:induction false} PicksAll(cs: seq<Constraint>, rowid: bool, k: nat, i: nat)
    requires i < k <= |cs| && Picked(cs[i], rowid)
    ensures i in Picks(cs, rowid, k)
  {
    if i < k - 1 {
      PicksAll(cs, rowid, k - 1, i);
    }
  }

  lemma {:induction false} PicksFirst(cs: seq<Constraint>, rowid: bool)
    ensures var p := Picks(cs, rowid, |cs|);
            && (p == [] <==> forall i :: 0 <= i < |cs| ==> !(cs[i].usable && cs[i].rowid == rowid))
            && (p != [] ==> IsFirst(cs, rowid, p[0]))
            && (|p| > 1 ==> IsSecond(cs, rowid, p[0], p[1]))
            && (|p| > 0 ==> forall j: nat :: IsSecond(cs, rowid, p[0], j) ==> |p| > 1 && j == p[1])
  {
    hide Picks;
    var p := Picks(cs, rowid, |cs|);
    forall i: nat | i < |cs| && cs[i].usable && cs[i].rowid == rowid
      ensures i in p
    {
      PicksAll(cs, rowid, |cs|, i);
    }
    if |p| > 0 {
      forall j: nat | IsSecond(cs, rowid, p[0], j)
        ensures |p| > 1 && j == p[1]
      {
        var k :| 0 <= k < |p| && p[k] == j;
        assert k > 0;
        assert p[1] <= j;
      }
    }
  }

  lemma {:induction false} PlanForSearches(cs: seq<Constraint>, rowid: bool, mode: nat)
    requires Picks(cs, rowid, |cs|) != []
    ensures SearchesBy(cs, rowid, mode, PlanFor(cs, mode, Picks(cs, rowid, |cs|)))
  {
    PicksFirst(cs, rowid);
    hide Picks, IsFirst, IsSecond, OpBit, SameSide, BoundsSameSide;
    var p := Picks(cs, rowid, |cs|);
    if |p| > 1 {
      OpBits(cs[p[0]].op, cs[p[1]].op);
    }
    assert UsesSecond(cs, rowid, p[0], mode, PlanFor(cs, mode, p));
  }

  lemma {:induction false} BestPlanChoosesWell(cs: seq<Constraint>)
    ensures ChoosesWell(cs, BestPlan(cs))
  {
    hide Picks, PlanFor, SearchesBy;
    PicksFirst(cs, true);
    PicksFirst(cs, false);
    if !HasStrange(cs, |cs|) && Picks(cs, true, |cs|) != [] {
      PlanForSearches(cs, true, ROWID);
      var i := Picks(cs, true, |cs|)[0];
      assert cs[i].usable && cs[i].rowid;
    } else if !HasStrange(cs, |cs|) && Picks(cs, false, |cs|) != [] {
      PlanForSearches(cs, false, VALUE);
      assert cs[Picks(cs, false, |cs|)[0]].usable;
    }
  }

  /** sqlite3_index_info. */
  class IndexInfo {
    const constraints: seq<Constraint>
    var usage: seq<Usage>
    var idxNum: nat

    constructor (constraints: seq<Constraint>)
      ensures this.constraints == constraints && usage == seq(|constraints|, _ => UNUSED)
    {
      this.constraints := constraints;
      usage, idxNum := seq(|constraints|, _ => UNUSED), 0;
    }

    method C2opbits(ix0: nat, ix1: int) returns (r: nat)
      requires ix0 < |constraints| == |usage| && ix1 < |constraints|
      modifies this`usage
      ensures var op1 := OpBit(constraints[ix0].op);
              if ix1 >= 0 && !SameSide(op1, OpBit(constraints[ix1].op))
              then && r == 4 * op1 + 32 * OpBit(constraints[ix1].op)
                   && usage == old(usage)[ix0 := Usage(1, true)][ix1 := Usage(2, true)]
              else r == 4 * op1 && usage == old(usage)[ix0 := Usage(1, true)]
    {
      usage := usage[ix0 := Usage(1, true)];
      var op1bits := OpBit(constraints[ix0].op);
      r := op1bits * 4;
      if ix1 >= 0 {
        var op2bits := OpBit(constraints[ix1].op);
        if SameSide(op2bits, op1bits) {
          // both lower or both upper: SQLite keeps testing the second one
        } else {
          usage := usage[ix1 := Usage(2, true)];
          r := r + op2bits * 32;
        }
      }
    }

    /** The loop over the constraints: the first two usable ones on the rowid and on the value. */
    method Classify() returns (strange: bool, ix: seq<int>)
      ensures strange <==> HasStrange(constraints, |constraints|)
      ensures |ix| == 4
      ensures !strange ==> FirstTwo(Picks(constraints, true, |constraints|), ix[0], ix[1])
                           && FirstTwo(Picks(constraints, false, |constraints|), ix[2], ix[3])
    {
      var n := |constraints|;
      var rcount, vcount := 0, 0;
      ix := [-1, -1, -1, -1];
      var i := 0;
      hide Entered, HasStrange, Picks, FirstTwo;
      NoneEntered(constraints);
      while i < n
        invariant 0 <= i <= n && |ix| == 4 && Entered(constraints, i, ix, rcount, vcount)
      {
        if constraints[i].usable && constraints[i].op.Strange? {
          IsStrange(constraints, i);
          return true, ix;
        }
        ix, rcount, vcount := EnterOne(i, ix, rcount, vcount);
        i := i + 1;
      }
      AllEntered(constraints, ix, rcount, vcount);
      return false, ix;
    }

    /** A usable constraint is entered with the others on its column. */
    method EnterOne(i: nat, ix0: seq<int>, rcount0: nat, vcount0: nat)
      returns (ix: seq<int>, rcount: nat, vcount: nat)
      requires i < |constraints| && |ix0| == 4 && Entered(constraints, i, ix0, rcount0, vcount0)
      requires !(constraints[i].usable && constraints[i].op.Strange?)
      ensures |ix| == 4 && Entered(constraints, i + 1, ix, rcount, vcount)
    {
      hide Entered;
      ix, rcount, vcount := ix0, rcount0, vcount0;
      if !constraints[i].usable {
        UnusableEntered(constraints, i, ix, rcount, vcount);
      } else if constraints[i].rowid {
        RowidEntered(constraints, i, ix, rcount, vcount);
        ix, rcount := Enter(ix, 0, rcount, i);
      } else {
        ValueEntered(constraints, i, ix, rcount, vcount);
        ix, vcount := Enter(ix, 2, vcount, i);
      }
    }

    /** Only the first two constraints on a column are entered; all are counted. */
    static method Enter(ix0: seq<int>, base: nat, count0: nat, i: nat) returns (ix: seq<int>, count: nat)
      requires |ix0| == 4 && base <= 2
      ensures ix == if count0 < 2 then ix0[base + count0 := i] else ix0
      ensures count == count0 + 1
    {
      ix := ix0;
      if count0 < 2 {
        ix := ix[base + count0 := i];
      }
      count := count0 + 1;
    }

    method BestIndex()
      requires usage == seq(|constraints|, _ => UNUSED)
      modifies this`usage, this`idxNum
      ensures Plan(idxNum, usage) == BestPlan(constraints)
      ensures ChoosesWell(constraints, Plan(idxNum, usage))
    {
      hide Picks, SameSide, OpBit, ChoosesWell;
      BestPlanChoosesWell(constraints);
      var strange, ix := Classify();
      if strange {
        idxNum := 0;
        return;
      }
      var mode := 0;
      if ix[0] >= 0 {
        var bits := C2opbits(ix[0], ix[1]);
        mode := 1 + bits;
      } else if ix[2] >= 0 {
        var bits := C2opbits(ix[2], ix[3]);
        mode := 2 + bits;
      }
      idxNum := mode;
    }
  }

  /** The first two of `p`, -1 for one that is not there. */
  predicate FirstTwo(p: seq<nat>, i: int, j: int) {
    && i == (if |p| > 0 then p[0] else -1)
    && j == (if |p| > 1 then p[1] else -1)
  }

  /** After `i` constraints, none of them strange, the first two usable ones on rowid and on value are entered and all
      usable ones are counted. */
  ghost predicate Entered(cs: seq<Constraint>, i: nat, ix: seq<int>, rcount: nat, vcount: nat)
    requires i <= |cs| && |ix| == 4
  {
    && rcount == |Picks(cs, true, i)| && FirstTwo(Picks(cs, true, i), ix[0], ix[1])
    && vcount == |Picks(cs, false, i)| && FirstTwo(Picks(cs, false, i), ix[2], ix[3])
    && !HasStrange(cs, i)
  }

  lemma {:induction false} NoneEntered(cs: seq<Constraint>)
    ensures Entered(cs, 0, [-1, -1, -1, -1], 0, 0)
  {
    NoneYet(cs);
  }

  lemma {:induction false} IsStrange(cs: seq<Constraint>, i: nat)
    requires i < |cs| && cs[i].usable && cs[i].op.Strange?
    ensures HasStrange(cs, |cs|)
  {
  }

  lemma {:induction false} UnusableEntered(cs: seq<Constraint>, i: nat, ix: seq<int>, rcount: nat, vcount: nat)
    requires i < |cs| && |ix| == 4 && Entered(cs, i, ix, rcount, vcount) && !cs[i].usable
    ensures Entered(cs, i + 1, ix, rcount, vcount)
  {
    hide Picks, HasStrange;
    OneMore(cs, i);
  }

  lemma {:induction false} RowidEntered(cs: seq<Constraint>, i: nat, ix: seq<int>, rcount: nat, vcount: nat)
    requires i < |cs| && |ix| == 4 && Entered(cs, i, ix, rcount, vcount)
    requires cs[i].usable && !cs[i].op.Strange? && cs[i].rowid
    ensures Entered(cs, i + 1, if rcount < 2 then ix[rcount := i] else ix, rcount + 1, vcount)
  {
    hide Picks, HasStrange;
    OneMore(cs, i);
  }

  lemma {:induction false} ValueEntered(cs: seq<Constraint>, i: nat, ix: seq<int>, rcount: nat, vcount: nat)
    requires i < |cs| && |ix| == 4 && Entered(cs, i, ix, rcount, vcount)
    requires cs[i].usable && !cs[i].op.Strange? && !cs[i].rowid
    ensures Entered(cs, i + 1, if vcount < 2 then ix[2 + vcount := i] else ix, rcount, vcount + 1)
  {
    hide Picks, HasStrange;
    OneMore(cs, i);
  }

  lemma {:induction false} AllEntered(cs: seq<Constraint>, ix: seq<int>, rcount: nat, vcount: nat)
    requires |ix| == 4 && Entered(cs, |cs|, ix, rcount, vcount)
    ensures !HasStrange(cs, |cs|)
    ensures FirstTwo(Picks(cs, true, |cs|), ix[0], ix[1]) && FirstTwo(Picks(cs, false, |cs|), ix[2], ix[3])
  {
  }

  // ---- what the plan means ----

  /** Whether row `k` meets constraint `i`. Nothing is known about the operators the module does not search by. */
  ghost predicate TruthOf(arr: IntArray, cs: seq<Constraint>, args: seq<Arg>, truth: (nat, nat) -> bool) {
    && |args| == |cs|
    && forall i: nat, k: nat :: i < |cs| && !cs[i].op.Strange? && k < |arr.a| ==>
         (truth(i, k) <==> Satisfies(Key(arr, cs[i].rowid, k), cs[i].op, args[i]))
  }

  function Key(arr: IntArray, rowid: bool, k: nat): int
    requires k < |arr.a|
  {
    if rowid then k else arr.a[k]
  }

  /** Row `k` meets every usable constraint. */
  predicate MeetsAll(cs: seq<Constraint>, truth: (nat, nat) -> bool, k: nat) {
    forall i :: 0 <= i < |cs| && cs[i].usable ==> truth(i, k)
  }

  /** Row `k` meets the usable constraints that SQLite tests itself. */
  predicate MeetsRest(cs: seq<Constraint>, usage: seq<Usage>, truth: (nat, nat) -> bool, k: nat)
    requires |usage| == |cs|
  {
    forall i :: 0 <= i < |cs| && cs[i].usable && !usage[i].omit ==> truth(i, k)
  }

  predicate Passed(usage: seq<Usage>, k: nat) {
    exists i :: 0 <= i < |usage| && usage[i].argvIndex == k
  }

  /** SQLite passes the argument of each used constraint at its place. */
  ghost predicate ArgvOf(usage: seq<Usage>, args: seq<Arg>, argv: seq<Arg>) {
    && |usage| == |args|
    && (forall i :: 0 <= i < |args| && usage[i].argvIndex > 0 ==>
          usage[i].argvIndex <= |argv| && argv[usage[i].argvIndex - 1] == args[i])
    && (forall k :: 1 <= k <= |argv| ==> Passed(usage, k))
  }

  /** No constraint SQLite is told not to test is a strict bound at a 64-bit extreme. */
  predicate OmittedTight(cs: seq<Constraint>, usage: seq<Usage>, args: seq<Arg>)
    requires |usage| == |cs| == |args|
  {
    forall i :: 0 <= i < |cs| && usage[i].omit ==> Tight(cs[i].op, args[i])
  }

  /** Row `k` holds the one value that slips through a bound SQLite is told not to test. */
  predicate SlipsThrough(arr: IntArray, cs: seq<Constraint>, usage: seq<Usage>, args: seq<Arg>, k: nat)
    requires |usage| == |cs| == |args| && k < |arr.a|
  {
    exists i :: 0 <= i < |cs| && usage[i].omit && Slips(cs[i].op, args[i], Key(arr, cs[i].rowid, k))
  }

  lemma {:induction false} TightLetsNoneSlip(arr: IntArray, cs: seq<Constraint>, usage: seq<Usage>, args: seq<Arg>,
                                             k: nat)
    requires |usage| == |cs| == |args| && k < |arr.a| && OmittedTight(cs, usage, args)
    ensures !SlipsThrough(arr, cs, usage, args, k)
  {
  }

  lemma {:induction false} ArgvLength(usage: seq<Usage>, args: seq<Arg>, argv: seq<Arg>, n: nat)
    requires ArgvOf(usage, args, argv)
    requires forall i :: 0 <= i < |usage| ==> usage[i].argvIndex <= n
    requires n > 0 ==> Passed(usage, n)
    ensures |argv| == n
  {
    if |argv| > 0 {
      assert Passed(usage, |argv|);
    }
  }

  /** The index number carries both operators and the mode. */
  lemma {:induction false} IndexNumber(mode: nat, op1: nat, op2: nat)
    requires mode < 4 && op1 < 8 && op2 < 8
    ensures var r := mode + 4 * op1 + 32 * op2; r % 4 == mode && (r / 4) % 8 == op1 && (r / 32) % 8 == op2
  {
  }

  /** The bounds of a search by one constraint, or by two on different sides. */
  function PlanBounds(cs: seq<Constraint>, mode: nat, p: seq<nat>, args: seq<Arg>): Bounds
    requires |p| > 0 && |args| == |cs| && forall j :: 0 <= j < |p| ==> p[j] < |cs| && IsArg(args[p[j]])
  {
    var b1 := Constrain(OpBit(cs[p[0]].op), args[p[0]], Bounds(mode, false, 0, false, 0));
    if |p| > 1 && !SameSide(OpBit(cs[p[0]].op), OpBit(cs[p[1]].op)) && b1.mode > 0
    then Constrain(OpBit(cs[p[1]].op), args[p[1]], b1) else b1
  }

  /** What xFilter computes from the index number and the passed arguments. */
  lemma {:induction false} BoundsOfPlan(cs: seq<Constraint>, mode: nat, p: seq<nat>, args: seq<Arg>, argv: seq<Arg>)
    requires mode == ROWID || mode == VALUE
    requires |args| == |cs| && forall i :: 0 <= i < |args| ==> IsArg(args[i])
    requires |p| > 0 && (forall j :: 0 <= j < |p| ==> p[j] < |cs| && !cs[p[j]].op.Strange?) && (|p| > 1 ==> p[0] < p[1])
    requires ArgvOf(PlanFor(cs, mode, p).usage, args, argv)
    ensures forall j :: 0 <= j < |argv| ==> IsArg(argv[j])
    ensures FilterBounds(PlanFor(cs, mode, p).idxNum, argv) == PlanBounds(cs, mode, p, args)
  {
    hide Constrain, SameSide, IsArg;
    var usage := PlanFor(cs, mode, p).usage;
    var op1 := OpBit(cs[p[0]].op);
    assert usage[p[0]].argvIndex == 1;
    if |p| > 1 && !SameSide(op1, OpBit(cs[p[1]].op)) {
      assert usage[p[1]].argvIndex == 2;
      ArgvLength(usage, args, argv, 2);
      IndexNumber(mode, op1, OpBit(cs[p[1]].op));
    } else {
      ArgvLength(usage, args, argv, 1);
      IndexNumber(mode, op1, 0);
    }
  }

  predicate Passes(x: int, op: Op, arg: Arg) {
    Satisfies(x, op, arg) || Slips(op, arg, x)
  }

  /** These bounds let through exactly what the used constraints ask for, and what slips through them. */
  lemma {:induction false} PlanBoundsMeaning(cs: seq<Constraint>, mode: nat, p: seq<nat>, args: seq<Arg>, x: int64)
    requires |p| > 0 && |args| == |cs| && mode > 0
    requires forall j :: 0 <= j < |p| ==> p[j] < |cs| && IsArg(args[p[j]]) && !cs[p[j]].op.Strange?
    ensures Lets(PlanBounds(cs, mode, p, args), x) <==>
              && Passes(x, cs[p[0]].op, args[p[0]])
              && (|p| > 1 && !SameSide(OpBit(cs[p[0]].op), OpBit(cs[p[1]].op)) ==>
                    Passes(x, cs[p[1]].op, args[p[1]]))
  {
    hide Constrain, Satisfies, Slips, IsArg, SameSide, OpBit;
    var b0 := Bounds(mode, false, 0, false, 0);
    ConstrainMeaning(b0, cs[p[0]].op, args[p[0]], x);
    var b1 := Constrain(OpBit(cs[p[0]].op), args[p[0]], b0);
    ModeKept(OpBit(cs[p[0]].op), args[p[0]], b0);
    if |p| > 1 && !SameSide(OpBit(cs[p[0]].op), OpBit(cs[p[1]].op)) {
      ConstrainMeaning(b1, cs[p[1]].op, args[p[1]], x);
    }
  }

  lemma {:induction false} ModeKept(op: nat, arg: Arg, b: Bounds)
    requires IsArg(arg)
    ensures Constrain(op, arg, b).mode == b.mode || Constrain(op, arg, b).mode == ZEROSET
  {
  }

  /** Row by row: what the bounds let through and SQLite's own tests accept is what the WHERE clause asks for, and the
      rows that slip through a bound. */
  lemma {:induction false} PlanRow(arr: IntArray, cs: seq<Constraint>, mode: nat, p: seq<nat>, args: seq<Arg>,
                                   truth: (nat, nat) -> bool, k: nat)
    requires mode == ROWID || mode == VALUE
    requires |p| > 0 && p == Picks(cs, mode == ROWID, |cs|) && !HasStrange(cs, |cs|)
    requires TruthOf(arr, cs, args, truth) && (forall i :: 0 <= i < |args| ==> IsArg(args[i]))
    requires k < |arr.a| < TWO63
    ensures var usage := PlanFor(cs, mode, p).usage;
            MeetsAll(cs, truth, k) <==>
              && WantsRow(arr, PlanBounds(cs, mode, p, args), k) && MeetsRest(cs, usage, truth, k)
              && !SlipsThrough(arr, cs, usage, args, k)
  {
    hide Constrain, Satisfies, Slips, IsArg, OpBit, PlanFor, MeetsAll, MeetsRest, PlanBounds, Lets, WantsRow,
         SlipsThrough;
    var x: int64 := Key(arr, mode == ROWID, k);
    SlipsIsSlips(cs, mode, p, args, arr, k);
    UsedAreOmitted(cs, mode, p, truth, k);
    assert forall j :: 0 <= j < |p| ==> !cs[p[j]].op.Strange?;
    PlanBoundsMeaning(cs, mode, p, args, x);
    WantsIsLets(arr, cs, mode, p, args, k);
    assert truth(p[0], k) <==> Satisfies(x, cs[p[0]].op, args[p[0]]);
    assert |p| > 1 ==> (truth(p[1], k) <==> Satisfies(x, cs[p[1]].op, args[p[1]]));
    SlipsFails(cs[p[0]].op, args[p[0]], x);
    if |p| > 1 {
      SlipsFails(cs[p[1]].op, args[p[1]], x);
    }
  }

  lemma {:induction false} SlipsFails(op: Op, arg: Arg, x: int)
    ensures Slips(op, arg, x) ==> !Satisfies(x, op, arg)
  {
    assert TWO63_REAL == TWO63 as real;
  }

  /** Only the constraints used can let a row slip through. */
  lemma {:induction false} SlipsIsSlips(cs: seq<Constraint>, mode: nat, p: seq<nat>, args: seq<Arg>, arr: IntArray,
                                        k: nat)
    requires |p| > 0 && p == Picks(cs, mode == ROWID, |cs|) && |args| == |cs| && k < |arr.a|
    ensures var two := |p| > 1 && !SameSide(OpBit(cs[p[0]].op), OpBit(cs[p[1]].op));
            var x := Key(arr, mode == ROWID, k);
            SlipsThrough(arr, cs, PlanFor(cs, mode, p).usage, args, k)
            <==> Slips(cs[p[0]].op, args[p[0]], x) || (two && Slips(cs[p[1]].op, args[p[1]], x))
  {
    hide OpBit, SameSide, Slips;
    var usage := PlanFor(cs, mode, p).usage;
    var x := Key(arr, mode == ROWID, k);
    assert usage[p[0]].omit && Key(arr, cs[p[0]].rowid, k) == x;
    if |p| > 1 {
      assert Key(arr, cs[p[1]].rowid, k) == x;
    }
  }

  /** The constraints used are those SQLite need not test. */
  lemma {:induction false} UsedAreOmitted(cs: seq<Constraint>, mode: nat, p: seq<nat>, truth: (nat, nat) -> bool,
                                          k: nat)
    requires |p| > 0 && p == Picks(cs, mode == ROWID, |cs|)
    ensures var two := |p| > 1 && !SameSide(OpBit(cs[p[0]].op), OpBit(cs[p[1]].op));
            && PlanFor(cs, mode, p).usage[p[0]].omit && (two ==> PlanFor(cs, mode, p).usage[p[1]].omit)
            && (MeetsAll(cs, truth, k) <==>
                  MeetsRest(cs, PlanFor(cs, mode, p).usage, truth, k) && truth(p[0], k) && (two ==> truth(p[1], k)))
  {
    hide OpBit, SameSide;
  }

  lemma {:induction false} WantsIsLets(arr: IntArray, cs: seq<Constraint>, mode: nat, p: seq<nat>, args: seq<Arg>,
                                       k: nat)
    requires mode == ROWID || mode == VALUE
    requires |p| > 0 && |args| == |cs| && forall j :: 0 <= j < |p| ==> p[j] < |cs| && IsArg(args[p[j]])
    requires k < |arr.a|
    ensures WantsRow(arr, PlanBounds(cs, mode, p, args), k)
            <==> Lets(PlanBounds(cs, mode, p, args), Key(arr, mode == ROWID, k))
  {
    hide Constrain, IsArg, OpBit, SameSide;
    var b0 := Bounds(mode, false, 0, false, 0);
    ModeKept(OpBit(cs[p[0]].op), args[p[0]], b0);
    if |p| > 1 {
      ModeKept(OpBit(cs[p[1]].op), args[p[1]], Constrain(OpBit(cs[p[0]].op), args[p[0]], b0));
    }
  }

  // ---- the whole query ----

  function AllTest(cs: seq<Constraint>, truth: (nat, nat) -> bool): nat -> bool {
    (k: nat) => MeetsAll(cs, truth, k)
  }

  function RestTest(cs: seq<Constraint>, usage: seq<Usage>, truth: (nat, nat) -> bool): nat -> bool
    requires |usage| == |cs|
  {
    (k: nat) => MeetsRest(cs, usage, truth, k)
  }

  /** The rows that pass SQLite's own tests. */
  function Keep(rows: seq<nat>, p: nat -> bool): seq<nat> {
    if rows == [] then []
    else Keep(rows[..|rows| - 1], p) + if p(rows[|rows| - 1]) then [rows[|rows| - 1]] else []
  }

  lemma {:induction false} KeepFront(k: nat, rows: seq<nat>, p: nat -> bool)
    ensures Keep([k] + rows, p) == (if p(k) then [k] else []) + Keep(rows, p)
  {
    if rows == [] {
      assert [k] + rows == [k] && [k][..0] == [];
    } else {
      var n := |rows| - 1;
      KeepFront(k, rows[..n], p);
      assert ([k] + rows)[..n + 1] == [k] + rows[..n];
    }
  }

  lemma {:induction false} KeepSelected(n: nat, p: nat -> bool, q: nat -> bool, both: nat -> bool, from: nat)
    requires forall k :: from <= k < n ==> (both(k) <==> p(k) && q(k))
    ensures Keep(Select(n, p, from), q) == Select(n, both, from)
    decreases if from < n then n - from else 0
  {
    if from < n {
      KeepSelected(n, p, q, both, from + 1);
      if p(from) {
        KeepFront(from, Select(n, p, from + 1), q);
      }
    }
  }

  /** Planning keeps the WHERE clause, row by row: a row meets every constraint exactly if it lies within the planned
      bounds, passes the tests left to SQLite and does not slip through a bound. */
  lemma {:induction false} PlanKeepsWhere(arr: IntArray, cs: seq<Constraint>, args: seq<Arg>, argv: seq<Arg>,
                                          truth: (nat, nat) -> bool)
    requires |arr.a| < TWO63 && TruthOf(arr, cs, args, truth) && forall i :: 0 <= i < |args| ==> IsArg(args[i])
    requires ArgvOf(BestPlan(cs).usage, args, argv)
    ensures forall j :: 0 <= j < |argv| ==> IsArg(argv[j])
    ensures BestPlan(cs).idxNum % 4 <= VALUE
    ensures WhereKept(arr, FilterBounds(BestPlan(cs).idxNum, argv), cs, BestPlan(cs).usage, args, truth)
  {
    hide FilterBounds, PlanFor, Satisfies, ArgvOf, Picks, HasStrange, IsArg, WhereKept;
    var rowids, values := Picks(cs, true, |cs|), Picks(cs, false, |cs|);
    if !HasStrange(cs, |cs|) && rowids != [] {
      PickedPlan(arr, cs, ROWID, rowids, args, argv, truth);
    } else if !HasStrange(cs, |cs|) && values != [] {
      PickedPlan(arr, cs, VALUE, values, args, argv, truth);
    } else {
      ScanPlan(arr, cs, args, argv, truth);
    }
  }

  ghost predicate WhereKept(arr: IntArray, b: Bounds, cs: seq<Constraint>, usage: seq<Usage>, args: seq<Arg>,
                            truth: (nat, nat) -> bool)
    requires |usage| == |cs| == |args|
  {
    forall k: nat :: k < |arr.a| ==>
      (MeetsAll(cs, truth, k) <==>
         WantsRow(arr, b, k) && MeetsRest(cs, usage, truth, k) && !SlipsThrough(arr, cs, usage, args, k))
  }

  lemma {:induction false} PickedPlan(arr: IntArray, cs: seq<Constraint>, mode: nat, p: seq<nat>, args: seq<Arg>,
                                      argv: seq<Arg>, truth: (nat, nat) -> bool)
    requires mode == ROWID || mode == VALUE
    requires |p| > 0 && p == Picks(cs, mode == ROWID, |cs|) && !HasStrange(cs, |cs|)
    requires |arr.a| < TWO63 && TruthOf(arr, cs, args, truth) && forall i :: 0 <= i < |args| ==> IsArg(args[i])
    requires ArgvOf(PlanFor(cs, mode, p).usage, args, argv)
    ensures forall j :: 0 <= j < |argv| ==> IsArg(argv[j])
    ensures PlanFor(cs, mode, p).idxNum % 4 == mode
    ensures WhereKept(arr, FilterBounds(PlanFor(cs, mode, p).idxNum, argv), cs, PlanFor(cs, mode, p).usage, args, truth)
  {
    PlannedBounds(cs, mode, p, args, argv);
    hide FilterBounds, PlanFor, PlanBounds, Satisfies, ArgvOf, TruthOf, Picks, HasStrange, MeetsAll, MeetsRest,
         WantsRow, SlipsThrough, IsArg, Picked;
    forall k: nat | k < |arr.a|
      ensures MeetsAll(cs, truth, k) <==>
                && WantsRow(arr, PlanBounds(cs, mode, p, args), k)
                && MeetsRest(cs, PlanFor(cs, mode, p).usage, truth, k)
                && !SlipsThrough(arr, cs, PlanFor(cs, mode, p).usage, args, k)
    {
      PlanRow(arr, cs, mode, p, args, truth, k);
    }
  }

  lemma {:induction false} PlannedBounds(cs: seq<Constraint>, mode: nat, p: seq<nat>, args: seq<Arg>, argv: seq<Arg>)
    requires mode == ROWID || mode == VALUE
    requires |p| > 0 && p == Picks(cs, mode == ROWID, |cs|) && !HasStrange(cs, |cs|)
    requires |args| == |cs| && forall i :: 0 <= i < |args| ==> IsArg(args[i])
    requires ArgvOf(PlanFor(cs, mode, p).usage, args, argv)
    ensures forall j :: 0 <= j < |argv| ==> IsArg(argv[j])
    ensures FilterBounds(PlanFor(cs, mode, p).idxNum, argv) == PlanBounds(cs, mode, p, args)
  {
    hide FilterBounds, PlanFor, PlanBounds, ArgvOf, IsArg;
    assert forall j :: 0 <= j < |p| ==> !cs[p[j]].op.Strange?;
    BoundsOfPlan(cs, mode, p, args, argv);
  }

  /** Without a plan no argument is passed, every row is visited and SQLite tests every constraint. */
  lemma {:induction false} ScanPlan(arr: IntArray, cs: seq<Constraint>, args: seq<Arg>, argv: seq<Arg>,
                                    truth: (nat, nat) -> bool)
    requires |args| == |cs| && ArgvOf(seq(|cs|, _ => UNUSED), args, argv)
    ensures argv == []
    ensures WhereKept(arr, FilterBounds(SCAN, argv), cs, seq(|cs|, _ => UNUSED), args, truth)
  {
    ArgvLength(seq(|cs|, _ => UNUSED), args, argv, 0);
  }

  /** The rows a query returns: those the cursor visits that pass SQLite's own tests. */
  function ReturnTest(arr: IntArray, b: Bounds, cs: seq<Constraint>, usage: seq<Usage>,
                      truth: (nat, nat) -> bool): nat -> bool
    requires |usage| == |cs|
  {
    (k: nat) => VisitsRow(arr, b, k) && MeetsRest(cs, usage, truth, k)
  }

  /** No row that passes the tests left to SQLite is returned, or left out, by mistake: none that is visited slips
      through a bound, and no other is misread by the scan. */
  predicate NoneMisjudged(arr: IntArray, b: Bounds, cs: seq<Constraint>, usage: seq<Usage>, args: seq<Arg>,
                          truth: (nat, nat) -> bool)
    requires |usage| == |cs| == |args|
  {
    forall k :: 0 <= k < |arr.a| && MeetsRest(cs, usage, truth, k) ==>
      if SlipsThrough(arr, cs, usage, args, k) then !VisitsRow(arr, b, k) else !Misread(arr, b, k)
  }

  /** The rows returned are those that meet the WHERE clause exactly if none is misjudged. */
  lemma {:induction false} RightIffNoneMisjudged(arr: IntArray, b: Bounds, cs: seq<Constraint>, usage: seq<Usage>,
                                                 args: seq<Arg>, truth: (nat, nat) -> bool)
    requires |usage| == |cs| == |args| && WhereKept(arr, b, cs, usage, args, truth)
    ensures Select(|arr.a|, ReturnTest(arr, b, cs, usage, truth), 0) == Select(|arr.a|, AllTest(cs, truth), 0)
            <==> NoneMisjudged(arr, b, cs, usage, args, truth)
  {
    hide VisitsRow, WantsRow, MeetsRest, MeetsAll, SlipsThrough, Misread, Select;
    SelectSame(|arr.a|, ReturnTest(arr, b, cs, usage, truth), AllTest(cs, truth), 0);
    forall k: nat | k < |arr.a|
      ensures (ReturnTest(arr, b, cs, usage, truth)(k) <==> AllTest(cs, truth)(k)) <==>
                (MeetsRest(cs, usage, truth, k) ==>
                   if SlipsThrough(arr, cs, usage, args, k) then !VisitsRow(arr, b, k) else !Misread(arr, b, k))
    {
      MisreadIff(arr, b, k);
    }
  }

  /** With an exact scan and tight bounds nothing is misjudged. */
  lemma {:induction false} ExactAndTight(arr: IntArray, b: Bounds, cs: seq<Constraint>, usage: seq<Usage>,
                                         args: seq<Arg>, truth: (nat, nat) -> bool)
    requires |usage| == |cs| == |args| && Honest(arr) && b.mode <= VALUE
    requires ScanExact(arr, b) && OmittedTight(cs, usage, args)
    ensures NoneMisjudged(arr, b, cs, usage, args, truth)
  {
    hide VisitsRow, WantsRow, MeetsRest, SlipsThrough, Misread, ScanExact, OmittedTight;
    ExactRows(arr, b);
    forall k: nat | k < |arr.a|
      ensures !SlipsThrough(arr, cs, usage, args, k) && !Misread(arr, b, k)
    {
      TightLetsNoneSlip(arr, cs, usage, args, k);
      MisreadIff(arr, b, k);
    }
  }

  const EXTREME: seq<Constraint> := [Constraint(false, GT, true)]

  lemma {:induction false} ExtremePlan()
    ensures BestPlan(EXTREME) == Plan(VALUE + 4 * LOWER, [Usage(1, true)])
  {
    assert Picks(EXTREME, true, 0) == [] && Picks(EXTREME, false, 0) == [];
    assert Picks(EXTREME, true, 1) == [] && Picks(EXTREME, false, 1) == [0];
  }

  /** `value > 9223372036854775807` on an array that holds this value: the row is returned and should not be. */
  lemma {:induction false} ExtremeReturned()
    ensures var arr, args := IntArray([LARGEST], false, false), [IntArg(LARGEST)];
            var none := (i: nat, k: nat) => false;
            var b, usage := FilterBounds(BestPlan(EXTREME).idxNum, args), BestPlan(EXTREME).usage;
            && Honest(arr) && TruthOf(arr, EXTREME, args, none) && ArgvOf(usage, args, args)
            && Select(1, ReturnTest(arr, b, EXTREME, usage, none), 0) == [0]
            && Select(1, AllTest(EXTREME, none), 0) == []
  {
    ExtremePlan();
    hide BestPlan;
    assert FilterBounds(VALUE + 4 * LOWER, [IntArg(LARGEST)]) == Bounds(VALUE, true, LARGEST, false, 0);
    hide FilterBounds;
    assert BestPlan(EXTREME).usage[0].argvIndex == 1;
  }

  /** xBestIndex, xFilter, xNext and SQLite's own tests together. The query returns the rows that the cursor visits and
      SQLite accepts, in ascending order. These are the rows that meet every usable constraint if and only if none is
      misjudged, so always when the scan is exact and no constraint taken over is a strict bound at an extreme. */
  method Query(arr: IntArray, cs: seq<Constraint>, args: seq<Arg>, argv: seq<Arg>, truth: (nat, nat) -> bool)
    returns (rows: seq<nat>)
    requires Honest(arr) && TruthOf(arr, cs, args, truth) && forall i :: 0 <= i < |args| ==> IsArg(args[i])
    requires ArgvOf(BestPlan(cs).usage, args, argv)
    requires forall j :: 0 <= j < |argv| ==> IsArg(argv[j])
    ensures var b := FilterBounds(BestPlan(cs).idxNum, argv);
            rows == Select(|arr.a|, ReturnTest(arr, b, cs, BestPlan(cs).usage, truth), 0)
    ensures var b := FilterBounds(BestPlan(cs).idxNum, argv);
            && (rows == Select(|arr.a|, AllTest(cs, truth), 0)
                <==> NoneMisjudged(arr, b, cs, BestPlan(cs).usage, args, truth))
            && (ScanExact(arr, b) && OmittedTight(cs, BestPlan(cs).usage, args) ==>
                  rows == Select(|arr.a|, AllTest(cs, truth), 0))
  {
    PlanMode(cs, argv);
    ghost var b := FilterBounds(BestPlan(cs).idxNum, argv);
    hide BestPlan, FilterBounds, ScanExact, Wanted, Visited, Honest, OmittedTight, ArgvOf, TruthOf, MeetsRest, IsArg,
         Satisfies, NoneMisjudged, VisitsRow, Select, WhereKept;
    PlanKeepsWhere(arr, cs, args, argv, truth);
    RightIffNoneMisjudged(arr, b, cs, BestPlan(cs).usage, args, truth);
    if ScanExact(arr, b) && OmittedTight(cs, BestPlan(cs).usage, args) {
      ExactAndTight(arr, b, cs, BestPlan(cs).usage, args, truth);
    }
    var info := new IndexInfo(cs);
    info.BestIndex();
    var cursor := new Cursor(arr);
    var visited := cursor.VisitAll(info.idxNum, argv);
    rows := Tested(cs, info.usage, visited, truth);
    KeepVisited(arr, b, cs, info.usage, truth);
  }

  lemma {:induction false} PlanMode(cs: seq<Constraint>, argv: seq<Arg>)
    requires forall j :: 0 <= j < |argv| ==> IsArg(argv[j])
    ensures BestPlan(cs).idxNum % 4 <= VALUE && FilterBounds(BestPlan(cs).idxNum, argv).mode <= VALUE
  {
    hide FilterBounds, BestPlan;
    KeepsMode(BestPlan(cs).idxNum, argv);
  }

  lemma {:induction false} KeepVisited(arr: IntArray, b: Bounds, cs: seq<Constraint>, usage: seq<Usage>,
                                       truth: (nat, nat) -> bool)
    requires |usage| == |cs|
    ensures Keep(Visited(arr, b), RestTest(cs, usage, truth))
         == Select(|arr.a|, ReturnTest(arr, b, cs, usage, truth), 0)
  {
    hide VisitsRow, MeetsRest;
    KeepSelected(|arr.a|, Visits(arr, b), RestTest(cs, usage, truth), ReturnTest(arr, b, cs, usage, truth), 0);
  }

  /** SQLite's own tests of the rows a cursor visits. */
  method Tested(cs: seq<Constraint>, usage: seq<Usage>, visited: seq<nat>, truth: (nat, nat) -> bool)
    returns (rows: seq<nat>)
    requires |usage| == |cs|
    ensures rows == Keep(visited, RestTest(cs, usage, truth))
  {
    hide MeetsRest;
    rows := [];
    assert visited[..0] == [];
    for i := 0 to |visited|
      invariant rows == Keep(visited[..i], RestTest(cs, usage, truth))
    {
      assert visited[..i + 1][..i] == visited[..i];
      if MeetsRest(cs, usage, truth, visited[i]) {
        rows := rows + [visited[i]];
      }
    }
    assert visited[..|visited|] == visited;
  }
}
