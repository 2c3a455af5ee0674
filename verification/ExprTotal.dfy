/** An expression that is small beside the registers, the constants and the jump offsets there are does compile:
    the errors of the code generator are only those of running out of one of them. */
module ExprTotal {
  import opened Wrappers
  import opened LuaOps
  import opened ExprGen
  import opened ExprCorrect
  import opened ExprRel

  /** What is left allows `n` more units: a constant and eight instructions each. */
  predicate Room(g: Gen, n: nat) {
    |g.k| + n <= MAXARG_AX && |g.code| + 8 * n < OFFSET_SJ
  }

  /** At most `n` constants and `m` instructions have been added. */
  predicate Used(g: Gen, g': Gen, n: nat, m: nat) {
    g'.nvars == g.nvars && |g'.k| <= |g.k| + n && |g.code| <= |g'.code| <= |g.code| + m
  }

  /** The jumps of a list are in the code. */
  ghost predicate In(code: ICode, l: seq<nat>) {
    forall j :: j in l ==> j < |code|
  }

  ghost predicate Inside(g: Gen, d: Desc) {
    In(g.code, d.t) && In(g.code, d.f) && (d.k.VJmp? ==> d.k.pc < |g.code|)
  }

  // ----- lists -----

  lemma ConcatFits(code: ICode, l1: seq<nat>, l2: seq<nat>)
    requires In(code, l1) && In(code, l2) && |code| < OFFSET_SJ
    ensures Concat(l1, l2).Ok? && Concat(l1, l2).value == l1 + l2 && In(code, l1 + l2)
  {
    if l1 != [] && l2 != [] { assert l1[|l1| - 1] in l1 && l2[0] in l2; }
  }

  lemma {:induction false} PatchListFits(code: ICode, list: seq<nat>, vtarget: int, reg: nat, dtarget: int)
    requires In(code, list) && |code| < OFFSET_SJ && -1 <= vtarget <= |code| && -1 <= dtarget <= |code|
    ensures var r := PatchList(code, list, vtarget, reg, dtarget); r.Ok? && |r.value| == |code|
    decreases list
  {
    if list != [] {
      assert list[0] in list && forall j :: j in list[1..] ==> j in list;
      PatchListFits(PatchJump(code, list[0], vtarget, reg, dtarget).value, list[1..], vtarget, reg, dtarget);
    }
  }

  lemma {:induction false} RemoveValuesLength(code: ICode, list: seq<nat>)
    ensures |RemoveValues(code, list)| == |code|
    decreases list
  {
    if list != [] { RemoveValuesLength(PatchTestReg(code, list[0], NO_REG).0, list[1..]); }
  }

  // ----- each routine has room -----

  /** One value loaded: at most a constant and two instructions. */
  predicate Loaded(g: Gen, g': Gen) {
    g'.freereg == g.freereg && |g'.k| <= |g.k| + 1 && |g.code| <= |g'.code| <= |g.code| + 2
  }

  lemma NilFits(g: Gen, reg: nat)
    ensures Loaded(g, EmitNil(g, reg))
  {
  }

  lemma ConstFits(g: Gen, reg: nat, v: Value)
    requires |g.k| < MAXARG_AX
    ensures AddK(g, v).Ok? && Loaded(g, EmitK(AddK(g, v).value.0, reg, AddK(g, v).value.1))
  {
  }

  lemma NumberFits(g: Gen, reg: nat, i: int, x: real)
    requires |g.k| < MAXARG_AX
    ensures EmitInt(g, reg, i).Ok? && Loaded(g, EmitInt(g, reg, i).value)
    ensures EmitFlt(g, reg, x).Ok? && Loaded(g, EmitFlt(g, reg, x).value)
  {
    ConstFits(g, reg, Int(i));
    ConstFits(g, reg, Flt(x));
    hide AddK, EmitK, FltToInt;
  }

  lemma DischargeFits(g: Gen, d: Desc, reg: nat)
    requires |g.k| < MAXARG_AX && Inside(g, d)
    ensures Discharge2Reg(g, d, reg).Ok?
    ensures var (g', d') := Discharge2Reg(g, d, reg).value;
            Loaded(g, g') && Inside(g', d') && d' == if d.k.VJmp? then d else d.(k := VNonReloc(reg))
  {
    NilFits(g, reg);
    if d.k.VKStr? { ConstFits(g, reg, Str(d.k.s)); }
    NumberFits(g, reg, if d.k.VKInt? then d.k.i else 0, if d.k.VKFlt? then d.k.x else 0.0);
    hide EmitNil, AddK, EmitInt, EmitFlt;
  }

  lemma DischargeAnyFits(g: Gen, d: Desc, fr: nat)
    requires Room(g, 1) && Inside(g, d) && Owns(g, d, fr) && fr + 1 < MAXREGS && !d.k.VJmp? && !d.k.VLocal?
    ensures Discharge2AnyReg(g, d).Ok?
    ensures var (g', d') := Discharge2AnyReg(g, d).value;
            Used(g, g', 1, 2) && Inside(g', d') && d'.k.VNonReloc? && Owns(g', d', fr)
  {
    hide Discharge2Reg, In;
    if !d.k.VNonReloc? { DischargeFits(Reserve(g, 1).value, d, g.freereg); }
  }

  lemma JoinFits(g: Gen, t: seq<nat>, f: seq<nat>, reg: nat, isTest: bool)
    requires In(g.code, t) && In(g.code, f) && |g.code| + 3 < OFFSET_SJ
    ensures var r := Join(g, t, f, reg, isTest);
            r.Ok? && r.value.freereg == g.freereg && r.value.k == g.k && |g.code| <= |r.value.code| <= |g.code| + 3
  {
    if NeedValue(g.code, t) || NeedValue(g.code, f) {
      LoadBoolsFits(g, reg, isTest);
      var (g1, pf, pt) := LoadBools(g, reg, isTest).value;
      ExitsFit(g1, t, f, reg, pf, pt);
    } else {
      ExitsFit(g, t, f, reg, NO_JUMP, NO_JUMP);
    }
    hide LoadBools, PatchExits, NeedValue;
  }

  lemma LoadBoolsFits(g: Gen, reg: nat, isTest: bool)
    requires |g.code| + 3 < OFFSET_SJ
    ensures LoadBools(g, reg, isTest).Ok?
    ensures var (g', pf, pt) := LoadBools(g, reg, isTest).value;
            && g'.freereg == g.freereg && g'.k == g.k && |g.code| <= |g'.code| <= |g.code| + 3
            && 0 <= pf <= |g'.code| && 0 <= pt <= |g'.code|
  {
    var g1 := if isTest then g else Emit(g, Jmp(Pending));
    var g2 := Emit(Label(g1), LFalseSkip(reg));
    var g3 := Emit(Label(g2), LoadTrue(reg));
    PatchListFits(g3.code, if isTest then [] else [|g.code|], |g3.code|, NO_REG, |g3.code|);
    hide PatchList;
  }

  lemma ExitsFit(g: Gen, t: seq<nat>, f: seq<nat>, reg: nat, pf: int, pt: int)
    requires In(g.code, t) && In(g.code, f) && |g.code| < OFFSET_SJ && -1 <= pf <= |g.code| && -1 <= pt <= |g.code|
    ensures var r := PatchExits(g, t, f, reg, pf, pt);
            r.Ok? && r.value.freereg == g.freereg && r.value.k == g.k && |r.value.code| == |g.code|
  {
    PatchListFits(g.code, f, |g.code|, reg, pf);
    PatchListFits(PatchList(g.code, f, |g.code|, reg, pf).value, t, |g.code|, reg, pt);
    hide PatchList;
  }

  lemma Exp2RegFits(g: Gen, d: Desc, reg: nat)
    requires |g.k| < MAXARG_AX && |g.code| + 5 < OFFSET_SJ && Inside(g, d)
    ensures Exp2Reg(g, d, reg).Ok?
    ensures var (g', d') := Exp2Reg(g, d, reg).value;
            && g'.freereg == g.freereg && |g'.k| <= |g.k| + 1 && |g.code| <= |g'.code| <= |g.code| + 5
            && d' == ExpDesc(VNonReloc(reg), [], [])
  {
    DischargeFits(g, d, reg);
    var (g1, d1) := Discharge2Reg(g, d, reg).value;
    if d1.k.VJmp? { ConcatFits(g1.code, d1.t, [d1.k.pc]); }
    var t := if d1.k.VJmp? then d1.t + [d1.k.pc] else d1.t;
    if t != d1.f { JoinFits(g1, t, d1.f, reg, d1.k.VJmp?); }
    hide Discharge2Reg, Join;
  }

  lemma NextRegFits(g: Gen, d: Desc, fr: nat)
    requires Room(g, 1) && Inside(g, d) && Owns(g, d, fr) && fr + 1 < MAXREGS
    ensures Exp2NextReg(g, d).Ok?
    ensures var (g', d') := Exp2NextReg(g, d).value;
            Used(g, g', 1, 5) && d' == ExpDesc(VNonReloc(fr), [], []) && g'.freereg == fr + 1
  {
    hide Exp2Reg, In;
    var d1 := DischargeVars(d);
    var g1 := Reserve(FreeExp(g, d1), 1).value;
    assert g1 == g.(freereg := fr + 1);
    Exp2RegFits(g1, d1, fr);
  }

  /** A constant or a register, without jumps. */
  predicate Settled(d: Desc) {
    !HasJumps(d) && !d.k.VReloc? && !d.k.VJmp? && !d.k.VLocal?
  }

  /** An operand brought to a register has the first one that was free for it, or one of a local variable. */
  predicate Placed(g: Gen, d: Desc, fr: nat) {
    !HasJumps(d) && d.k.VNonReloc? && (d.k.reg < g.nvars || d.k.reg == fr)
  }

  lemma AnyRegFits(g: Gen, d: Desc, fr: nat)
    requires Room(g, 1) && Inside(g, d) && Owns(g, d, fr) && fr + 1 < MAXREGS
    ensures Exp2AnyReg(g, d).Ok?
    ensures var (g', d') := Exp2AnyReg(g, d).value; Used(g, g', 1, 5) && Inside(g', d') && Placed(g', d', fr) && Owns(g', d', fr)
  {
    var d1 := DischargeVars(d);
    if d1.k.VNonReloc? && HasJumps(d1) && d1.k.reg >= g.nvars { Exp2RegFits(g, d1, d1.k.reg); }
    else if !d1.k.VNonReloc? || HasJumps(d1) { NextRegFits(g, d1, fr); }
    hide Exp2Reg, Exp2NextReg;
  }

  /** A constant small enough for an instruction, or a register. */
  lemma RKFits(g: Gen, d: Desc, fr: nat)
    requires Room(g, 2) && Inside(g, d) && Owns(g, d, fr) && fr + 1 < MAXREGS
    ensures Exp2RK(g, d).Ok?
    ensures var (g', d', isK) := Exp2RK(g, d).value;
            && Used(g, g', 2, 5) && Inside(g', d') && Owns(g', d', fr)
            && if isK then Settled(d') && d'.k.VK? && d'.k.info <= MAXINDEXRK else Placed(g', d', fr)
  {
    assert Exp2K(g, d).Ok?;
    var (g1, d1, isK) := Exp2K(g, d).value;
    assert Used(g, g1, 1, 0) && g1.freereg == g.freereg && Inside(g1, d1) && Owns(g1, d1, fr);
    if !isK { AnyRegFits(g1, d1, fr); }
    hide Exp2AnyReg, Exp2K;
  }

  lemma ExitJumpFits(g: Gen, d: Desc, cond: bool, fr: nat)
    requires Room(g, 1) && Inside(g, d) && Owns(g, d, fr) && fr + 1 < MAXREGS && !d.k.VLocal?
    ensures ExitJump(g, d, cond).Ok?
    ensures var (g', l) := ExitJump(g, d, cond).value; Used(g, g', 1, 4) && In(g'.code, l) && (d.k.VNonReloc? || g'.freereg == fr)
  {
    if !d.k.VJmp? && !d.k.VReloc? { DischargeAnyFits(g, d, fr); }
    hide Discharge2AnyReg;
  }

  lemma GoIfFits(g: Gen, d: Desc, through: bool, fr: nat)
    requires Room(g, 1) && Inside(g, d) && Owns(g, d, fr) && fr + 1 < MAXREGS
    ensures var r := if through then GoIfTrue(g, d) else GoIfFalse(g, d);
            r.Ok? && Used(g, r.value.0, 1, 4) && In(r.value.0.code, r.value.1) && r.value.0.freereg == fr
  {
    var d1 := DischargeVars(d);
    ExitJumpFits(g, d1, !through, fr);
    var (g1, l) := ExitJump(g, d1, !through).value;
    var (stay, leave) := if through then (d.t, d.f) else (d.f, d.t);
    ConcatFits(g1.code, leave, l);
    PatchListFits(g1.code, stay, |g1.code|, NO_REG, |g1.code|);
    hide ExitJump, PatchList, Concat;
  }

  lemma NotFits(g: Gen, d: Desc, fr: nat)
    requires Room(g, 1) && Inside(g, d) && Owns(g, d, fr) && fr + 1 < MAXREGS
    ensures CodeNot(g, d).Ok?
    ensures var (g', d') := CodeNot(g, d).value; Used(g, g', 1, 3) && Inside(g', d') && Owns(g', d', fr)
  {
    var d1 := DischargeVars(d);
    if !AlwaysFalse(d1.k) && !AlwaysTrue(d1.k) && !d1.k.VJmp? { DischargeAnyFits(g, d1, fr); }
    hide Discharge2AnyReg;
    var (g1, k) := NegateMain(g, d1).value;
    RemoveValuesLength(g1.code, d.t);
    RemoveValuesLength(RemoveValues(g1.code, d.t), d.f);
    hide RemoveValues;
  }

  // ----- comparisons -----

  /** The first operand at hand, and the second one as it was compiled after it. */
  ghost predicate Pair(g: Gen, d1: Desc, d2: Desc, fr: nat) {
    && Settled(d1) && Inside(g, d1) && Inside(g, d2) && Owns(g, d2, fr + Temps(g, d1)) && !d2.k.VLocal?
    && g.nvars <= fr && fr + 2 < MAXREGS && (d1.k.VNonReloc? ==> Placed(g, d1, fr))
  }

  /** The state and the descriptor after a comparison. */
  ghost predicate Compared(g: Gen, r: Res<(Gen, Desc)>, fr: nat, n: nat, m: nat) {
    r.Ok? && Used(g, r.value.0, n, m) && Inside(r.value.0, r.value.1) && Owns(r.value.0, r.value.1, fr)
  }

  lemma FinishFits(g: Gen, d1: Desc, d2: Desc, test: Instr<Dest>, fr: nat)
    requires g.nvars <= fr < MAXREGS && g.freereg == fr + Temps(g, d1) + Temps(g, d2) && Inside(g, d1)
    ensures Compared(g, Ok(FinishCompare(g, d1, d2, test)), fr, 0, 2)
  {
  }

  /** What is in a register without jumps stays there. */
  lemma InPlace(g: Gen, d: Desc)
    requires Settled(d) && d.k.VNonReloc?
    ensures Exp2AnyReg(g, d) == Ok((g, d))
  {
  }

  /** Both operands of an order comparison in registers. */
  lemma OrderBoth(g: Gen, less: bool, d1: Desc, d2: Desc, swap: bool, fr: nat)
    requires Room(g, 1) && Pair(g, d1, d2, fr) && d1.k.VNonReloc? && SCNumber(d2).0.None?
    ensures Compared(g, if swap then CodeOrder(g, less, d2, d1) else CodeOrder(g, less, d1, d2), fr, 1, 7)
  {
    AnyRegFits(g, d2, fr + Temps(g, d1));
    var (g1, e2) := Exp2AnyReg(g, d2).value;
    InPlace(g, d1);
    InPlace(g1, d1);
    hide Exp2AnyReg, FinishCompare;
    var (a, b) := if swap then (e2, d1) else (d1, e2);
    forall test ensures Compared(g1, Ok(FinishCompare(g1, a, b, test)), fr, 0, 2) { FinishFits(g1, a, b, test, fr); }
  }

  /** An immediate on one side. */
  lemma OrderImmediate(g: Gen, less: bool, d1: Desc, d2: Desc, swap: bool, fr: nat)
    requires Room(g, 1) && Pair(g, d1, d2, fr)
    requires if d1.k.VNonReloc? then SCNumber(d2).0.Some? else SCNumber(d1).0.Some?
    ensures Compared(g, if swap then CodeOrder(g, less, d2, d1) else CodeOrder(g, less, d1, d2), fr, 1, 7)
  {
    var (a, b) := if swap then (d2, d1) else (d1, d2);
    var x := if SCNumber(b).0.Some? then a else b;
    if x == d1 && d1.k.VNonReloc? { InPlace(g, d1); } else { AnyRegFits(g, x, fr); }
    hide Exp2AnyReg, FinishCompare;
    var (g1, e) := Exp2AnyReg(g, x).value;
    var (p, q) := if x == a then (e, b) else (a, e);
    forall test ensures Compared(g1, Ok(FinishCompare(g1, p, q, test)), fr, 0, 2) { FinishFits(g1, p, q, test, fr); }
  }

  lemma OrderFits(g: Gen, less: bool, d1: Desc, d2: Desc, swap: bool, fr: nat)
    requires Room(g, 1) && Pair(g, d1, d2, fr) && (d1.k.VNonReloc? || SCNumber(d1).0.Some?)
    ensures Compared(g, if swap then CodeOrder(g, less, d2, d1) else CodeOrder(g, less, d1, d2), fr, 1, 7)
  {
    hide CodeOrder, Pair, Compared;
    if d1.k.VNonReloc? && SCNumber(d2).0.None? { OrderBoth(g, less, d1, d2, swap, fr); }
    else { OrderImmediate(g, less, d1, d2, swap, fr); }
  }

  lemma EqWithFits(g: Gen, equal: bool, e1: Desc, y: Desc, fr: nat)
    requires Room(g, 2) && Pair(g, e1, y, fr) && e1.k.VNonReloc?
    ensures Compared(g, EqWith(g, equal, e1, y), fr, 2, 7)
  {
    if SCNumber(y).0.Some? {
      hide FinishCompare;
      forall test ensures Compared(g, Ok(FinishCompare(g, e1, y, test)), fr, 0, 2) { FinishFits(g, e1, y, test, fr); }
    } else {
      RKFits(g, y, fr + Temps(g, e1));
      var (g2, e2, isK) := Exp2RK(g, y).value;
      if !isK { InPlace(g2, e2); }
      hide Exp2AnyReg, Exp2RK, FinishCompare;
      forall test ensures Compared(g2, Ok(FinishCompare(g2, e1, e2, test)), fr, 0, 2) { FinishFits(g2, e1, e2, test, fr); }
    }
  }

  /** For an equality the second operand is brought to a register when the first is a constant. */
  lemma EqFits(g: Gen, equal: bool, d1: Desc, d2: Desc, fr: nat)
    requires Room(g, 3) && Pair(g, d1, d2, fr)
    ensures Compared(g, CodeEq(g, equal, d1, d2), fr, 3, 12)
  {
    hide EqWith;
    if d1.k.VNonReloc? {
      InPlace(g, d1);
      hide Exp2AnyReg;
      EqWithFits(g, equal, d1, d2, fr);
    } else {
      AnyRegFits(g, d2, fr);
      hide Exp2AnyReg;
      var (g1, e2) := Exp2AnyReg(g, d2).value;
      EqWithFits(g1, equal, e2, d1, fr);
    }
  }

  /** The first operand of a comparison, before the second is read. */
  lemma InfixFits(g: Gen, op: RelOp, d: Desc, fr: nat)
    requires Room(g, 2) && Inside(g, d) && Owns(g, d, fr) && fr + 1 < MAXREGS
    ensures InfixRel(g, op, d).Ok?
    ensures var (g', d') := InfixRel(g, op, d).value;
            && Used(g, g', 2, 5) && Inside(g', d') && Settled(d') && (d'.k.VNonReloc? ==> Placed(g', d', fr))
            && g'.freereg == fr + Temps(g', d')
            && (op.Eq? || op.Ne? || d'.k.VNonReloc? || SCNumber(d').0.Some?)
  {
    var d1 := DischargeVars(d);
    RKFits(g, d1, fr);
    AnyRegFits(g, d1, fr);
    hide Exp2AnyReg, Exp2RK;
  }

  lemma PosfixFits(g: Gen, op: RelOp, d1: Desc, d2: Desc, fr: nat)
    requires Room(g, 3) && Pair(g, d1, DischargeVars(d2), fr)
    requires op.Eq? || op.Ne? || d1.k.VNonReloc? || SCNumber(d1).0.Some?
    ensures Compared(g, PosfixRel(g, op, d1, d2), fr, 3, 12)
  {
    hide CodeEq, CodeOrder, SCNumber;
    var e2 := DischargeVars(d2);
    if op.Eq? || op.Ne? { EqFits(g, op.Eq?, d1, e2, fr); }
    else { OrderFits(g, op.Lt? || op.Gt?, d1, e2, op.Gt? || op.Ge?, fr); }
  }

  // ----- expressions -----

  /** Units enough for an expression: one for each `not`, `and` and `or`, five for each comparison. */
  function Cost(e: Expr): nat {
    match e
    case ENot(a) => Cost(a) + 1
    case EAnd(l, r) => Cost(l) + Cost(r) + 1
    case EOr(l, r) => Cost(l) + Cost(r) + 1
    case ERel(_, l, r) => Cost(l) + Cost(r) + 5
    case _ => 0
  }

  function Max(a: nat, b: nat): nat {
    if a < b then b else a
  }

  /** The registers an expression needs at once: only the second operand of a comparison is computed while another
      value is kept. */
  function Depth(e: Expr): nat {
    match e
    case ENot(a) => Max(1, Depth(a))
    case EAnd(l, r) => Max(1, Max(Depth(l), Depth(r)))
    case EOr(l, r) => Max(1, Max(Depth(l), Depth(r)))
    case ERel(_, l, r) => Max(2, Max(Depth(l), Depth(r) + 1))
    case _ => 0
  }

  /** There is room for an expression and `n` more units. */
  predicate RoomFor(g: Gen, e: Expr, n: nat) {
    Scoped(e, g.nvars) && g.nvars <= g.freereg && g.freereg + Depth(e) < MAXREGS && Room(g, Cost(e) + n)
  }

  /** The expression compiles, leaves room for `n` units and holds at most the first register that was free. */
  ghost predicate Fits(g: Gen, e: Expr, n: nat) {
    var r := Compile(g, e);
    && r.Ok? && Room(r.value.0, n) && Used(g, r.value.0, Cost(e), 8 * Cost(e)) && Inside(r.value.0, r.value.1)
    && Owns(r.value.0, r.value.1, g.freereg)
  }

  /** Where there is room for it, an expression compiles. */
  lemma {:induction false} CompileFits(g: Gen, e: Expr, n: nat)
    requires RoomFor(g, e, n)
    ensures Fits(g, e, n)
    decreases e, 1
  {
    match e
    case ENot(_) => NegationFits(g, e, n);
    case EAnd(_, _) => AndFits(g, e, n);
    case EOr(_, _) => OrFits(g, e, n);
    case ERel(_, _, _) => ComparisonFits(g, e, n);
    case _ =>
  }

  lemma {:induction false} NegationFits(g: Gen, e: Expr, n: nat)
    requires e.ENot? && RoomFor(g, e, n)
    ensures Fits(g, e, n)
    decreases e, 0
  {
    hide CodeNot;
    CompileFits(g, e.e, n + 1);
    var (g1, d1) := Compile(g, e.e).value;
    NotFits(g1, d1, g.freereg);
  }

  lemma {:induction false} AndFits(g: Gen, e: Expr, n: nat)
    requires e.EAnd? && RoomFor(g, e, n)
    ensures Fits(g, e, n)
    decreases e, 0
  {
    hide GoIfTrue, Concat;
    CompileFits(g, e.l, n + 1 + Cost(e.r));
    var (g1, d1) := Compile(g, e.l).value;
    GoIfFits(g1, d1, true, g.freereg);
    var (g2, f1) := GoIfTrue(g1, d1).value;
    CompileFits(g2, e.r, n);
    var (g3, d2) := Compile(g2, e.r).value;
    ConcatFits(g3.code, d2.f, f1);
  }

  lemma {:induction false} OrFits(g: Gen, e: Expr, n: nat)
    requires e.EOr? && RoomFor(g, e, n)
    ensures Fits(g, e, n)
    decreases e, 0
  {
    hide GoIfFalse, Concat;
    CompileFits(g, e.l, n + 1 + Cost(e.r));
    var (g1, d1) := Compile(g, e.l).value;
    GoIfFits(g1, d1, false, g.freereg);
    var (g2, t1) := GoIfFalse(g1, d1).value;
    CompileFits(g2, e.r, n);
    var (g3, d2) := Compile(g2, e.r).value;
    ConcatFits(g3.code, d2.t, t1);
  }

  lemma {:induction false} ComparisonFits(g: Gen, e: Expr, n: nat)
    requires e.ERel? && RoomFor(g, e, n)
    ensures Fits(g, e, n)
    decreases e, 0
  {
    hide InfixRel, PosfixRel;
    CompileFits(g, e.l, n + 5 + Cost(e.r));
    var (g1, d1) := Compile(g, e.l).value;
    InfixFits(g1, e.op, d1, g.freereg);
    var (g2, e1) := InfixRel(g1, e.op, d1).value;
    CompileFits(g2, e.r, n + 3);
    var (g3, d2) := Compile(g2, e.r).value;
    PosfixFits(g3, e.op, e1, d2, g.freereg);
  }

  /** The same for an expression put in the next register. */
  lemma SmallCompiles(g: Gen, e: Expr)
    requires RoomFor(g, e, 1) && g.freereg + 1 < MAXREGS
    ensures Compile(g, e).Ok?
    ensures var (g', d) := Compile(g, e).value; Exp2NextReg(g', d).Ok?
  {
    CompileFits(g, e, 1);
    var (g', d) := Compile(g, e).value;
    NextRegFits(g', d, g.freereg);
    hide Exp2NextReg;
  }
}
