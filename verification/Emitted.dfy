/** Every instruction that the code generator leaves fits its 32-bit word. */
module Emitted {
  import opened Wrappers
  import opened LuaOps
  import opened ExprGen
  import opened ExecLemmas
  import opened ExprCorrect
  import opened Encoding
  import F = FuncState

  /** An instruction at its place has fields that fit; a jump without a target is still to get one. */
  predicate Sane(i: Instr<Dest>, pc: nat) {
    i != Jmp(Pending) ==> Fits(F.Word(i, pc)) && (i.LoadNil? ==> i.a + i.n <= 255)
  }

  ghost predicate SaneCode(code: ICode) {
    forall pc: nat :: pc < |code| ==> Sane(code[pc], pc)
  }

  /** The state of a generator that has only left such instructions. */
  ghost predicate Tidy(g: Gen) {
    SaneCode(g.code) && |g.k| <= 33554431 && g.freereg <= 255 && g.nvars <= 255
  }

  predicate Held(d: Desc) {
    && (d.k.VNonReloc? ==> d.k.reg <= 255) && (d.k.VLocal? ==> d.k.ridx <= 255) && (d.k.VK? ==> d.k.info <= 33554431)
  }

  // ----- instructions -----

  lemma EmitSane(g: Gen, i: Instr<Dest>)
    requires SaneCode(g.code) && Sane(i, |g.code|)
    ensures SaneCode(Emit(g, i).code)
  {
  }

  lemma ReplaceSane(code: ICode, pc: nat, i: Instr<Dest>)
    requires SaneCode(code) && Sane(i, pc)
    ensures SaneCode(Replace(code, pc, i))
  {
  }

  lemma EmitNilTidy(g: Gen, reg: nat)
    requires Tidy(g) && reg <= 255
    ensures Tidy(EmitNil(g, reg))
  {
    if MergesNil(g, reg) { assert Sane(g.code[|g.code| - 1], |g.code| - 1); }
  }

  lemma AddKTidy(g: Gen, v: Value)
    requires Tidy(g) && AddK(g, v).Ok?
    ensures var (g', idx) := AddK(g, v).value; Tidy(g') && idx <= 33554431
  {
  }

  lemma EmitKTidy(g: Gen, reg: nat, idx: nat)
    requires Tidy(g) && reg <= 255 && idx <= 33554431
    ensures Tidy(EmitK(g, reg, idx))
  {
  }

  lemma NumberTidy(g: Gen, reg: nat, i: int, x: real)
    requires Tidy(g) && reg <= 255
    ensures EmitInt(g, reg, i).Ok? ==> Tidy(EmitInt(g, reg, i).value)
    ensures EmitFlt(g, reg, x).Ok? ==> Tidy(EmitFlt(g, reg, x).value)
  {
    if AddK(g, Int(i)).Ok? {
      AddKTidy(g, Int(i));
      EmitKTidy(AddK(g, Int(i)).value.0, reg, AddK(g, Int(i)).value.1);
    }
    if AddK(g, Flt(x)).Ok? {
      AddKTidy(g, Flt(x));
      EmitKTidy(AddK(g, Flt(x)).value.0, reg, AddK(g, Flt(x)).value.1);
    }
    hide AddK, EmitK, FltToInt;
  }

  // ----- lists -----

  lemma TestRegSane(code: ICode, node: nat, reg: nat)
    requires SaneCode(code) && reg <= 255
    ensures SaneCode(PatchTestReg(code, node, reg).0)
  {
    var c := Control(code, node);
    if c < |code| { assert Sane(code[c], c); }
    hide SaneCode, Control;
    forall i | Sane(i, c) ensures SaneCode(Replace(code, c, i)) { ReplaceSane(code, c, i); }
  }

  lemma {:induction false} RemoveValuesSane(code: ICode, list: seq<nat>)
    requires SaneCode(code)
    ensures SaneCode(RemoveValues(code, list))
    decreases list
  {
    hide SaneCode, PatchTestReg;
    if list != [] {
      TestRegSane(code, list[0], NO_REG);
      RemoveValuesSane(PatchTestReg(code, list[0], NO_REG).0, list[1..]);
    }
  }

  lemma PatchJumpSane(code: ICode, node: nat, vtarget: int, reg: nat, dtarget: int)
    requires SaneCode(code) && reg <= 255 && PatchJump(code, node, vtarget, reg, dtarget).Ok?
    ensures SaneCode(PatchJump(code, node, vtarget, reg, dtarget).value)
  {
    TestRegSane(code, node, reg);
    hide SaneCode, PatchTestReg;
    var (c, value) := PatchTestReg(code, node, reg);
    ReplaceSane(c, node, Jmp(To(if value then vtarget else dtarget)));
  }

  lemma {:induction false} PatchListSane(code: ICode, list: seq<nat>, vtarget: int, reg: nat, dtarget: int)
    requires SaneCode(code) && reg <= 255 && PatchList(code, list, vtarget, reg, dtarget).Ok?
    ensures SaneCode(PatchList(code, list, vtarget, reg, dtarget).value)
    decreases list
  {
    hide SaneCode, PatchJump;
    if list != [] {
      PatchJumpSane(code, list[0], vtarget, reg, dtarget);
      PatchListSane(PatchJump(code, list[0], vtarget, reg, dtarget).value, list[1..], vtarget, reg, dtarget);
    }
  }

  lemma PatchToHereTidy(g: Gen, list: seq<nat>)
    requires Tidy(g) && PatchToHere(g, list).Ok?
    ensures Tidy(PatchToHere(g, list).value)
  {
    hide SaneCode;
    PatchListSane(g.code, list, |g.code|, NO_REG, |g.code|);
  }

  // ----- values into registers -----

  lemma DischargeTidy(g: Gen, d: Desc, reg: nat)
    requires Tidy(g) && Held(d) && reg <= 255 && Discharge2Reg(g, d, reg).Ok?
    ensures var (g', d') := Discharge2Reg(g, d, reg).value; Tidy(g') && Held(d') && g'.freereg == g.freereg
  {
    EmitNilTidy(g, reg);
    NumberTidy(g, reg, if d.k.VKInt? then d.k.i else 0, if d.k.VKFlt? then d.k.x else 0.0);
    if d.k.VKStr? {
      AddKTidy(g, Str(d.k.s));
      EmitKTidy(AddK(g, Str(d.k.s)).value.0, reg, AddK(g, Str(d.k.s)).value.1);
    } else if d.k.VK? {
      EmitKTidy(g, reg, d.k.info);
    } else if d.k.VReloc? {
      SetDestSane(g.code, d.k.pc, reg);
    }
    hide SaneCode, EmitNil, EmitInt, EmitFlt, EmitK, AddK, SetDest;
    forall i | Sane(i, |g.code|) ensures SaneCode(Emit(g, i).code) { EmitSane(g, i); }
  }

  lemma SetDestSane(code: ICode, pc: nat, reg: nat)
    requires SaneCode(code) && reg <= 255
    ensures SaneCode(SetDest(code, pc, reg))
  {
    if pc < |code| { assert Sane(code[pc], pc); }
    hide SaneCode;
    forall i | Sane(i, pc) ensures SaneCode(Replace(code, pc, i)) { ReplaceSane(code, pc, i); }
  }

  lemma DischargeAnyTidy(g: Gen, d: Desc)
    requires Tidy(g) && Held(d) && Discharge2AnyReg(g, d).Ok?
    ensures var (g', d') := Discharge2AnyReg(g, d).value; Tidy(g') && Held(d')
  {
    hide SaneCode, Discharge2Reg;
    if !d.k.VNonReloc? { DischargeTidy(Reserve(g, 1).value, d, g.freereg); }
  }

  lemma JoinTidy(g: Gen, t: seq<nat>, f: seq<nat>, reg: nat, isTest: bool)
    requires Tidy(g) && reg <= 255 && Join(g, t, f, reg, isTest).Ok?
    ensures Tidy(Join(g, t, f, reg, isTest).value) && Join(g, t, f, reg, isTest).value.freereg == g.freereg
  {
    hide SaneCode, LoadBools, PatchExits, NeedValue;
    if NeedValue(g.code, t) || NeedValue(g.code, f) {
      LoadBoolsTidy(g, reg, isTest);
      var (g1, pf, pt) := LoadBools(g, reg, isTest).value;
      ExitsTidy(g1, t, f, reg, pf, pt);
    } else {
      ExitsTidy(g, t, f, reg, NO_JUMP, NO_JUMP);
    }
  }

  lemma LoadBoolsTidy(g: Gen, reg: nat, isTest: bool)
    requires Tidy(g) && reg <= 255 && LoadBools(g, reg, isTest).Ok?
    ensures Tidy(LoadBools(g, reg, isTest).value.0) && LoadBools(g, reg, isTest).value.0.freereg == g.freereg
  {
    hide SaneCode, PatchToHere;
    var g1 := if isTest then g else Emit(g, Jmp(Pending));
    EmitSane(g, Jmp(Pending));
    EmitSane(Label(g1), LFalseSkip(reg));
    var g2 := Emit(Label(g1), LFalseSkip(reg));
    EmitSane(Label(g2), LoadTrue(reg));
    var g3 := Emit(Label(g2), LoadTrue(reg));
    PatchToHereTidy(g3, if isTest then [] else [|g.code|]);
    PatchToHereKeeps(g3, if isTest then [] else [|g.code|]);
  }

  lemma PatchToHereKeeps(g: Gen, list: seq<nat>)
    requires PatchToHere(g, list).Ok?
    ensures PatchToHere(g, list).value.freereg == g.freereg
  {
  }

  lemma ExitsTidy(g: Gen, t: seq<nat>, f: seq<nat>, reg: nat, pf: int, pt: int)
    requires Tidy(g) && reg <= 255 && PatchExits(g, t, f, reg, pf, pt).Ok?
    ensures Tidy(PatchExits(g, t, f, reg, pf, pt).value) && PatchExits(g, t, f, reg, pf, pt).value.freereg == g.freereg
  {
    hide SaneCode, PatchList;
    PatchListSane(g.code, f, |g.code|, reg, pf);
    PatchListSane(PatchList(g.code, f, |g.code|, reg, pf).value, t, |g.code|, reg, pt);
  }

  lemma Exp2RegTidy(g: Gen, d: Desc, reg: nat)
    requires Tidy(g) && Held(d) && reg <= 255 && Exp2Reg(g, d, reg).Ok?
    ensures var (g', d') := Exp2Reg(g, d, reg).value; Tidy(g') && Held(d') && g'.freereg == g.freereg
  {
    hide SaneCode, Discharge2Reg, Join;
    DischargeTidy(g, d, reg);
    var (g1, d1) := Discharge2Reg(g, d, reg).value;
    var t := TrueExits(d1);
    if t != d1.f { JoinTidy(g1, t, d1.f, reg, d1.k.VJmp?); }
  }

  lemma NextRegTidy(g: Gen, d: Desc)
    requires Tidy(g) && Held(d) && Exp2NextReg(g, d).Ok?
    ensures var (g', d') := Exp2NextReg(g, d).value; Tidy(g') && Held(d')
  {
    hide SaneCode, Exp2Reg;
    var d1 := DischargeVars(d);
    var g1 := Reserve(FreeExp(g, d1), 1).value;
    Exp2RegTidy(g1, d1, g1.freereg - 1);
  }

  lemma AnyRegTidy(g: Gen, d: Desc)
    requires Tidy(g) && Held(d) && Exp2AnyReg(g, d).Ok?
    ensures var (g', d') := Exp2AnyReg(g, d).value; Tidy(g') && Held(d')
  {
    hide SaneCode, Exp2Reg, Exp2NextReg, HasJumps;
    var d1 := DischargeVars(d);
    if d1.k.VNonReloc? && !HasJumps(d1) {
    } else if d1.k.VNonReloc? && d1.k.reg >= g.nvars {
      Exp2RegTidy(g, d1, d1.k.reg);
    } else {
      NextRegTidy(g, d1);
    }
  }

  /** A constant in an instruction has an index that fits. */
  lemma RKTidy(g: Gen, d: Desc)
    requires Tidy(g) && Held(d) && Exp2RK(g, d).Ok?
    ensures var (g', d', isK) := Exp2RK(g, d).value; Tidy(g') && Held(d') && (isK && d'.k.VK? ==> d'.k.info <= 255)
  {
    hide SaneCode, AddK, Exp2AnyReg, HasJumps;
    if ConstOf(d.k).Some? && AddK(g, ConstOf(d.k).value).Ok? { AddKTidy(g, ConstOf(d.k).value); }
    var (g1, d1, isK) := Exp2K(g, d).value;
    if !isK { AnyRegTidy(g1, d1); }
  }

  // ----- jumps and conditions -----

  lemma CondJumpTidy(g: Gen, test: Instr<Dest>)
    requires Tidy(g) && Sane(test, |g.code|)
    ensures Tidy(CondJump(g, test))
  {
    hide SaneCode;
    EmitSane(g, test);
    EmitSane(Emit(g, test), Jmp(Pending));
  }

  lemma JumpOnCondTidy(g: Gen, d: Desc, cond: bool)
    requires Tidy(g) && Held(d) && JumpOnCond(g, d, cond).Ok?
    ensures Tidy(JumpOnCond(g, d, cond).value)
  {
    hide Discharge2AnyReg, CondJump;
    if d.k.VReloc? {
      if g.code != [] { assert Sane(g.code[|g.code| - 1], |g.code| - 1); }
      assert Tidy(RemoveLast(g));
      CondJumpTidy(RemoveLast(g), Test(NotOperand(g), !cond));
    } else {
      hide SaneCode;
      DischargeAnyTidy(g, d);
      var (g1, d1) := Discharge2AnyReg(g, d).value;
      CondJumpTidy(FreeExp(g1, d1), TestSet(NO_REG, RegOf(d1), cond));
    }
  }

  lemma NegateTidy(g: Gen, d: Desc)
    requires Tidy(g)
    ensures Tidy(NegateCondition(g, d))
  {
    if d.k.VJmp? {
      var c := Control(g.code, d.k.pc);
      if c < |g.code| { assert Sane(g.code[c], c); }
      hide SaneCode, Control;
      forall i | Sane(i, c) ensures SaneCode(Replace(g.code, c, i)) { ReplaceSane(g.code, c, i); }
    }
  }

  lemma ExitJumpTidy(g: Gen, d: Desc, cond: bool)
    requires Tidy(g) && Held(d) && ExitJump(g, d, cond).Ok?
    ensures Tidy(ExitJump(g, d, cond).value.0)
  {
    hide SaneCode, NegateCondition, JumpOnCond;
    NegateTidy(g, d);
    if JumpOnCond(g, d, cond).Ok? { JumpOnCondTidy(g, d, cond); }
  }

  lemma GoIfTidy(g: Gen, d: Desc, through: bool)
    requires Tidy(g) && Held(d) && (if through then GoIfTrue(g, d).Ok? else GoIfFalse(g, d).Ok?)
    ensures Tidy(if through then GoIfTrue(g, d).value.0 else GoIfFalse(g, d).value.0)
  {
    hide SaneCode, ExitJump, PatchToHere, Concat;
    var d1 := DischargeVars(d);
    ExitJumpTidy(g, d1, !through);
    PatchToHereTidy(ExitJump(g, d1, !through).value.0, if through then d.t else d.f);
  }

  lemma NotTidy(g: Gen, d: Desc)
    requires Tidy(g) && Held(d) && CodeNot(g, d).Ok?
    ensures var (g', d') := CodeNot(g, d).value; Tidy(g') && Held(d')
  {
    hide SaneCode, NegateMain, RemoveValues;
    NegateMainTidy(g, DischargeVars(d));
    var (g1, k) := NegateMain(g, DischargeVars(d)).value;
    RemoveValuesSane(g1.code, d.t);
    RemoveValuesSane(RemoveValues(g1.code, d.t), d.f);
  }

  lemma NegateMainTidy(g: Gen, d: Desc)
    requires Tidy(g) && Held(d) && NegateMain(g, d).Ok?
    ensures var (g', k) := NegateMain(g, d).value;
            Tidy(g') && (k.VTrue? || k.VFalse? || k.VJmp? || k.VReloc?)
  {
    hide SaneCode, NegateCondition, Discharge2AnyReg;
    NegateTidy(g, d);
    if Discharge2AnyReg(g, d).Ok? {
      DischargeAnyTidy(g, d);
      var (g1, d1) := Discharge2AnyReg(g, d).value;
      EmitSane(FreeExp(g1, d1), NotOp(0, RegOf(d1)));
    }
  }

  // ----- comparisons -----

  lemma FinishTidy(g: Gen, d1: Desc, d2: Desc, op: CmpOp, a: nat, b: nat, isfloat: bool, cond: bool)
    requires Tidy(g) && a <= 255 && b <= 255
    ensures var (g', d') := FinishCompare(g, d1, d2, Cmp(op, a, b, isfloat, cond)); Tidy(g') && Held(d')
  {
    hide SaneCode, CondJump;
    CondJumpTidy(FreeExps(g, d1, d2), Cmp(op, a, b, isfloat, cond));
  }

  /** An immediate operand fits its field. */
  lemma ImmediateFits(d: Desc)
    ensures SCNumber(d).0.Some? ==> SCNumber(d).0.value <= 255
  {
  }

  lemma OrderTidy(g: Gen, less: bool, d1: Desc, d2: Desc)
    requires Tidy(g) && Held(d1) && Held(d2) && CodeOrder(g, less, d1, d2).Ok?
    ensures var (g', d') := CodeOrder(g, less, d1, d2).value; Tidy(g') && Held(d')
  {
    hide Tidy, Held, Exp2AnyReg, SCNumber, FinishCompare;
    ImmediateFits(d1);
    ImmediateFits(d2);
    var (im2, f2) := SCNumber(d2);
    var (im1, f1) := SCNumber(d1);
    if im2.Some? {
      AnyRegTidy(g, d1);
      var (g1, e1) := Exp2AnyReg(g, d1).value;
      RegFits(e1);
      FinishTidy(g1, e1, d2, if less then OpLtI else OpLeI, RegOf(e1), im2.value, f2, true);
    } else if im1.Some? {
      AnyRegTidy(g, d2);
      var (g1, e2) := Exp2AnyReg(g, d2).value;
      RegFits(e2);
      FinishTidy(g1, d1, e2, if less then OpGtI else OpGeI, RegOf(e2), im1.value, f2 || f1, true);
    } else {
      AnyRegTidy(g, d1);
      var (g1, e1) := Exp2AnyReg(g, d1).value;
      AnyRegTidy(g1, d2);
      var (g2, e2) := Exp2AnyReg(g1, d2).value;
      RegFits(e1);
      RegFits(e2);
      FinishTidy(g2, e1, e2, if less then OpLt else OpLe, RegOf(e1), RegOf(e2), f2 || f1, true);
    }
  }

  lemma RegFits(d: Desc)
    requires Held(d)
    ensures RegOf(d) <= 255
  {
  }

  lemma EqWithTidy(g: Gen, equal: bool, e1: Desc, y: Desc)
    requires Tidy(g) && Held(e1) && Held(y) && EqWith(g, equal, e1, y).Ok?
    ensures var (g', d') := EqWith(g, equal, e1, y).value; Tidy(g') && Held(d')
  {
    hide Tidy, Held, Exp2AnyReg, Exp2RK, SCNumber, FinishCompare;
    ImmediateFits(y);
    RegFits(e1);
    var (im, isfloat) := SCNumber(y);
    if im.Some? {
      FinishTidy(g, e1, y, OpEqI, RegOf(e1), im.value, isfloat, equal);
    } else {
      RKTidy(g, y);
      var (g2, e2, isK) := Exp2RK(g, y).value;
      if isK {
        FinishTidy(g2, e1, e2, OpEqK, RegOf(e1), if e2.k.VK? then e2.k.info else 0, isfloat, equal);
      } else {
        AnyRegTidy(g2, e2);
        var (g3, e3) := Exp2AnyReg(g2, e2).value;
        RegFits(e3);
        FinishTidy(g3, e1, e3, OpEq, RegOf(e1), RegOf(e3), isfloat, equal);
      }
    }
  }

  lemma InfixTidy(g: Gen, op: RelOp, d: Desc)
    requires Tidy(g) && Held(d) && InfixRel(g, op, d).Ok?
    ensures var (g', d') := InfixRel(g, op, d).value; Tidy(g') && Held(d')
  {
    hide SaneCode, Exp2AnyReg, Exp2RK, SCNumber, IsNumeral;
    var d1 := DischargeVars(d);
    if Exp2RK(g, d1).Ok? { RKTidy(g, d1); }
    if Exp2AnyReg(g, d1).Ok? { AnyRegTidy(g, d1); }
  }

  lemma PosfixTidy(g: Gen, op: RelOp, d1: Desc, d2: Desc)
    requires Tidy(g) && Held(d1) && Held(d2) && PosfixRel(g, op, d1, d2).Ok?
    ensures var (g', d') := PosfixRel(g, op, d1, d2).value; Tidy(g') && Held(d')
  {
    hide Tidy, CodeOrder, EqWith, Exp2AnyReg;
    var e2 := DischargeVars(d2);
    match op
    case Lt => OrderTidy(g, true, d1, e2);
    case Le => OrderTidy(g, false, d1, e2);
    case Gt => OrderTidy(g, true, e2, d1);
    case Ge => OrderTidy(g, false, e2, d1);
    case _ =>
      var (x, y) := if d1.k.VNonReloc? then (d1, e2) else (e2, d1);
      AnyRegTidy(g, x);
      var (g1, e1) := Exp2AnyReg(g, x).value;
      EqWithTidy(g1, op.Eq?, e1, y);
  }

  // ----- expressions -----

  lemma LeafHeld(e: Expr, nvars: nat)
    requires Scoped(e, nvars) && nvars <= 255
    ensures Held(ExpDesc(Leaf(e), [], []))
  {
  }

  /** Compiling an expression leaves only instructions that fit. */
  lemma {:induction false} CompileTidy(g: Gen, e: Expr)
    requires Tidy(g) && Scoped(e, g.nvars) && Compile(g, e).Ok?
    ensures var (g', d) := Compile(g, e).value; Tidy(g') && Held(d)
    decreases e
  {
    hide SaneCode, CodeNot, GoIfTrue, GoIfFalse, InfixRel, PosfixRel, Concat;
    match e
    case ENot(a) =>
      CompileTidy(g, a);
      NotTidy(Compile(g, a).value.0, Compile(g, a).value.1);
    case EAnd(l, r) =>
      CompileTidy(g, l);
      var (g1, d1) := Compile(g, l).value;
      GoIfTidy(g1, d1, true);
      CompileTidy(GoIfTrue(g1, d1).value.0, r);
    case EOr(l, r) =>
      CompileTidy(g, l);
      var (g1, d1) := Compile(g, l).value;
      GoIfTidy(g1, d1, false);
      CompileTidy(GoIfFalse(g1, d1).value.0, r);
    case ERel(op, l, r) =>
      CompileTidy(g, l);
      var (g1, d1) := Compile(g, l).value;
      InfixTidy(g1, op, d1);
      var (g2, e1) := InfixRel(g1, op, d1).value;
      CompileTidy(g2, r);
      var (g3, d2) := Compile(g2, r).value;
      PosfixTidy(g3, op, e1, d2);
    case _ => LeafHeld(e, g.nvars);
  }

  /** The short forms are used exactly where they fit. */
  lemma ShortForms(g: Gen, reg: nat, i: int, x: real, idx: nat)
    ensures EmitInt(g, reg, i) == Ok(Emit(g, LoadI(reg, i))) <==> -65535 <= i <= 65536
    ensures EmitFlt(g, reg, x) == Ok(Emit(g, LoadF(reg, x.Floor))) <==> x.Floor as real == x && -65535 <= x.Floor <= 65536
    ensures EmitK(g, reg, idx) == Emit(g, LoadK(reg, idx)) <==> idx <= 131071
  {
    LastIs(EmitK(g, reg, idx), LoadK(reg, idx));
    if AddK(g, Int(i)).Ok? {
      LastIs(EmitK(AddK(g, Int(i)).value.0, reg, AddK(g, Int(i)).value.1), LoadI(reg, i));
    }
    if AddK(g, Flt(x)).Ok? {
      LastIs(EmitK(AddK(g, Flt(x)).value.0, reg, AddK(g, Flt(x)).value.1), LoadF(reg, x.Floor));
    }
    hide AddK;
  }

  lemma LastIs(g: Gen, i: Instr<Dest>)
    ensures forall h :: g == Emit(h, i) ==> g.code[|g.code| - 1] == i
  {
  }

  /** A constant that is in the table already is not added again. */
  lemma ConstantReused(g: Gen, v: Value)
    requires v in g.k
    ensures AddK(g, v).Ok? && AddK(g, v).value.0 == g && AddK(g, v).value.1 < |g.k| && g.k[AddK(g, v).value.1] == v
  {
  }

  /** A condition that is a constant is not tested: `luaK_goiftrue` leaves nothing for a true one, `luaK_goiffalse` nothing
      for a false one. */
  lemma ConstantUntested(g: Gen, d: Desc)
    requires d.t == [] && d.f == []
    ensures d.k.VTrue? || d.k.VKInt? || d.k.VKFlt? || d.k.VKStr? || d.k.VK? ==> GoIfTrue(g, d) == Ok((g.(lasttarget := |g.code|), []))
    ensures d.k.VFalse? || d.k.VNil? ==> GoIfFalse(g, d) == Ok((g.(lasttarget := |g.code|), []))
  {
    NothingPatched(g);
    hide Concat, PatchToHere, JumpOnCond;
  }

  lemma NothingPatched(g: Gen)
    ensures Concat([], []) == Ok([]) && PatchToHere(g, []) == Ok(g.(lasttarget := |g.code|))
  {
    var none: seq<nat> := [];
    assert none + none == none;
    assert PatchList(g.code, none, |g.code|, NO_REG, |g.code|) == Ok(g.code);
  }

  /** The operand of a comparison is put into the instruction exactly where it fits there. */
  lemma ImmediateForm(d: Desc)
    ensures SCNumber(d).0.Some? <==>
            !HasJumps(d) && (if d.k.VKInt? then -127 <= d.k.i <= 128
                             else d.k.VKFlt? && d.k.x.Floor as real == d.k.x && -127 <= d.k.x.Floor <= 128)
    ensures SCNumber(d).0.Some? ==> SCNumber(d).0.value == 127 + if d.k.VKInt? then d.k.i else d.k.x.Floor
  {
    hide HasJumps;
  }

  // ----- words -----

  /** The code as the interpreter reads it back from its words. */
  function Words(code: F.Code): (ws: seq<nat>)
    ensures |ws| == |code| && forall i :: 0 <= i < |ws| ==> ws[i] == Encode(code[i]) < 0x1_0000_0000
  {
    seq(|code|, i requires 0 <= i < |code| => Encode(code[i]))
  }

  function Read(ws: seq<nat>): F.Code {
    seq(|ws|, i requires 0 <= i < |ws| => Decode(ws[i]))
  }

  /** Code with every jump patched is read back from its words as it is. */
  lemma WordsHold(code: F.Code, g: Gen)
    requires F.Shows(code, g.code) && Jmp(Pending) !in g.code && SaneCode(g.code)
    ensures Read(Words(code)) == code && forall i :: 0 <= i < |code| ==> Fits(code[i])
  {
    hide Encode, Decode;
    forall i: nat | i < |code| ensures Decode(Encode(code[i])) == code[i] && Fits(code[i]) {
      assert g.code[i] in g.code && Sane(g.code[i], i);
      FitsExactly(code[i]);
    }
  }
}
