/** The expression part of the code generator as functions on values: the generator state is a record,
    and a patch list is the sequence of its jumps, whose targets are simply `Pending`. The class in
    FuncState.dfy keeps the same lists threaded through the jump instructions, as lcode.c does. */
module ExprGen {
  import opened Wrappers
  import opened LuaOps

  datatype RelOp = Eq | Ne | Lt | Le | Gt | Ge

  datatype Expr =
    | ELocal(reg: nat)
    | ENil | ETrue | EFalse
    | EInt(i: int) | EFlt(x: real) | EStr(s: string)
    | ENot(e: Expr)
    | EAnd(l: Expr, r: Expr)
    | EOr(l: Expr, r: Expr)
    | ERel(op: RelOp, l: Expr, r: Expr)

  /** `expkind`, for the kinds these expressions have. */
  datatype Kind =
    | VNil | VTrue | VFalse
    | VK(info: nat) | VKFlt(x: real) | VKInt(i: int) | VKStr(s: string)
    | VNonReloc(reg: nat) | VLocal(ridx: nat)
    | VJmp(pc: nat) | VReloc(pc: nat)

  /** `expdesc`: the main value and the two lists of jumps that leave with another value. */
  datatype ExpDesc<L> = ExpDesc(k: Kind, t: L, f: L)

  type Desc = ExpDesc<seq<nat>>

  datatype Gen = Gen(code: ICode, k: seq<Value>, freereg: nat, lasttarget: nat, nvars: nat)

  /** Constants are only added, and no local variable is declared. */
  predicate Grows(g: Gen, g': Gen) {
    g.k <= g'.k && g.nvars == g'.nvars
  }

  /** Instructions are only added, except that the last LOADNIL may have been widened. */
  predicate Adds(g: Gen, g': Gen) {
    && Grows(g, g') && |g.code| <= |g'.code| && g'.freereg == g.freereg && g'.lasttarget == g.lasttarget
    && forall i :: 0 <= i < |g.code| ==> g'.code[i] == g.code[i] || (g.code[i].LoadNil? && g'.code[i].LoadNil?)
  }

  // ----- emitting -----

  function Emit(g: Gen, i: Instr<Dest>): Gen {
    g.(code := g.code + [i])
  }

  /** `luaK_getlabel` */
  function Label(g: Gen): Gen {
    g.(lasttarget := |g.code|)
  }

  /** `luaK_nil` for one register: extend the LOADNIL just emitted when no jump can come between. */
  function EmitNil(g: Gen, reg: nat): (r: Gen)
    ensures Adds(g, r)
  {
    if MergesNil(g, reg) then
      var p := g.code[|g.code| - 1];
      var from := if p.a < reg then p.a else reg;
      var last := if p.a + p.n > reg then p.a + p.n else reg;
      g.(code := g.code[|g.code| - 1 := LoadNil(from, last - from)])
    else
      Emit(g, LoadNil(reg, 0))
  }

  predicate MergesNil(g: Gen, reg: nat) {
    && |g.code| > g.lasttarget
    && g.code[|g.code| - 1].LoadNil?
    && var p := g.code[|g.code| - 1];
       ((p.a <= reg <= p.a + p.n + 1) || (reg <= p.a <= reg + 1))
  }

  function IndexOf(k: seq<Value>, v: Value): (i: nat)
    ensures i <= |k|
    ensures i < |k| ==> k[i] == v
    ensures i == |k| ==> v !in k
  {
    if k == [] then 0 else if k[0] == v then 0 else 1 + IndexOf(k[1..], v)
  }

  /** `addk`: reuse the entry of an equal constant or append one. */
  function AddK(g: Gen, v: Value): (r: Res<(Gen, nat)>)
    ensures r.Ok? ==> Adds(g, r.value.0)
  {
    var i := IndexOf(g.k, v);
    if i < |g.k| then Ok((g, i))
    else if |g.k| >= MAXARG_AX then Fail(TooManyConstants)
    else Ok((g.(k := g.k + [v]), i))
  }

  /** `luaK_codek` */
  function EmitK(g: Gen, reg: nat, idx: nat): (r: Gen)
    ensures Adds(g, r)
  {
    if idx <= MAXARG_BX then Emit(g, LoadK(reg, idx))
    else Emit(Emit(g, LoadKX(reg)), ExtraArg(idx))
  }

  predicate FitsBx(i: int) {
    -OFFSET_SBX <= i <= MAXARG_BX - OFFSET_SBX
  }

  predicate FitsC(i: int) {
    0 <= i + OFFSET_SC <= MAXARG_C
  }

  /** `luaV_flttointeger` in mode F2Ieq */
  function FltToInt(x: real): Option<int> {
    if x.Floor as real == x && -0x8000_0000_0000_0000 <= x.Floor < 0x8000_0000_0000_0000
    then Some(x.Floor) else None
  }

  /** `luaK_int` */
  function EmitInt(g: Gen, reg: nat, i: int): (r: Res<Gen>)
    ensures r.Ok? ==> Adds(g, r.value)
  {
    if FitsBx(i) then Ok(Emit(g, LoadI(reg, i)))
    else
      var (g1, idx) :- AddK(g, Int(i));
      Ok(EmitK(g1, reg, idx))
  }

  /** `luaK_float` */
  function EmitFlt(g: Gen, reg: nat, x: real): (r: Res<Gen>)
    ensures r.Ok? ==> Adds(g, r.value)
  {
    var fi := FltToInt(x);
    if fi.Some? && FitsBx(fi.value) then Ok(Emit(g, LoadF(reg, fi.value)))
    else
      var (g1, idx) :- AddK(g, Flt(x));
      Ok(EmitK(g1, reg, idx))
  }

  // ----- registers -----

  /** `luaK_reserveregs` with the check of `luaK_checkstack` */
  function Reserve(g: Gen, n: nat): (r: Res<Gen>)
    ensures r.Ok? ==> Grows(g, r.value)
  {
    if g.freereg + n >= MAXREGS then Fail(TooManyRegisters)
    else Ok(g.(freereg := g.freereg + n))
  }

  function FreeReg(g: Gen, reg: int): Gen {
    if reg >= g.nvars && g.freereg > 0 then g.(freereg := g.freereg - 1) else g
  }

  function FreeExp<L>(g: Gen, d: ExpDesc<L>): Gen {
    if d.k.VNonReloc? then FreeReg(g, d.k.reg) else g
  }

  function FreeExps<L>(g: Gen, d1: ExpDesc<L>, d2: ExpDesc<L>): Gen {
    var r1 := if d1.k.VNonReloc? then d1.k.reg else -1;
    var r2 := if d2.k.VNonReloc? then d2.k.reg else -1;
    if r1 > r2 then FreeReg(FreeReg(g, r1), r2) else FreeReg(FreeReg(g, r2), r1)
  }

  // ----- patch lists -----

  predicate HasJumps(d: Desc) {
    d.t != d.f
  }

  /** Whether the offset from the jump at `pc` to `dest` fits its field (`fixjump`). */
  predicate JumpFits(pc: nat, dest: int) {
    -OFFSET_SJ <= dest - (pc + 1) <= MAXARG_SJ - OFFSET_SJ
  }

  /** `luaK_concat`: the last jump of `l1` is linked to the first of `l2`. */
  function Concat(l1: seq<nat>, l2: seq<nat>): Res<seq<nat>> {
    if l1 == [] || l2 == [] || JumpFits(l1[|l1| - 1], l2[0]) then Ok(l1 + l2)
    else Fail(JumpTooLong)
  }

  /** The instruction at `i` and the code with another one there. The lemmas show that `i` is always in
      the code; outside it these two are neutral. */
  function Fetch(code: ICode, i: nat): Instr<Dest> {
    if i < |code| then code[i] else ExtraArg(0)
  }

  function Replace(code: ICode, i: nat, x: Instr<Dest>): ICode {
    if i < |code| then code[i := x] else code
  }

  /** `getjumpcontrol` */
  function Control(code: ICode, pc: nat): nat {
    if pc >= 1 && Fetch(code, pc - 1).IsTest() then pc - 1 else pc
  }

  /** `patchtestreg`: the code afterwards and whether the control is a TESTSET. */
  function PatchTestReg(code: ICode, node: nat, reg: nat): (ICode, bool) {
    var c := Control(code, node);
    match Fetch(code, c)
    case TestSet(_, b, cond) =>
      if reg != NO_REG && reg != b then (Replace(code, c, TestSet(reg, b, cond)), true)
      else (Replace(code, c, Test(b, cond)), true)
    case _ => (code, false)
  }

  /** `removevalues` */
  function RemoveValues(code: ICode, list: seq<nat>): ICode
    decreases list
  {
    if list == [] then code else RemoveValues(PatchTestReg(code, list[0], NO_REG).0, list[1..])
  }

  /** One turn of the loop of `patchlistaux`. */
  function PatchJump(code: ICode, node: nat, vtarget: int, reg: nat, dtarget: int): Res<ICode> {
    var (c, value) := PatchTestReg(code, node, reg);
    var target := if value then vtarget else dtarget;
    if JumpFits(node, target) then Ok(Replace(c, node, Jmp(To(target)))) else Fail(JumpTooLong)
  }

  /** `patchlistaux` */
  function PatchList(code: ICode, list: seq<nat>, vtarget: int, reg: nat, dtarget: int): Res<ICode>
    decreases list
  {
    if list == [] then Ok(code)
    else
      var c :- PatchJump(code, list[0], vtarget, reg, dtarget);
      PatchList(c, list[1..], vtarget, reg, dtarget)
  }

  /** `luaK_patchtohere` */
  function PatchToHere(g: Gen, list: seq<nat>): (r: Res<Gen>)
    ensures r.Ok? ==> Grows(g, r.value)
  {
    var code :- PatchList(g.code, list, |g.code|, NO_REG, |g.code|);
    Ok(Label(g).(code := code))
  }

  /** `need_value` */
  predicate NeedValue(code: ICode, list: seq<nat>) {
    exists j :: j in list && !Fetch(code, Control(code, j)).TestSet?
  }

  // ----- putting values in registers -----

  /** `luaK_dischargevars` */
  function DischargeVars<L>(d: ExpDesc<L>): ExpDesc<L> {
    if d.k.VLocal? then d.(k := VNonReloc(d.k.ridx)) else d
  }

  /** `SETARG_A` of a relocatable instruction */
  function SetDest(code: ICode, pc: nat, reg: nat): ICode {
    match Fetch(code, pc)
    case NotOp(_, b) => Replace(code, pc, NotOp(reg, b))
    case _ => code
  }

  /** `discharge2reg` */
  function Discharge2Reg(g: Gen, d: Desc, reg: nat): (r: Res<(Gen, Desc)>)
    ensures r.Ok? ==> Grows(g, r.value.0)
  {
    var d := DischargeVars(d);
    var done := d.(k := VNonReloc(reg));
    match d.k
    case VNil => Ok((EmitNil(g, reg), done))
    case VFalse => Ok((Emit(g, LoadFalse(reg)), done))
    case VTrue => Ok((Emit(g, LoadTrue(reg)), done))
    case VKStr(s) =>
      var (g1, idx) :- AddK(g, Str(s));
      Ok((EmitK(g1, reg, idx), done))
    case VK(idx) => Ok((EmitK(g, reg, idx), done))
    case VKFlt(x) =>
      var g1 :- EmitFlt(g, reg, x);
      Ok((g1, done))
    case VKInt(i) =>
      var g1 :- EmitInt(g, reg, i);
      Ok((g1, done))
    case VReloc(pc) => Ok((g.(code := SetDest(g.code, pc, reg)), done))
    case VNonReloc(r) => Ok((if r != reg then Emit(g, Move(reg, r)) else g, done))
    case VJmp(_) => Ok((g, d))
  }

  /** `discharge2anyreg` */
  function Discharge2AnyReg(g: Gen, d: Desc): (r: Res<(Gen, Desc)>)
    ensures r.Ok? ==> Grows(g, r.value.0)
  {
    if d.k.VNonReloc? then Ok((g, d))
    else
      var g1 :- Reserve(g, 1);
      Discharge2Reg(g1, d, g1.freereg - 1)
  }

  /** The middle of `exp2reg`: the two instructions that load a boolean for the jumps that carry no
      value, with a jump around them unless the expression is itself a test. Returns the positions
      of the LFALSESKIP and of the LOADTRUE. */
  function LoadBools(g: Gen, reg: nat, isTest: bool): (r: Res<(Gen, int, int)>)
    ensures r.Ok? ==> Grows(g, r.value.0)
  {
    var g1 := if isTest then g else Emit(g, Jmp(Pending));
    var g2 := Emit(Label(g1), LFalseSkip(reg));
    var g3 := Emit(Label(g2), LoadTrue(reg));
    var g4 :- PatchToHere(g3, if isTest then [] else [|g.code|]);
    Ok((g4, |g1.code|, |g2.code|))
  }

  /** The end of `exp2reg`: every jump of the two lists gets its target. */
  function PatchExits(g: Gen, t: seq<nat>, f: seq<nat>, reg: nat, pf: int, pt: int): (r: Res<Gen>)
    ensures r.Ok? ==> Grows(g, r.value)
  {
    var final := |g.code|;
    var c1 :- PatchList(g.code, f, final, reg, pf);
    var c2 :- PatchList(c1, t, final, reg, pt);
    Ok(Label(g).(code := c2))
  }

  /** The jumps that leave with a true value, with the jump of a comparison put at the end of them. */
  function TrueExits(d: Desc): seq<nat> {
    if d.k.VJmp? then d.t + [d.k.pc] else d.t
  }

  /** `exp2reg` once the main value is in `reg`: every exit is brought to the end of the code, those
      that carry no value by way of an instruction that loads a boolean. */
  function Join(g: Gen, t: seq<nat>, f: seq<nat>, reg: nat, isTest: bool): (r: Res<Gen>)
    ensures r.Ok? ==> Grows(g, r.value)
  {
    if NeedValue(g.code, t) || NeedValue(g.code, f) then
      var (g1, pf, pt) :- LoadBools(g, reg, isTest);
      PatchExits(g1, t, f, reg, pf, pt)
    else PatchExits(g, t, f, reg, NO_JUMP, NO_JUMP)
  }

  /** `exp2reg` */
  function Exp2Reg(g: Gen, d: Desc, reg: nat): (r: Res<(Gen, Desc)>)
    ensures r.Ok? ==> Grows(g, r.value.0)
  {
    var done := ExpDesc(VNonReloc(reg), [], []);
    var (g1, d1) :- Discharge2Reg(g, d, reg);
    var t :- if d1.k.VJmp? then Concat(d1.t, [d1.k.pc]) else Ok(d1.t);
    if t == d1.f then Ok((g1, done))
    else
      var g2 :- Join(g1, t, d1.f, reg, d1.k.VJmp?);
      Ok((g2, done))
  }

  /** `luaK_exp2nextreg` */
  function Exp2NextReg(g: Gen, d: Desc): (r: Res<(Gen, Desc)>)
    ensures r.Ok? ==> Grows(g, r.value.0)
  {
    var d1 := DischargeVars(d);
    var g1 :- Reserve(FreeExp(g, d1), 1);
    Exp2Reg(g1, d1, g1.freereg - 1)
  }

  /** `luaK_exp2anyreg` */
  function Exp2AnyReg(g: Gen, d: Desc): (r: Res<(Gen, Desc)>)
    ensures r.Ok? ==> Grows(g, r.value.0)
  {
    var d1 := DischargeVars(d);
    if d1.k.VNonReloc? && !HasJumps(d1) then Ok((g, d1))
    else if d1.k.VNonReloc? && d1.k.reg >= g.nvars then Exp2Reg(g, d1, d1.k.reg)
    else Exp2NextReg(g, d1)
  }

  /** The value `luaK_exp2K` puts in the constant table; `None` for the kinds it does not move there. */
  function ConstOf(k: Kind): Option<Value> {
    match k
    case VTrue => Some(True)
    case VFalse => Some(False)
    case VNil => Some(Nil)
    case VKInt(i) => Some(Int(i))
    case VKFlt(x) => Some(Flt(x))
    case VKStr(s) => Some(Str(s))
    case _ => None
  }

  /** `luaK_exp2K`: the state and the descriptor afterwards, and whether it is now a small K. */
  function Exp2K(g: Gen, d: Desc): (r: Res<(Gen, Desc, bool)>)
    ensures r.Ok? ==> Grows(g, r.value.0)
  {
    if HasJumps(d) then Ok((g, d, false))
    else if d.k.VK? then Ok((g, d, d.k.info <= MAXINDEXRK))
    else if ConstOf(d.k).None? then Ok((g, d, false))
    else
      var (g1, idx) :- AddK(g, ConstOf(d.k).value);
      if idx <= MAXINDEXRK then Ok((g1, d.(k := VK(idx)), true)) else Ok((g1, d, false))
  }

  /** `exp2RK` */
  function Exp2RK(g: Gen, d: Desc): (r: Res<(Gen, Desc, bool)>)
    ensures r.Ok? ==> Grows(g, r.value.0)
  {
    var (g1, d1, isK) :- Exp2K(g, d);
    if isK then Ok((g1, d1, true))
    else
      var (g2, d2) :- Exp2AnyReg(g1, d1);
      Ok((g2, d2, false))
  }

  // ----- jumps on conditions -----

  /** `condjump`: the jump is the last instruction of the result. */
  function CondJump(g: Gen, test: Instr<Dest>): Gen {
    Emit(Emit(g, test), Jmp(Pending))
  }

  /** `removelastinstruction` */
  function RemoveLast(g: Gen): Gen {
    if g.code == [] then g else g.(code := g.code[..|g.code| - 1])
  }

  /** The register that a last OP_NOT reads. */
  function NotOperand(g: Gen): nat {
    match Fetch(g.code, |g.code| - (if g.code == [] then 0 else 1))
    case NotOp(_, b) => b
    case _ => 0
  }

  /** The register of a descriptor with a value in a register. */
  function RegOf<L>(d: ExpDesc<L>): nat {
    if d.k.VNonReloc? then d.k.reg else 0
  }

  /** `jumponcond` */
  function JumpOnCond(g: Gen, d: Desc, cond: bool): (r: Res<Gen>)
    ensures r.Ok? ==> Grows(g, r.value)
  {
    if d.k.VReloc? then
      Ok(CondJump(RemoveLast(g), Test(NotOperand(g), !cond)))
    else
      var (g1, d1) :- Discharge2AnyReg(g, d);
      Ok(CondJump(FreeExp(g1, d1), TestSet(NO_REG, RegOf(d1), cond)))
  }

  /** `negatecondition` for a comparison, the control of the last jump. */
  function NegateCondition(g: Gen, d: Desc): Gen
  {
    if !d.k.VJmp? then g
    else
      var c := Control(g.code, d.k.pc);
      match Fetch(g.code, c)
      case Cmp(op, a, b, isfloat, cond) => g.(code := Replace(g.code, c, Cmp(op, a, b, isfloat, !cond)))
      case _ => g
  }

  predicate AlwaysTrue(k: Kind) {
    k.VK? || k.VKFlt? || k.VKInt? || k.VKStr? || k.VTrue?
  }

  predicate AlwaysFalse(k: Kind) {
    k.VNil? || k.VFalse?
  }

  /** The jump `luaK_goiftrue` (`cond` false) or `luaK_goiffalse` (`cond` true) leaves by, as a list. */
  function ExitJump(g: Gen, d: Desc, cond: bool): (r: Res<(Gen, seq<nat>)>)
    ensures r.Ok? ==> Grows(g, r.value.0)
  {
    if d.k.VJmp? then Ok((if cond then g else NegateCondition(g, d), [d.k.pc]))
    else if (if cond then AlwaysFalse(d.k) else AlwaysTrue(d.k)) then Ok((g, []))
    else
      var g1 :- JumpOnCond(g, d, cond);
      Ok((g1, [|g1.code| - 1]))
  }

  /** `luaK_goiftrue`: the state and the list of jumps taken when the value is false. */
  function GoIfTrue(g: Gen, d: Desc): (r: Res<(Gen, seq<nat>)>)
    ensures r.Ok? ==> Grows(g, r.value.0)
  {
    var (g1, pc) :- ExitJump(g, DischargeVars(d), false);
    var f :- Concat(d.f, pc);
    var g2 :- PatchToHere(g1, d.t);
    Ok((g2, f))
  }

  /** `luaK_goiffalse`: the state and the list of jumps taken when the value is true. */
  function GoIfFalse(g: Gen, d: Desc): (r: Res<(Gen, seq<nat>)>)
    ensures r.Ok? ==> Grows(g, r.value.0)
  {
    var (g1, pc) :- ExitJump(g, DischargeVars(d), true);
    var t :- Concat(d.t, pc);
    var g2 :- PatchToHere(g1, d.f);
    Ok((g2, t))
  }

  /** The first half of `codenot`: the main value is negated. */
  function NegateMain(g: Gen, d: Desc): (r: Res<(Gen, Kind)>)
    ensures r.Ok? ==> Grows(g, r.value.0)
  {
    if AlwaysFalse(d.k) then Ok((g, VTrue))
    else if AlwaysTrue(d.k) then Ok((g, VFalse))
    else if d.k.VJmp? then Ok((NegateCondition(g, d), d.k))
    else
      var (g1, d1) :- Discharge2AnyReg(g, d);
      var g2 := Emit(FreeExp(g1, d1), NotOp(0, RegOf(d1)));
      Ok((g2, VReloc(|g2.code| - 1)))
  }

  /** `codenot`, after the `luaK_dischargevars` of `luaK_prefix` */
  function CodeNot(g: Gen, d: Desc): (r: Res<(Gen, Desc)>)
    ensures r.Ok? ==> Grows(g, r.value.0)
  {
    var (g1, k) :- NegateMain(g, DischargeVars(d));
    var code := RemoveValues(RemoveValues(g1.code, d.t), d.f);
    Ok((g1.(code := code), ExpDesc(k, d.f, d.t)))
  }

  // ----- comparisons -----

  /** `isSCnumber`: the operand field if the descriptor fits one, and whether it sets the float flag;
      the flag is set for every float with an integral value, even one that is then refused. */
  function SCNumber(d: Desc): (Option<nat>, bool) {
    var fi := if d.k.VKInt? then Some(d.k.i) else if d.k.VKFlt? then FltToInt(d.k.x) else None;
    if fi.None? then (None, false)
    else (if !HasJumps(d) && FitsC(fi.value) then Some(fi.value + OFFSET_SC) else None, d.k.VKFlt?)
  }

  /** `tonumeral` */
  predicate IsNumeral(d: Desc) {
    !HasJumps(d) && (d.k.VKInt? || d.k.VKFlt?)
  }

  function FinishCompare(g: Gen, d1: Desc, d2: Desc, test: Instr<Dest>): (Gen, Desc) {
    var g1 := CondJump(FreeExps(g, d1, d2), test);
    (g1, d1.(k := VJmp(|g1.code| - 1)))
  }

  /** `codeorder` for `<` (`less`) or `<=` */
  function CodeOrder(g: Gen, less: bool, d1: Desc, d2: Desc): (r: Res<(Gen, Desc)>)
    ensures r.Ok? ==> Grows(g, r.value.0)
  {
    var (im2, f2) := SCNumber(d2);
    var (im1, f1) := SCNumber(d1);
    if im2.Some? then
      var (g1, e1) :- Exp2AnyReg(g, d1);
      Ok(FinishCompare(g1, e1, d2, Cmp(if less then OpLtI else OpLeI, RegOf(e1), im2.value, f2, true)))
    else if im1.Some? then
      var (g1, e2) :- Exp2AnyReg(g, d2);
      Ok(FinishCompare(g1, d1, e2, Cmp(if less then OpGtI else OpGeI, RegOf(e2), im1.value, f2 || f1, true)))
    else
      var (g1, e1) :- Exp2AnyReg(g, d1);
      var (g2, e2) :- Exp2AnyReg(g1, d2);
      Ok(FinishCompare(g2, e1, e2, Cmp(if less then OpLt else OpLe, RegOf(e1), RegOf(e2), f2 || f1, true)))
  }

  /** The second half of `codeeq`, with the first operand in its register: an immediate, a constant or
      another register. */
  function EqWith(g: Gen, equal: bool, e1: Desc, y: Desc): (r: Res<(Gen, Desc)>)
    ensures r.Ok? ==> Grows(g, r.value.0)
  {
    var (im, isfloat) := SCNumber(y);
    if im.Some? then
      Ok(FinishCompare(g, e1, y, Cmp(OpEqI, RegOf(e1), im.value, isfloat, equal)))
    else
      var (g2, e2, isK) :- Exp2RK(g, y);
      if isK then
        Ok(FinishCompare(g2, e1, e2, Cmp(OpEqK, RegOf(e1), if e2.k.VK? then e2.k.info else 0, isfloat, equal)))
      else
        var (g3, e3) :- Exp2AnyReg(g2, e2);
        Ok(FinishCompare(g3, e1, e3, Cmp(OpEq, RegOf(e1), RegOf(e3), isfloat, equal)))
  }

  /** `codeeq`; `equal` is false for `~=` */
  function CodeEq(g: Gen, equal: bool, d1: Desc, d2: Desc): (r: Res<(Gen, Desc)>)
    ensures r.Ok? ==> Grows(g, r.value.0)
  {
    var (x, y) := if d1.k.VNonReloc? then (d1, d2) else (d2, d1);
    var (g1, e1) :- Exp2AnyReg(g, x);
    EqWith(g1, equal, e1, y)
  }

  // ----- the operators, as subexpr drives them -----

  /** `luaK_infix` for a comparison: the first operand before the second is read. */
  function InfixRel(g: Gen, op: RelOp, d: Desc): (r: Res<(Gen, Desc)>)
    ensures r.Ok? ==> Grows(g, r.value.0)
  {
    var d1 := DischargeVars(d);
    if op.Eq? || op.Ne? then
      if IsNumeral(d1) then Ok((g, d1))
      else
        var (g1, d2, _) :- Exp2RK(g, d1);
        Ok((g1, d2))
    else if SCNumber(d1).0.Some? then Ok((g, d1))
    else Exp2AnyReg(g, d1)
  }

  /** `luaK_posfix` for a comparison; `>` and `>=` swap their operands. */
  function PosfixRel(g: Gen, op: RelOp, d1: Desc, d2: Desc): (r: Res<(Gen, Desc)>)
    ensures r.Ok? ==> Grows(g, r.value.0)
  {
    var e2 := DischargeVars(d2);
    match op
    case Eq => CodeEq(g, true, d1, e2)
    case Ne => CodeEq(g, false, d1, e2)
    case Lt => CodeOrder(g, true, d1, e2)
    case Le => CodeOrder(g, false, d1, e2)
    case Gt => CodeOrder(g, true, e2, d1)
    case Ge => CodeOrder(g, false, e2, d1)
  }

  /** The kind `simpleexp` gives to a leaf. */
  function Leaf(e: Expr): Kind {
    match e
    case ELocal(r) => VLocal(r)
    case ETrue => VTrue
    case EFalse => VFalse
    case EInt(i) => VKInt(i)
    case EFlt(x) => VKFlt(x)
    case EStr(s) => VKStr(s)
    case _ => VNil
  }

  /** The code and the descriptor of an expression: the calls that `subexpr` makes, in its order. */
  function Compile(g: Gen, e: Expr): (r: Res<(Gen, Desc)>)
    ensures r.Ok? ==> Grows(g, r.value.0)
    decreases e
  {
    match e
    case ENot(e1) =>
      var (g1, d1) :- Compile(g, e1);
      CodeNot(g1, d1)
    case EAnd(l, r) =>
      var (g1, d1) :- Compile(g, l);
      var (g2, f1) :- GoIfTrue(g1, d1);
      var (g3, d2) :- Compile(g2, r);
      var f :- Concat(d2.f, f1);
      Ok((g3, DischargeVars(d2).(f := f)))
    case EOr(l, r) =>
      var (g1, d1) :- Compile(g, l);
      var (g2, t1) :- GoIfFalse(g1, d1);
      var (g3, d2) :- Compile(g2, r);
      var t :- Concat(d2.t, t1);
      Ok((g3, DischargeVars(d2).(t := t)))
    case ERel(op, l, r) =>
      var (g1, d1) :- Compile(g, l);
      var (g2, e1) :- InfixRel(g1, op, d1);
      var (g3, d2) :- Compile(g2, r);
      PosfixRel(g3, op, e1, d2)
    case _ => Ok((g, ExpDesc(Leaf(e), [], [])))
  }

  /** `luaK_storevar` into a local variable: the value of the expression ends in register `reg`. */
  function StoreLocal(g: Gen, d: Desc, reg: nat): (r: Res<Gen>)
    ensures r.Ok? ==> Grows(g, r.value)
  {
    var (g1, _) :- Exp2Reg(FreeExp(g, d), d, reg);
    Ok(g1)
  }
}
