/** Values, constants and the instructions that expression code is made of, with the meaning that
    the comments of lopcodes.h give to each of them. */
module LuaOps {
  import opened Wrappers

  /** Errors that end a compilation, as the messages of `luaX_syntaxerror` and `luaM_growvector`. */
  datatype CompileError = TooManyRegisters | JumpTooLong | TooManyConstants

  datatype Res<+T> = Ok(value: T) | Fail(error: CompileError) {
    predicate IsFailure() { Fail? }
    function PropagateFailure<U>(): Res<U>
      requires Fail?
    {
      Fail(error)
    }
    function Extract(): T
      requires Ok?
    {
      value
    }
  }

  const MAXREGS := 255
  const NO_REG := 255
  const NO_JUMP := -1
  const MAXARG_BX := 0x1_FFFF
  const OFFSET_SBX := 0xFFFF
  const MAXARG_AX := 0x1FF_FFFF
  const MAXARG_SJ := 0x1FF_FFFF
  const OFFSET_SJ := 0xFF_FFFF
  const MAXARG_C := 255
  const OFFSET_SC := 127
  const MAXINDEXRK := 255

  // ----- values -----

  /** A Lua value. Floats are the finite ones; every object with identity is a `Ref`. */
  datatype Value = Nil | False | True | Int(i: int) | Flt(x: real) | Str(s: string) | Ref(id: nat)

  predicate Truthy(v: Value) {
    v != Nil && v != False
  }

  function Not(v: Value): Value {
    if Truthy(v) then False else True
  }

  function BoolValue(b: bool): Value {
    if b then True else False
  }

  predicate IsNumber(v: Value) {
    v.Int? || v.Flt?
  }

  function NumberOf(v: Value): real
    requires IsNumber(v)
  {
    if v.Int? then v.i as real else v.x
  }

  /** What the program around an expression decides: the order of values that are not both numbers
      (strings by locale, other values by metamethod; `None` when the comparison raises an error),
      and the `__eq` metamethod of two different objects. */
  datatype World = World(lt: (Value, Value) -> Option<bool>,
                         le: (Value, Value) -> Option<bool>,
                         eq: (nat, nat) -> Option<bool>)
  {
    function Lt(a: Value, b: Value): Option<bool> {
      if IsNumber(a) && IsNumber(b) then Some(NumberOf(a) < NumberOf(b)) else lt(a, b)
    }

    function Le(a: Value, b: Value): Option<bool> {
      if IsNumber(a) && IsNumber(b) then Some(NumberOf(a) <= NumberOf(b)) else le(a, b)
    }

    function Eq(a: Value, b: Value): Option<bool> {
      if IsNumber(a) && IsNumber(b) then Some(NumberOf(a) == NumberOf(b))
      else if a.Ref? && b.Ref? && a != b then eq(a.id, b.id)
      else Some(a == b)
    }
  }

  /** The registers of one call frame. */
  type Regs = r: seq<Value> | |r| == MAXREGS witness seq(MAXREGS, _ => Nil)

  function Get(r: Regs, i: nat): Value {
    if i < MAXREGS then r[i] else Nil
  }

  function Put(r: Regs, i: nat, v: Value): Regs {
    if i < MAXREGS then r[i := v] else r
  }

  /** Registers `a` to `a + b` set to nil. */
  function PutNil(r: Regs, a: nat, b: nat): Regs {
    seq(MAXREGS, i requires 0 <= i < MAXREGS => if a <= i <= a + b then Nil else r[i])
  }

  /** The registers below `bound` are the same, except perhaps register `x`. */
  ghost predicate Same(r: Regs, s: Regs, bound: nat, x: nat) {
    forall i: nat :: i < bound && i != x ==> Get(r, i) == Get(s, i)
  }

  // ----- instructions -----

  datatype CmpOp = OpEq | OpLt | OpLe | OpEqK | OpEqI | OpLtI | OpLeI | OpGtI | OpGeI

  /** `J` is how a jump says where it goes: the 25-bit field of an instruction, or a `Dest`. */
  datatype Instr<J> =
    | Move(a: nat, b: nat)
    | LoadI(a: nat, i: int)
    | LoadF(a: nat, i: int)
    | LoadK(a: nat, k: nat)
    | LoadKX(a: nat)
    | ExtraArg(ax: nat)
    | LoadFalse(a: nat)
    | LFalseSkip(a: nat)
    | LoadTrue(a: nat)
    | LoadNil(a: nat, n: nat)
    | NotOp(a: nat, b: nat)
    | Jmp(j: J)
    | Cmp(op: CmpOp, a: nat, b: nat, isfloat: bool, cond: bool)
    | Test(a: nat, cond: bool)
    | TestSet(a: nat, b: nat, cond: bool)
  {
    /** `testTMode`: an instruction that controls the jump after it. */
    predicate IsTest() {
      Cmp? || Test? || TestSet?
    }
  }

  /** A jump while an expression is compiled: still in a patch list, or aimed at an instruction. */
  datatype Dest = Pending | To(pc: int)

  type ICode = seq<Instr<Dest>>

  /** The immediate operand of a comparison (`sB`, with `C` telling a float). */
  function Immediate(b: nat, isfloat: bool): Value {
    var i := b - OFFSET_SC;
    if isfloat then Flt(i as real) else Int(i)
  }

  function Const(k: seq<Value>, i: nat): Value {
    if i < |k| then k[i] else Nil
  }

  /** The condition a test instruction evaluates; `None` when evaluating it raises an error. */
  function Condition<J>(w: World, k: seq<Value>, i: Instr<J>, r: Regs): Option<bool>
    requires i.IsTest()
  {
    match i
    case Test(a, _) => Some(Truthy(Get(r, a)))
    case TestSet(_, b, _) => Some(Truthy(Get(r, b)))
    case Cmp(op, a, b, isfloat, _) =>
      var va := Get(r, a);
      match op
      case OpEq => w.Eq(va, Get(r, b))
      case OpLt => w.Lt(va, Get(r, b))
      case OpLe => w.Le(va, Get(r, b))
      case OpEqK => w.Eq(va, Const(k, b))
      case OpEqI => w.Eq(va, Int(b - OFFSET_SC))
      case OpLtI => w.Lt(va, Immediate(b, isfloat))
      case OpLeI => w.Le(va, Immediate(b, isfloat))
      case OpGtI => w.Lt(Immediate(b, isfloat), va)
      case OpGeI => w.Le(Immediate(b, isfloat), va)
  }

  /** The registers after an instruction that only loads a register. */
  function Load<J>(k: seq<Value>, i: Instr<J>, r: Regs): Regs {
    match i
    case Move(a, b) => Put(r, a, Get(r, b))
    case LoadI(a, n) => Put(r, a, Int(n))
    case LoadF(a, n) => Put(r, a, Flt(n as real))
    case LoadK(a, x) => Put(r, a, Const(k, x))
    case LoadFalse(a) => Put(r, a, False)
    case LFalseSkip(a) => Put(r, a, False)
    case LoadTrue(a) => Put(r, a, True)
    case LoadNil(a, n) => PutNil(r, a, n)
    case NotOp(a, b) => Put(r, a, Not(Get(r, b)))
    case TestSet(a, b, _) => Put(r, a, Get(r, b))
    case _ => r
  }

  // ----- running code -----

  /** How a run of a piece of code ends: past its last instruction, at a jump that has no target
      yet, by an error, or by leaving the code. */
  datatype Outcome = Fall(r: Regs) | Exit(at: nat, r: Regs) | Raise | Stuck

  datatype Step = Next(pc: int, r: Regs) | Stop(o: Outcome)

  /** One instruction. A test whose jump is pending stops at the jump, before TESTSET has copied
      its operand: what it copies, and where, is not decided yet. */
  function StepAt(w: World, k: seq<Value>, code: ICode, pc: nat, r: Regs): Step
    requires pc < |code|
  {
    var i := code[pc];
    if i.IsTest() then
      match Condition(w, k, i, r)
      case None => Stop(Raise)
      case Some(c) =>
        if c != i.cond then Next(pc + 2, r)
        else if pc + 1 < |code| && code[pc + 1] == Jmp(Pending) then Stop(Exit(pc + 1, r))
        else Next(pc + 1, Load(k, i, r))
    else
      match i
      case Jmp(Pending) => Stop(Exit(pc, r))
      case Jmp(To(t)) => Next(t, r)
      case LFalseSkip(_) => Next(pc + 2, Load(k, i, r))
      case LoadKX(a) =>
        if pc + 1 < |code| && code[pc + 1].ExtraArg?
        then Next(pc + 2, Put(r, a, Const(k, code[pc + 1].ax)))
        else Stop(Stuck)
      case ExtraArg(_) => Stop(Stuck)
      case _ => Next(pc + 1, Load(k, i, r))
  }

  /** A whole run. Expression code only jumps forward; a backward jump is `Stuck`. */
  function Exec(w: World, k: seq<Value>, code: ICode, pc: nat, r: Regs): Outcome
    decreases |code| - pc
  {
    if pc > |code| then Stuck
    else if pc == |code| then Fall(r)
    else
      match StepAt(w, k, code, pc, r)
      case Stop(o) => o
      case Next(p, s) => if pc < p <= |code| then Exec(w, k, code, p, s) else Stuck
  }
}
