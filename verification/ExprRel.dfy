/** Comparisons: two operands in registers, constants or immediate fields, then a test and its jump. */
module ExprRel {
  import opened Wrappers
  import opened LuaOps
  import opened ExprGen
  import opened ExecLemmas
  import opened ExprCorrect

  /** An operand with nothing left to run: a constant or a register. */
  predicate Simple(d: Desc) {
    d.t == [] && d.f == [] && !d.k.VReloc? && !d.k.VJmp? && !d.k.VLocal?
  }

  /** The free registers an operand holds. */
  function Temps(g: Gen, d: Desc): nat {
    if d.k.VNonReloc? && d.k.reg >= g.nvars then 1 else 0
  }

  /** Both operands of a comparison are at hand, and their evaluation is all that has happened. */
  ghost predicate Two(c: Env, g: Gen, d1: Desc, d2: Desc, n: nat, o0: Outcome, v1: Option<Value>, v2: Option<Value>,
                      fr: nat) {
    && Sound(c, g) && c.q <= n <= |g.code| && (o0.Exit? ==> o0.at < n)
    && Simple(d1) && Simple(d2)
    && g.nvars <= fr && g.freereg == fr + Temps(g, d1) + Temps(g, d2) < MAXREGS
    && (d1.k.VNonReloc? ==> d1.k.reg < g.freereg) && (d2.k.VNonReloc? ==> d2.k.reg < g.freereg)
    && var o := Run(c, g.code);
       match o0
       case Fall(r0) =>
         (match o
          case Fall(s) =>
            && v1.Some? && v2.Some? && Same(r0, s, fr, NO_REG)
            && MainIs(c, g.code, d1.k, s, v1.value) && MainIs(c, g.code, d2.k, s, v2.value)
          case Raise => v1.None? || v2.None?
          case _ => false)
       case _ => o == o0
  }

  lemma TwoSwap(c: Env, g: Gen, d1: Desc, d2: Desc, n: nat, o0: Outcome, v1: Option<Value>, v2: Option<Value>, fr: nat)
    requires Two(c, g, d1, d2, n, o0, v1, v2, fr)
    ensures Two(c, g, d2, d1, n, o0, v2, v1, fr)
  {
  }

  /** The second operand, evaluated after the first, leaves the first in place. */
  lemma BothOperands(c: Env, g1: Gen, d1: Desc, g2: Gen, d2: Desc, n: nat, o0: Outcome, v1: Option<Value>,
                     v2: Option<Value>, fr: nat)
    requires Ready(c, g1, d1, n, o0, v1, fr) && Simple(d1)
    requires Ready(c, g2, d2, |g1.code|, Run(c, g1.code), v2, g1.freereg) && Simple(d2)
    requires Extends(g1, g2, |g1.code|)
    ensures Two(c, g2, d1, d2, n, o0, v1, v2, fr)
  {
  }

  /** The value of a constant operand. */
  function ConstValue(c: Env, k: Kind): Option<Value> {
    if k.VK? then Some(Const(c.k, k.info)) else ConstOf(k)
  }

  /** A constant operand is ready anywhere. */
  lemma ConstReady(c: Env, g: Gen, d1: Desc, d2: Desc, n: nat, o0: Outcome, v1: Option<Value>, v2: Option<Value>, fr: nat)
    requires Two(c, g, d1, d2, n, o0, v1, v2, fr) && !d1.k.VNonReloc?
    ensures Ready(c, g, d1, |g.code|, Run(c, g.code), ConstValue(c, d1.k), g.freereg) && n <= |g.code|
  {
    ExitIsPending(c.w, c.k, g.code, c.q, c.r);
    hide Exec, Shaped;
  }

  /** Loading a constant operand late, after the other operand. */
  lemma LoadLate(c: Env, g: Gen, d1: Desc, d2: Desc, n: nat, o0: Outcome, v1: Option<Value>, v2: Option<Value>, fr: nat)
    requires Two(c, g, d1, d2, n, o0, v1, v2, fr) && !d1.k.VNonReloc?
    requires Exp2AnyReg(g, d1).Ok? && Exp2AnyReg(g, d1).value.0.k <= c.k
    ensures var (g', e1) := Exp2AnyReg(g, d1).value;
            InRegister(e1) && Two(c, g', e1, d2, n, o0, v1, v2, fr) && Extends(g, g', n)
  {
    hide Two, Ready, Run, Extends, Exp2AnyReg;
    ConstReady(c, g, d1, d2, n, o0, v1, v2, fr);
    Exp2AnyRegReady(c, g, d1, |g.code|, Run(c, g.code), ConstValue(c, d1.k), g.freereg);
    LoadedLate(c, g, d1, d2, n, o0, v1, v2, fr, Exp2AnyReg(g, d1).value.0, Exp2AnyReg(g, d1).value.1);
  }

  lemma LoadedLate(c: Env, g: Gen, d1: Desc, d2: Desc, n: nat, o0: Outcome, v1: Option<Value>, v2: Option<Value>, fr: nat,
                   g': Gen, e1: Desc)
    requires Two(c, g, d1, d2, n, o0, v1, v2, fr) && !d1.k.VNonReloc? && InRegister(e1)
    requires Ready(c, g', e1, |g.code|, Run(c, g.code), ConstValue(c, d1.k), g.freereg) && Extends(g, g', |g.code|)
    ensures Two(c, g', e1, d2, n, o0, v1, v2, fr) && Extends(g, g', n)
  {
    hide Lists, Exec, Shaped;
  }

  /** A descriptor whose whole value is the outcome of the test just emitted. */
  predicate PureTest(d: Desc) {
    d.k.VJmp? && d.t == [] && d.f == []
  }

  function Outcome2(cmp: Option<bool>, cond: bool): Option<Value> {
    if cmp.None? then None else Some(BoolValue(cmp.value == cond))
  }

  /** The test and its jump make the comparison the main value. */
  lemma FinishCompareReady(c: Env, g: Gen, d1: Desc, d2: Desc, test: Instr<Dest>, cmp: Option<bool>, n: nat,
                           o0: Outcome, v1: Option<Value>, v2: Option<Value>, fr: nat)
    requires Two(c, g, d1, d2, n, o0, v1, v2, fr) && test.Cmp?
    requires o0.Fall? && Run(c, g.code).Fall? ==> Condition(c.w, c.k, test, Run(c, g.code).r) == cmp
    requires o0.Fall? && Run(c, g.code).Raise? ==> cmp.None?
    ensures var (g', d') := FinishCompare(g, d1, d2, test);
            && Ready(c, g', d', n, o0, Outcome2(cmp, test.cond), fr) && Extends(g, g', n) && PureTest(d')
  {
    var g1 := FreeExps(g, d1, d2);
    assert g1 == g.(freereg := fr);
    var (g', d') := FinishCompare(g, d1, d2, test);
    assert g'.code == g.code + [test, Jmp(Pending)];
    ExecCondJump(c.w, c.k, g.code, g.lasttarget, test, c.q, c.r);
    assert d' == ExpDesc(VJmp(|g.code| + 1), [], []);
    hide Exec, Shaped, Condition;
  }

  /** An operand and, after the code of the other one, that other one still to be brought somewhere. */
  ghost predicate Awaiting(c: Env, g1: Gen, first: Desc, g: Gen, second: Desc, n: nat, o0: Outcome, v1: Option<Value>,
                           v2: Option<Value>, fr: nat) {
    && Ready(c, g1, first, n, o0, v1, fr) && Simple(first)
    && Ready(c, g, second, |g1.code|, Run(c, g1.code), v2, g1.freereg) && !second.k.VLocal?
    && Extends(g1, g, |g1.code|) && n <= |g1.code|
  }

  lemma LoadSecond(c: Env, g1: Gen, first: Desc, g: Gen, second: Desc, n: nat, o0: Outcome, v1: Option<Value>,
                   v2: Option<Value>, fr: nat)
    requires Awaiting(c, g1, first, g, second, n, o0, v1, v2, fr)
    requires Exp2AnyReg(g, second).Ok? && Exp2AnyReg(g, second).value.0.k <= c.k
    ensures var (g', e) := Exp2AnyReg(g, second).value;
            InRegister(e) && Two(c, g', first, e, n, o0, v1, v2, fr) && Extends(g, g', n)
  {
    var (g', e) := Exp2AnyReg(g, second).value;
    Exp2AnyRegReady(c, g, second, |g1.code|, Run(c, g1.code), v2, g1.freereg);
    hide Exp2AnyReg, Ready;
    BothOperands(c, g1, first, g', e, n, o0, v1, v2, fr);
  }

  /** Asking for a register changes nothing when there is one. */
  lemma AlreadyInRegister(g: Gen, d: Desc)
    requires InRegister(d)
    ensures Exp2AnyReg(g, d) == Ok((g, d))
  {
  }

  // ----- < and <= -----

  function Order(w: World, less: bool, x: Value, y: Value): Option<bool> {
    if less then w.Lt(x, y) else w.Le(x, y)
  }

  /** The comparison of two operand values, either of which may have raised an error. */
  function Order2(w: World, less: bool, x: Option<Value>, y: Option<Value>): Option<bool> {
    if x.None? || y.None? then None else Order(w, less, x.value, y.value)
  }

  lemma SCValue(c: Env, code: ICode, d: Desc, r: Regs, v: Value)
    requires SCNumber(d).0.Some? && MainIs(c, code, d.k, r, v)
    ensures v == Immediate(SCNumber(d).0.value, SCNumber(d).1) && IsNumber(v)
  {
  }

  /** Where `codeorder` goes wrong: the float flag set while a float was refused as the right operand is
      still set when an integer is accepted as the left one. A float without jumps does no harm, because
      two numbers compare by value. */
  predicate Leaks(a: Desc, b: Desc) {
    a.k.VKInt? && SCNumber(a).0.Some? && SCNumber(b) == (None, true) && HasJumps(b)
  }

  /** A value the register of the right operand can have. */
  ghost predicate Possible(b: Desc, v: Value) {
    b.k.VKFlt? && !HasJumps(b) ==> v == Flt(b.k.x)
  }

  /** The left operand as the emitted test sees it: with a leaked flag, the float equal to the integer. */
  function Seen(a: Desc, b: Desc, va: Option<Value>): Option<Value> {
    if Leaks(a, b) && va.Some? then Some(Flt(a.k.i as real)) else va
  }

  /** The immediate operand that `codeorder` emits for its left operand stands for that operand, in every
      world and whatever the other register can hold, exactly when the flag does not leak. */
  lemma ImmediateExact(a: Desc, b: Desc, less: bool)
    requires SCNumber(a).0.Some? && SCNumber(b).0.None?
    ensures var x := Immediate(SCNumber(a).0.value, SCNumber(a).1);
            var y := Immediate(SCNumber(a).0.value, SCNumber(b).1 || SCNumber(a).1);
            (forall w: World, v: Value :: Possible(b, v) ==> Order(w, less, y, v) == Order(w, less, x, v)) <==> !Leaks(a, b)
  {
    var x := Immediate(SCNumber(a).0.value, SCNumber(a).1);
    var y := Immediate(SCNumber(a).0.value, SCNumber(b).1 || SCNumber(a).1);
    if Leaks(a, b) {
      var tell := (p: Value, q: Value) => Some(p.Flt?);
      var w := World(tell, tell, (i, j) => None);
      assert Possible(b, Nil) && Order(w, less, y, Nil) == Some(true) && Order(w, less, x, Nil) == Some(false);
    }
  }

  /** The operands of a comparison when `codeorder` is called: `a < b` with either evaluated first, and
      the one evaluated first a small number or in a register. */
  ghost predicate OrderOperands(c: Env, g: Gen, a: Desc, b: Desc, swapped: bool, g1: Gen, n: nat, o0: Outcome,
                                va: Option<Value>, vb: Option<Value>, fr: nat) {
    var first := if swapped then b else a;
    && (InRegister(first) || SCNumber(first).0.Some?)
    && (if swapped then Awaiting(c, g1, b, g, a, n, o0, vb, va, fr) else Awaiting(c, g1, a, g, b, n, o0, va, vb, fr))
  }

  /** The right operand is a small number. */
  lemma OrderRightImmediate(c: Env, g: Gen, a: Desc, b: Desc, swapped: bool, g1: Gen, n: nat, o0: Outcome,
                            va: Option<Value>, vb: Option<Value>, fr: nat)
    requires OrderOperands(c, g, a, b, swapped, g1, n, o0, va, vb, fr) && SCNumber(b).0.Some?
    requires Exp2AnyReg(g, a).Ok? && Exp2AnyReg(g, a).value.0.k <= c.k
    ensures var (g', e) := Exp2AnyReg(g, a).value;
            InRegister(e) && Two(c, g', e, b, n, o0, va, vb, fr) && Extends(g, g', n)
  {
    if swapped {
      LoadSecond(c, g1, b, g, a, n, o0, vb, va, fr);
      TwoSwap(c, Exp2AnyReg(g, a).value.0, b, Exp2AnyReg(g, a).value.1, n, o0, vb, va, fr);
    } else {
      SCSimple(g, b, |g1.code|);
      BothOperands(c, g1, a, g, b, n, o0, va, vb, fr);
      if InRegister(a) { AlreadyInRegister(g, a); } else { LoadLate(c, g, a, b, n, o0, va, vb, fr); }
    }
  }

  lemma SCSimple(g: Gen, d: Desc, n: nat)
    requires Lists(g, d, n) && SCNumber(d).0.Some?
    ensures Simple(d)
  {
    NoJumps(g, d, n);
  }

  /** The left operand is a small number and the right one is not. */
  lemma OrderLeftImmediate(c: Env, g: Gen, a: Desc, b: Desc, swapped: bool, g1: Gen, n: nat, o0: Outcome,
                           va: Option<Value>, vb: Option<Value>, fr: nat)
    requires OrderOperands(c, g, a, b, swapped, g1, n, o0, va, vb, fr) && SCNumber(a).0.Some? && SCNumber(b).0.None?
    requires Exp2AnyReg(g, b).Ok? && Exp2AnyReg(g, b).value.0.k <= c.k
    ensures var (g', e) := Exp2AnyReg(g, b).value;
            InRegister(e) && Two(c, g', a, e, n, o0, va, vb, fr) && Extends(g, g', n)
            && (o0.Fall? && Run(c, g'.code).Fall? ==> Possible(b, vb.value))
  {
    if swapped {
      SCSimple(g, a, |g1.code|);
      BothOperands(c, g1, b, g, a, n, o0, vb, va, fr);
      AlreadyInRegister(g, b);
      TwoSwap(c, g, b, a, n, o0, vb, va, fr);
    } else {
      LoadSecond(c, g1, a, g, b, n, o0, va, vb, fr);
      if b.k.VKFlt? && !HasJumps(b) { FloatOperand(c, g1, g, b, vb); }
    }
  }

  /** A float without jumps is the value of its operand. */
  lemma FloatOperand(c: Env, g1: Gen, g: Gen, b: Desc, vb: Option<Value>)
    requires Ready(c, g, b, |g1.code|, Run(c, g1.code), vb, g1.freereg) && b.k.VKFlt? && !HasJumps(b)
    requires Exp2AnyReg(g, b).Ok? && Exp2AnyReg(g, b).value.0.k <= c.k
    ensures Run(c, Exp2AnyReg(g, b).value.0.code).Fall? ==> vb == Some(Flt(b.k.x))
  {
    Exp2AnyRegReady(c, g, b, |g1.code|, Run(c, g1.code), vb, g1.freereg);
    NoJumps(g, b, |g1.code|);
    hide Exp2AnyReg, Sound, Lists;
  }

  lemma OrderRegisters(c: Env, g: Gen, a: Desc, b: Desc, swapped: bool, g1: Gen, n: nat, o0: Outcome,
                       va: Option<Value>, vb: Option<Value>, fr: nat)
    requires OrderOperands(c, g, a, b, swapped, g1, n, o0, va, vb, fr) && SCNumber(a).0.None? && SCNumber(b).0.None?
    requires Exp2AnyReg(g, a).Ok? && Exp2AnyReg(Exp2AnyReg(g, a).value.0, b).Ok?
    requires Exp2AnyReg(Exp2AnyReg(g, a).value.0, b).value.0.k <= c.k
    ensures var (g1, e1) := Exp2AnyReg(g, a).value; var (g', e2) := Exp2AnyReg(g1, b).value;
            InRegister(e1) && InRegister(e2) && Two(c, g', e1, e2, n, o0, va, vb, fr) && Extends(g, g', n)
  {
    if swapped {
      LoadSecond(c, g1, b, g, a, n, o0, vb, va, fr);
      var (g2, e1) := Exp2AnyReg(g, a).value;
      AlreadyInRegister(g2, b);
      TwoSwap(c, g2, b, e1, n, o0, vb, va, fr);
    } else {
      AlreadyInRegister(g, a);
      LoadSecond(c, g1, a, g, b, n, o0, va, vb, fr);
    }
  }

  /** What the immediate left operand decides. */
  lemma LeftImmediateDecides(c: Env, code: ICode, a: Desc, b: Desc, less: bool, reg: nat, s: Regs, x: Value, y: Value)
    requires SCNumber(a).0.Some? && SCNumber(b).0.None?
    requires MainIs(c, code, a.k, s, x) && Get(s, reg) == y && Possible(b, y)
    ensures var flag := SCNumber(b).1 || SCNumber(a).1; var op := if less then OpGtI else OpGeI;
            var test: Instr<Dest> := Cmp(op, reg, SCNumber(a).0.value, flag, true);
            Condition(c.w, c.k, test, s) == Order(c.w, less, Seen(a, b, Some(x)).value, y)
  {
    SCValue(c, code, a, s, x);
  }

  /** Only an immediate left operand beside a refused float is seen as something else. */
  lemma SeenLeft(a: Desc, b: Desc, va: Option<Value>)
    ensures SCNumber(b).0.Some? || SCNumber(a).0.None? ==> Seen(a, b, va) == va
  {
  }

  /** `codeorder` */
  lemma CodeOrderReady(c: Env, g: Gen, less: bool, a: Desc, b: Desc, swapped: bool, g1: Gen, n: nat, o0: Outcome,
                       va: Option<Value>, vb: Option<Value>, fr: nat)
    requires OrderOperands(c, g, a, b, swapped, g1, n, o0, va, vb, fr)
    requires CodeOrder(g, less, a, b).Ok? && CodeOrder(g, less, a, b).value.0.k <= c.k
    ensures var (g', d') := CodeOrder(g, less, a, b).value;
            && Ready(c, g', d', n, o0, Outcome2(Order2(c.w, less, Seen(a, b, va), vb), true), fr)
            && Extends(g, g', n) && PureTest(d')
  {
    hide OrderOperands, Two, Ready, Extends, Exp2AnyReg, Condition;
    SeenLeft(a, b, va);
    hide Leaks;
    var (im2, f2) := SCNumber(b);
    var (im1, f1) := SCNumber(a);
    if im2.Some? {
      var (g2, e) := Exp2AnyReg(g, a).value;
      OrderRightImmediate(c, g, a, b, swapped, g1, n, o0, va, vb, fr);
      var test := Cmp(if less then OpLtI else OpLeI, RegOf(e), im2.value, f2, true);
      RightImmediateTest(c, g2, less, e, b, n, o0, va, vb, fr);
      FinishCompareReady(c, g2, e, b, test, Order2(c.w, less, va, vb), n, o0, va, vb, fr);
      ExtendsStep(g, g2, FinishCompare(g2, e, b, test).0, n);
    } else if im1.Some? {
      var (g2, e) := Exp2AnyReg(g, b).value;
      OrderLeftImmediate(c, g, a, b, swapped, g1, n, o0, va, vb, fr);
      var test := Cmp(if less then OpGtI else OpGeI, RegOf(e), im1.value, f2 || f1, true);
      LeftImmediateTest(c, g2, less, a, b, e, n, o0, va, vb, fr);
      FinishCompareReady(c, g2, a, e, test, Order2(c.w, less, Seen(a, b, va), vb), n, o0, va, vb, fr);
      ExtendsStep(g, g2, FinishCompare(g2, a, e, test).0, n);
    } else {
      var (g2, e1) := Exp2AnyReg(g, a).value;
      var (g3, e2) := Exp2AnyReg(g2, b).value;
      OrderRegisters(c, g, a, b, swapped, g1, n, o0, va, vb, fr);
      var test := Cmp(if less then OpLt else OpLe, RegOf(e1), RegOf(e2), f2 || f1, true);
      RegistersTest(c, g3, less, e1, e2, f2 || f1, n, o0, va, vb, fr);
      FinishCompareReady(c, g3, e1, e2, test, Order2(c.w, less, va, vb), n, o0, va, vb, fr);
      ExtendsStep(g, g3, FinishCompare(g3, e1, e2, test).0, n);
    }
  }

  lemma ExtendsStep(g: Gen, g1: Gen, g2: Gen, n: nat)
    requires Extends(g, g1, n) && Extends(g1, g2, n)
    ensures Extends(g, g2, n)
  {
  }

  /** The test decides the order of the operand values, and an error in an operand is an error. */
  ghost predicate Tests(c: Env, g: Gen, test: Instr<Dest>, cmp: Option<bool>, o0: Outcome) {
    && test.Cmp?
    && (o0.Fall? && Run(c, g.code).Fall? ==> Condition(c.w, c.k, test, Run(c, g.code).r) == cmp)
    && (o0.Fall? && Run(c, g.code).Raise? ==> cmp.None?)
  }

  lemma RightImmediateTest(c: Env, g: Gen, less: bool, e: Desc, b: Desc, n: nat, o0: Outcome, va: Option<Value>,
                           vb: Option<Value>, fr: nat)
    requires Two(c, g, e, b, n, o0, va, vb, fr) && InRegister(e) && SCNumber(b).0.Some?
    ensures Tests(c, g, Cmp(if less then OpLtI else OpLeI, RegOf(e), SCNumber(b).0.value, SCNumber(b).1, true),
                  Order2(c.w, less, va, vb), o0)
  {
    if o0.Fall? && Run(c, g.code).Fall? { SCValue(c, g.code, b, Run(c, g.code).r, vb.value); }
  }

  lemma LeftImmediateTest(c: Env, g: Gen, less: bool, a: Desc, b: Desc, e: Desc, n: nat, o0: Outcome, va: Option<Value>,
                          vb: Option<Value>, fr: nat)
    requires Two(c, g, a, e, n, o0, va, vb, fr) && InRegister(e) && SCNumber(a).0.Some? && SCNumber(b).0.None?
    requires o0.Fall? && Run(c, g.code).Fall? ==> Possible(b, vb.value)
    ensures Tests(c, g, Cmp(if less then OpGtI else OpGeI, RegOf(e), SCNumber(a).0.value, SCNumber(b).1 || SCNumber(a).1, true),
                  Order2(c.w, less, Seen(a, b, va), vb), o0)
  {
    if o0.Fall? && Run(c, g.code).Fall? {
      LeftImmediateDecides(c, g.code, a, b, less, e.k.reg, Run(c, g.code).r, va.value, vb.value);
    }
  }

  lemma RegistersTest(c: Env, g: Gen, less: bool, e1: Desc, e2: Desc, flag: bool, n: nat, o0: Outcome, va: Option<Value>,
                      vb: Option<Value>, fr: nat)
    requires Two(c, g, e1, e2, n, o0, va, vb, fr) && InRegister(e1) && InRegister(e2)
    ensures Tests(c, g, Cmp(if less then OpLt else OpLe, RegOf(e1), RegOf(e2), flag, true), Order2(c.w, less, va, vb), o0)
  {
  }

  // ----- == and ~= -----

  /** The first operand of an equality after `luaK_infix`: in a register, or a constant without identity. */
  ghost predicate EqFirst(c: Env, d: Desc) {
    InRegister(d) || (Simple(d) && !d.k.VNonReloc? && ConstValue(c, d.k).Some? && !ConstValue(c, d.k).value.Ref?)
  }

  function Eq2(w: World, x: Option<Value>, y: Option<Value>): Option<bool> {
    if x.None? || y.None? then None else w.Eq(x.value, y.value)
  }

  lemma EqSymmetric(w: World, x: Value, y: Value)
    requires !x.Ref? || !y.Ref?
    ensures w.Eq(x, y) == w.Eq(y, x)
  {
  }

  lemma EqImmediateTest(c: Env, g: Gen, e: Desc, y: Desc, equal: bool, n: nat, o0: Outcome, v1: Option<Value>,
                        v2: Option<Value>, fr: nat)
    requires Two(c, g, e, y, n, o0, v1, v2, fr) && InRegister(e) && SCNumber(y).0.Some?
    ensures Tests(c, g, Cmp(OpEqI, RegOf(e), SCNumber(y).0.value, SCNumber(y).1, equal), Eq2(c.w, v1, v2), o0)
  {
    if o0.Fall? && Run(c, g.code).Fall? { SCValue(c, g.code, y, Run(c, g.code).r, v2.value); }
  }

  lemma EqTest(c: Env, g: Gen, e: Desc, y: Desc, flag: bool, equal: bool, n: nat, o0: Outcome, v1: Option<Value>,
               v2: Option<Value>, fr: nat)
    requires Two(c, g, e, y, n, o0, v1, v2, fr) && InRegister(e) && (InRegister(y) || y.k.VK?)
    ensures Tests(c, g, Cmp(if y.k.VK? then OpEqK else OpEq, RegOf(e), if y.k.VK? then y.k.info else RegOf(y), flag, equal),
                  Eq2(c.w, v1, v2), o0)
  {
  }

  /** `codeeq` once the second operand is at hand. */
  lemma EqFinish(c: Env, g: Gen, e: Desc, y: Desc, test: Instr<Dest>, n: nat, o0: Outcome, v1: Option<Value>,
                 v2: Option<Value>, fr: nat)
    requires Two(c, g, e, y, n, o0, v1, v2, fr) && Tests(c, g, test, Eq2(c.w, v1, v2), o0)
    ensures var (g', d') := FinishCompare(g, e, y, test);
            && Ready(c, g', d', n, o0, Outcome2(Eq2(c.w, v1, v2), test.cond), fr) && Extends(g, g', n) && PureTest(d')
  {
    FinishCompareReady(c, g, e, y, test, Eq2(c.w, v1, v2), n, o0, v1, v2, fr);
  }

  /** `exp2RK` of the operand that comes second, the first being in a register. */
  lemma SecondRK(c: Env, g1: Gen, first: Desc, g: Gen, second: Desc, n: nat, o0: Outcome, v1: Option<Value>,
                 v2: Option<Value>, fr: nat)
    requires Awaiting(c, g1, first, g, second, n, o0, v1, v2, fr)
    requires Exp2RK(g, second).Ok? && Exp2RK(g, second).value.0.k <= c.k
    ensures var (g', e, isK) := Exp2RK(g, second).value;
            && (if isK then e.k.VK? else InRegister(e))
            && Two(c, g', first, e, n, o0, v1, v2, fr) && Extends(g, g', n)
  {
    var (g', e, isK) := Exp2RK(g, second).value;
    Exp2RKReady(c, g, second, |g1.code|, Run(c, g1.code), v2, g1.freereg);
    hide Exp2RK, Ready;
    BothOperands(c, g1, first, g', e, n, o0, v1, v2, fr);
  }

  /** `exp2RK` of a constant that came first, after the second is in a register. */
  lemma LateRK(c: Env, g: Gen, d1: Desc, d2: Desc, n: nat, o0: Outcome, v1: Option<Value>, v2: Option<Value>, fr: nat)
    requires Two(c, g, d1, d2, n, o0, v1, v2, fr) && !d1.k.VNonReloc?
    requires Exp2RK(g, d1).Ok? && Exp2RK(g, d1).value.0.k <= c.k
    ensures var (g', e1, isK) := Exp2RK(g, d1).value;
            && (if isK then e1.k.VK? else InRegister(e1))
            && Two(c, g', e1, d2, n, o0, v1, v2, fr) && Extends(g, g', n)
  {
    hide Two, Ready, Run, Extends, Exp2RK;
    ConstReady(c, g, d1, d2, n, o0, v1, v2, fr);
    Exp2RKReady(c, g, d1, |g.code|, Run(c, g.code), ConstValue(c, d1.k), g.freereg);
    var (g', e1, isK) := Exp2RK(g, d1).value;
    if isK {
      RKLate(c, g, d1, d2, n, o0, v1, v2, fr, g', e1);
    } else {
      LoadedLate(c, g, d1, d2, n, o0, v1, v2, fr, g', e1);
    }
  }

  lemma RKLate(c: Env, g: Gen, d1: Desc, d2: Desc, n: nat, o0: Outcome, v1: Option<Value>, v2: Option<Value>, fr: nat,
               g': Gen, e1: Desc)
    requires Two(c, g, d1, d2, n, o0, v1, v2, fr) && !d1.k.VNonReloc? && e1.k.VK? && Simple(e1)
    requires Ready(c, g', e1, |g.code|, Run(c, g.code), ConstValue(c, d1.k), g.freereg) && Extends(g, g', |g.code|)
    ensures Two(c, g', e1, d2, n, o0, v1, v2, fr) && Extends(g, g', n)
  {
    hide Lists, Exec, Shaped;
  }

  /** The second half of `codeeq`, once for each way its operands can be found. */
  lemma EqWithRegisterFirst(c: Env, g: Gen, equal: bool, d1: Desc, d2: Desc, g1: Gen, n: nat, o0: Outcome,
                            v1: Option<Value>, v2: Option<Value>, fr: nat)
    requires Awaiting(c, g1, d1, g, d2, n, o0, v1, v2, fr) && InRegister(d1)
    requires EqWith(g, equal, d1, d2).Ok? && EqWith(g, equal, d1, d2).value.0.k <= c.k
    ensures var (g', d') := EqWith(g, equal, d1, d2).value;
            && Ready(c, g', d', n, o0, Outcome2(Eq2(c.w, v1, v2), equal), fr) && Extends(g, g', n) && PureTest(d')
  {
    if SCNumber(d2).0.Some? {
      EqImmediateSecond(c, g, equal, d1, d2, g1, n, o0, v1, v2, fr);
    } else {
      EqOtherSecond(c, g, equal, d1, d2, g1, n, o0, v1, v2, fr);
    }
    hide Awaiting, Ready, Extends, EqWith;
  }

  lemma EqImmediateSecond(c: Env, g: Gen, equal: bool, d1: Desc, d2: Desc, g1: Gen, n: nat, o0: Outcome,
                          v1: Option<Value>, v2: Option<Value>, fr: nat)
    requires Awaiting(c, g1, d1, g, d2, n, o0, v1, v2, fr) && InRegister(d1) && SCNumber(d2).0.Some?
    ensures EqWith(g, equal, d1, d2).Ok?
    ensures var (g', d') := EqWith(g, equal, d1, d2).value;
            && Ready(c, g', d', n, o0, Outcome2(Eq2(c.w, v1, v2), equal), fr) && Extends(g, g', n) && PureTest(d')
  {
    var (im, flag) := SCNumber(d2);
    SCSimple(g, d2, |g1.code|);
    BothOperands(c, g1, d1, g, d2, n, o0, v1, v2, fr);
    hide Awaiting, Two, Ready, Extends, Tests, SCNumber;
    EqImmediateTest(c, g, d1, d2, equal, n, o0, v1, v2, fr);
    EqFinish(c, g, d1, d2, Cmp(OpEqI, RegOf(d1), im.value, flag, equal), n, o0, v1, v2, fr);
  }

  lemma EqOtherSecond(c: Env, g: Gen, equal: bool, d1: Desc, d2: Desc, g1: Gen, n: nat, o0: Outcome,
                      v1: Option<Value>, v2: Option<Value>, fr: nat)
    requires Awaiting(c, g1, d1, g, d2, n, o0, v1, v2, fr) && InRegister(d1) && SCNumber(d2).0.None?
    requires EqWith(g, equal, d1, d2).Ok? && EqWith(g, equal, d1, d2).value.0.k <= c.k
    ensures var (g', d') := EqWith(g, equal, d1, d2).value;
            && Ready(c, g', d', n, o0, Outcome2(Eq2(c.w, v1, v2), equal), fr) && Extends(g, g', n) && PureTest(d')
  {
    hide Awaiting, Two, Ready, Extends, Tests, Exp2RK, SCNumber;
    var flag := SCNumber(d2).1;
    var (g2, e2, isK) := Exp2RK(g, d2).value;
    SecondRK(c, g1, d1, g, d2, n, o0, v1, v2, fr);
    if !isK { AlreadyInRegister(g2, e2); }
    EqTest(c, g2, d1, e2, flag, equal, n, o0, v1, v2, fr);
    var test := Cmp(if isK then OpEqK else OpEq, RegOf(d1), if isK then e2.k.info else RegOf(e2), flag, equal);
    EqFinish(c, g2, d1, e2, test, n, o0, v1, v2, fr);
    ExtendsStep(g, g2, FinishCompare(g2, d1, e2, test).0, n);
  }

  lemma EqWithConstFirst(c: Env, g: Gen, equal: bool, e: Desc, d1: Desc, n: nat, o0: Outcome,
                         v1: Option<Value>, v2: Option<Value>, fr: nat)
    requires Two(c, g, d1, e, n, o0, v1, v2, fr) && InRegister(e) && !d1.k.VNonReloc?
    requires EqWith(g, equal, e, d1).Ok? && EqWith(g, equal, e, d1).value.0.k <= c.k
    ensures var (g', d') := EqWith(g, equal, e, d1).value;
            && Ready(c, g', d', n, o0, Outcome2(Eq2(c.w, v2, v1), equal), fr) && Extends(g, g', n) && PureTest(d')
  {
    hide Two, Ready, Extends, Tests, Exp2RK;
    var (im, flag) := SCNumber(d1);
    if im.Some? {
      TwoSwap(c, g, d1, e, n, o0, v1, v2, fr);
      EqImmediateTest(c, g, e, d1, equal, n, o0, v2, v1, fr);
      EqFinish(c, g, e, d1, Cmp(OpEqI, RegOf(e), im.value, flag, equal), n, o0, v2, v1, fr);
    } else {
      var (g2, e1, isK) := Exp2RK(g, d1).value;
      LateRK(c, g, d1, e, n, o0, v1, v2, fr);
      TwoSwap(c, g2, e1, e, n, o0, v1, v2, fr);
      if !isK { AlreadyInRegister(g2, e1); }
      EqTest(c, g2, e, e1, flag, equal, n, o0, v2, v1, fr);
      var test := Cmp(if isK then OpEqK else OpEq, RegOf(e), if isK then e1.k.info else RegOf(e1), flag, equal);
      EqFinish(c, g2, e, e1, test, n, o0, v2, v1, fr);
      ExtendsStep(g, g2, FinishCompare(g2, e, e1, test).0, n);
    }
  }

  /** Before the old code falls through no value is promised. */
  lemma AnyValue(c: Env, g: Gen, d: Desc, n: nat, o0: Outcome, v: Option<Value>, v': Option<Value>, fr: nat)
    requires Ready(c, g, d, n, o0, v, fr) && (o0.Fall? ==> v == v')
    ensures Ready(c, g, d, n, o0, v', fr)
  {
  }

  /** The value of a constant operand is what the descriptor says. */
  lemma ConstantValue(c: Env, g: Gen, d: Desc, n: nat, o0: Outcome, v: Option<Value>, fr: nat)
    requires Ready(c, g, d, n, o0, v, fr) && EqFirst(c, d) && !InRegister(d) && o0.Fall? && v.Some?
    ensures !v.value.Ref?
  {
  }

  /** `codeeq` */
  lemma CodeEqReady(c: Env, g: Gen, equal: bool, d1: Desc, d2: Desc, g1: Gen, n: nat, o0: Outcome,
                    v1: Option<Value>, v2: Option<Value>, fr: nat)
    requires Awaiting(c, g1, d1, g, d2, n, o0, v1, v2, fr) && EqFirst(c, d1)
    requires CodeEq(g, equal, d1, d2).Ok? && CodeEq(g, equal, d1, d2).value.0.k <= c.k
    ensures var (g', d') := CodeEq(g, equal, d1, d2).value;
            && Ready(c, g', d', n, o0, Outcome2(Eq2(c.w, v1, v2), equal), fr) && Extends(g, g', n) && PureTest(d')
  {
    if d1.k.VNonReloc? {
      AlreadyInRegister(g, d1);
      EqWithRegisterFirst(c, g, equal, d1, d2, g1, n, o0, v1, v2, fr);
    } else {
      if o0.Fall? && v1.Some? {
        ConstantValue(c, g1, d1, n, o0, v1, fr);
        if v2.Some? { EqSymmetric(c.w, v1.value, v2.value); }
      }
      hide Awaiting, Two, Ready, Extends, EqWith, Exp2AnyReg;
      var (g2, e) := Exp2AnyReg(g, d2).value;
      LoadSecond(c, g1, d1, g, d2, n, o0, v1, v2, fr);
      EqWithConstFirst(c, g2, equal, e, d1, n, o0, v1, v2, fr);
      var (g', d') := EqWith(g2, equal, e, d1).value;
      AnyValue(c, g', d', n, o0, Outcome2(Eq2(c.w, v2, v1), equal), Outcome2(Eq2(c.w, v1, v2), equal), fr);
      ExtendsStep(g, g2, g', n);
    }
  }

  // ----- luaK_infix and luaK_posfix -----

  /** What `luaK_infix` leaves of the first operand of a comparison. */
  ghost predicate FirstOf(c: Env, op: RelOp, d: Desc) {
    Simple(d) && if op.Eq? || op.Ne? then EqFirst(c, d) else InRegister(d) || SCNumber(d).0.Some?
  }

  lemma InfixRelReady(c: Env, g: Gen, op: RelOp, d: Desc, n: nat, o0: Outcome, v: Option<Value>, fr: nat)
    requires Ready(c, g, d, n, o0, v, fr) && !d.k.VK?
    requires InfixRel(g, op, d).Ok? && InfixRel(g, op, d).value.0.k <= c.k
    ensures var (g', d') := InfixRel(g, op, d).value;
            Ready(c, g', d', n, o0, v, fr) && FirstOf(c, op, d') && Extends(g, g', n)
  {
    var d1 := DischargeVars(d);
    DischargeVarsReady(c, g, d, n, o0, v, fr);
    if op.Eq? || op.Ne? {
      if IsNumeral(d1) { NoJumps(g, d1, n); } else { Exp2RKReady(c, g, d1, n, o0, v, fr); }
      hide Yields, Exp2RK;
    } else if SCNumber(d1).0.Some? {
      SCSimple(g, d1, n);
    } else {
      Exp2AnyRegReady(c, g, d1, n, o0, v, fr);
      hide Yields, Exp2AnyReg;
    }
  }

  function Rel2(w: World, op: RelOp, x: Option<Value>, y: Option<Value>): Option<Value> {
    if x.None? || y.None? then None
    else
      var r := Compare(w, op, x.value, y.value);
      if r.None? then None else Some(BoolValue(r.value))
  }

  /** The first operand as `luaK_posfix` has it compared. */
  function SeenFirst(op: RelOp, d1: Desc, d2: Desc, v1: Option<Value>): Option<Value> {
    if op.Lt? || op.Le? then Seen(d1, d2, v1) else v1
  }

  /** What each test decides is the comparison it stands for. */
  lemma RelOfTest(w: World, op: RelOp, x: Option<Value>, y: Option<Value>)
    ensures Rel2(w, op, x, y) == match op
                                 case Eq => Outcome2(Eq2(w, x, y), true)
                                 case Ne => Outcome2(Eq2(w, x, y), false)
                                 case Lt => Outcome2(Order2(w, true, x, y), true)
                                 case Le => Outcome2(Order2(w, false, x, y), true)
                                 case Gt => Outcome2(Order2(w, true, y, x), true)
                                 case Ge => Outcome2(Order2(w, false, y, x), true)
  {
  }

  lemma PosfixRelReady(c: Env, g: Gen, op: RelOp, d1: Desc, d2: Desc, g1: Gen, n: nat, o0: Outcome,
                       v1: Option<Value>, v2: Option<Value>, fr: nat)
    requires Ready(c, g1, d1, n, o0, v1, fr) && FirstOf(c, op, d1) && n <= |g1.code|
    requires Ready(c, g, d2, |g1.code|, Run(c, g1.code), v2, g1.freereg) && Extends(g1, g, |g1.code|)
    requires PosfixRel(g, op, d1, d2).Ok? && PosfixRel(g, op, d1, d2).value.0.k <= c.k
    ensures var (g', d') := PosfixRel(g, op, d1, d2).value;
            Ready(c, g', d', n, o0, Rel2(c.w, op, SeenFirst(op, d1, d2, v1), v2), fr) && Extends(g, g', n) && PureTest(d')
  {
    var e2 := DischargeVars(d2);
    BothAwait(c, op, d1, g1, g, d2, n, o0, v1, v2, fr);
    hide CodeEq, CodeOrder, Awaiting, Ready, Extends, Run, Simple, EqFirst, Leaks, Rel2, Outcome2, Order2, Eq2;
    RelOfTest(c.w, op, SeenFirst(op, d1, e2, v1), v2);
    match op
    case Eq => CodeEqReady(c, g, true, d1, e2, g1, n, o0, v1, v2, fr);
    case Ne => CodeEqReady(c, g, false, d1, e2, g1, n, o0, v1, v2, fr);
    case Lt => CodeOrderReady(c, g, true, d1, e2, false, g1, n, o0, v1, v2, fr);
    case Le => CodeOrderReady(c, g, false, d1, e2, false, g1, n, o0, v1, v2, fr);
    case Gt => FirstIsNoFloat(op, d1, e2); CodeOrderReady(c, g, true, e2, d1, true, g1, n, o0, v2, v1, fr);
    case Ge => FirstIsNoFloat(op, d1, e2); CodeOrderReady(c, g, false, e2, d1, true, g1, n, o0, v2, v1, fr);
  }

  lemma BothAwait(c: Env, op: RelOp, d1: Desc, g1: Gen, g: Gen, d2: Desc, n: nat, o0: Outcome,
                  v1: Option<Value>, v2: Option<Value>, fr: nat)
    requires Ready(c, g1, d1, n, o0, v1, fr) && FirstOf(c, op, d1) && n <= |g1.code|
    requires Ready(c, g, d2, |g1.code|, Run(c, g1.code), v2, g1.freereg) && Extends(g1, g, |g1.code|)
    ensures Awaiting(c, g1, d1, g, DischargeVars(d2), n, o0, v1, v2, fr)
    ensures Leaks(d1, DischargeVars(d2)) == Leaks(d1, d2)
  {
    DischargeVarsReady(c, g, d2, |g1.code|, Run(c, g1.code), v2, g1.freereg);
    hide Ready, Extends, Run;
  }

  /** A first operand is never a refused float, so swapped operands do not leak. */
  lemma FirstIsNoFloat(op: RelOp, d1: Desc, d2: Desc)
    requires InRegister(d1) || SCNumber(d1).0.Some?
    ensures !Leaks(d2, d1)
  {
  }
}
