/** The code generated for an expression computes the expression. Every lemma speaks of a run that
    starts anywhere in the code that was there before: what that run did at the end of the old code is
    what it now does at the end of the new code, followed by the evaluation of the expression. */
module ExprCorrect {
  import opened Wrappers
  import opened LuaOps
  import opened ExprGen
  import opened ExecLemmas

  // ----- meaning of expressions -----

  function Compare(w: World, op: RelOp, a: Value, b: Value): Option<bool> {
    match op
    case Eq => w.Eq(a, b)
    case Ne => var e := w.Eq(a, b); if e.None? then None else Some(!e.value)
    case Lt => w.Lt(a, b)
    case Le => w.Le(a, b)
    case Gt => w.Lt(b, a)
    case Ge => w.Le(b, a)
  }

  /** The value of an expression over the registers of its local variables; `None` is a raised error. */
  function Eval(w: World, e: Expr, r: Regs): Option<Value> {
    match e
    case ELocal(i) => Some(Get(r, i))
    case ENil => Some(Nil)
    case ETrue => Some(True)
    case EFalse => Some(False)
    case EInt(i) => Some(Int(i))
    case EFlt(x) => Some(Flt(x))
    case EStr(s) => Some(Str(s))
    case ENot(a) => var v := Eval(w, a, r); if v.None? then None else Some(Not(v.value))
    case EAnd(a, b) => var v := Eval(w, a, r); if v.None? || !Truthy(v.value) then v else Eval(w, b, r)
    case EOr(a, b) => var v := Eval(w, a, r); if v.None? || Truthy(v.value) then v else Eval(w, b, r)
    case ERel(op, a, b) =>
      var v := Eval(w, a, r);
      if v.None? then None
      else
        var u := Eval(w, b, r);
        if u.None? then None
        else
          var c := Compare(w, op, v.value, u.value);
          if c.None? then None else Some(BoolValue(c.value))
  }

  /** Only nil and false are false; numbers compare by value, whatever their type; everything else is equal only to itself,
      objects also where their metamethod says so. */
  lemma ValuesCompare(w: World, op: RelOp, a: Value, b: Value)
    ensures Not(a) == if a.Nil? || a.False? then True else False
    ensures (a.Int? || a.Flt?) && (b.Int? || b.Flt?) ==>
              var x, y := if a.Int? then a.i as real else a.x, if b.Int? then b.i as real else b.x;
              Compare(w, op, a, b) == Some(match op
                                           case Eq => x == y
                                           case Ne => x != y
                                           case Lt => x < y
                                           case Le => x <= y
                                           case Gt => y < x
                                           case Ge => y <= x)
    ensures !((a.Int? || a.Flt?) && (b.Int? || b.Flt?)) && (a == b || !a.Ref? || !b.Ref?) ==>
              Compare(w, Eq, a, b) == Some(a == b) && Compare(w, Ne, a, b) == Some(a != b)
  {
  }

  /** Every local variable of the expression is one of the first `nvars` registers. */
  predicate Scoped(e: Expr, nvars: nat) {
    match e
    case ELocal(i) => i < nvars
    case ENot(a) => Scoped(a, nvars)
    case EAnd(a, b) => Scoped(a, nvars) && Scoped(b, nvars)
    case EOr(a, b) => Scoped(a, nvars) && Scoped(b, nvars)
    case ERel(_, a, b) => Scoped(a, nvars) && Scoped(b, nvars)
    case _ => true
  }

  // ----- what a descriptor promises -----

  /** At a jump of a patch list the test carries the value, or the list alone tells it. */
  ghost predicate ValueAt(code: ICode, j: nat, r: Regs, v: Value, b: bool) {
    Waiting(code, j) &&
    match code[j - 1]
    case TestSet(_, x, _) => v == Get(r, x)
    case _ => v == BoolValue(b)
  }

  ghost predicate MainIs(c: Env, code: ICode, k: Kind, r: Regs, v: Value) {
    match k
    case VNil => v == Nil
    case VTrue => v == True
    case VFalse => v == False
    case VK(i) => v == Const(c.k, i)
    case VKFlt(x) => v == Flt(x)
    case VKInt(i) => v == Int(i)
    case VKStr(s) => v == Str(s)
    case VNonReloc(x) => v == Get(r, x)
    case VLocal(x) => v == Get(r, x)
    case VReloc(pc) => pc < |code| && code[pc].NotOp? && v == Not(Get(r, code[pc].b))
    case VJmp(_) => v == False
  }

  /** The code that has run when the main value of a descriptor is about to be used. */
  function Body(g: Gen, d: Desc): ICode {
    if d.k.VReloc? then RemoveLast(g).code else g.code
  }

  /** The outcome `o` of the code so far yields the value `v`: it falls through with the main value, or
      it stops at a jump of the right list. Registers below `fr` keep what they had in `r0`; falling
      through may have changed register `x`. */
  ghost predicate Delivers(c: Env, code: ICode, d: Desc, o: Outcome, v: Option<Value>, r0: Regs, fr: nat, x: nat) {
    match o
    case Raise => v.None?
    case Stuck => false
    case Fall(r) => v.Some? && Same(r0, r, fr, x) && MainIs(c, code, d.k, r, v.value)
    case Exit(j, r) =>
      && v.Some? && Same(r0, r, fr, NO_REG)
      && (|| (j in d.t && Truthy(v.value) && ValueAt(code, j, r, v.value, true))
          || (j in d.f && !Truthy(v.value) && ValueAt(code, j, r, v.value, false))
          || (d.k == VJmp(j) && v.value == True))
  }

  /** Where the jumps of a descriptor are: after position `n`, all waiting, all different. */
  ghost predicate Lists(g: Gen, d: Desc, n: nat) {
    && (forall j :: j in d.t || j in d.f ==> n < j && Waiting(g.code, j))
    && NoDup(d.t) && NoDup(d.f)
    && (forall j :: j in d.t ==> j !in d.f)
    && (d.k.VJmp? ==>
          var p := d.k.pc;
          && n < p && p == |g.code| - 1 && Waiting(g.code, p) && g.code[p - 1].Cmp?
          && p !in d.t && p !in d.f && g.lasttarget < p)
    && (d.k.VReloc? ==>
          n <= d.k.pc && d.k.pc == |g.code| - 1 && g.lasttarget <= d.k.pc && g.code[d.k.pc].NotOp?)
  }

  /** The register a descriptor owns, when expressions started with `fr` free. */
  ghost predicate Owns(g: Gen, d: Desc, fr: nat) {
    && g.nvars <= fr < MAXREGS && g.freereg < MAXREGS
    && match d.k
       case VNonReloc(x) => if x < g.nvars then g.freereg == fr else x == fr && g.freereg == fr + 1
       case VLocal(x) => x < g.nvars && g.freereg == fr
       case _ => g.freereg == fr
  }

  /** The generator state is fit for a run from `c.q`, which must not start just after a LOADNIL that
      could still be widened. The code before `c.q` may be anything. */
  ghost predicate Sound(c: Env, g: Gen) {
    && Shaped(g.code, g.lasttarget, c.q)
    && g.k <= c.k
    && c.q <= |g.code|
    && (c.q == |g.code| && g.lasttarget < |g.code| ==> !g.code[c.q - 1].LoadNil?)
  }

  /** The state and descriptor `(g, d)` come from code of length `n` whose run had outcome `o0`, and add
      to it the evaluation of an expression with value `v`. */
  ghost predicate Yields(c: Env, g: Gen, d: Desc, n: nat, o0: Outcome, v: Option<Value>, fr: nat, x: nat) {
    && Sound(c, g) && (d.k.VReloc? ==> Sound(c, RemoveLast(g))) && Lists(g, d, n)
    && c.q <= n <= |Body(g, d)|
    && (o0.Exit? ==> o0.at < n)
    && match o0
       case Fall(r0) => Delivers(c, g.code, d, Run(c, Body(g, d)), v, r0, fr, x)
       case _ => Run(c, Body(g, d)) == o0
  }

  /** Code before position `n` stays, except that a LOADNIL may widen; constants are only added. */
  ghost predicate Extends(g: Gen, g': Gen, n: nat) {
    && n <= |g.code| && n <= |g'.code| && g.k <= g'.k && g.nvars == g'.nvars
    && forall i: nat :: i < n ==> g'.code[i] == g.code[i] || (g.code[i].LoadNil? && g'.code[i].LoadNil?)
  }

  // ----- loading the main value into a register -----

  /** Tests and jumps of the old code are still there. */
  ghost predicate KeepsTests(code: ICode, code': ICode) {
    && |code| <= |code'|
    && forall i: nat :: i < |code| && (code[i].IsTest() || code[i].Jmp?) ==> code'[i] == code[i]
  }

  /** The code now runs on from where it fell through, and leaves the main value in `reg`. */
  lemma AfterLoad(c: Env, g: Gen, d: Desc, g': Gen, reg: nat, n: nat, o0: Outcome, v: Option<Value>, fr: nat)
    requires Yields(c, g, d, n, o0, v, fr, NO_REG) && !d.k.VReloc? && !d.k.VJmp? && reg < MAXREGS
    requires Sound(c, g') && KeepsTests(g.code, g'.code)
    requires var o := Run(c, g.code);
             if o.Fall? then v.Some? && Run(c, g'.code) == Fall(Put(o.r, reg, v.value)) else Run(c, g'.code) == o
    ensures Yields(c, g', d.(k := VNonReloc(reg)), n, o0, v, fr, reg)
  {
    forall j | j in d.t || j in d.f ensures n < j && Waiting(g'.code, j) {
      assert Waiting(g.code, j);
    }
  }

  lemma LoadPlain(c: Env, g: Gen, d: Desc, i: Instr<Dest>, reg: nat, n: nat, o0: Outcome, v: Option<Value>, fr: nat)
    requires Yields(c, g, d, n, o0, v, fr, NO_REG) && !d.k.VReloc? && !d.k.VJmp? && reg < MAXREGS && Plain(i)
    requires var o := Run(c, g.code); o.Fall? ==> v.Some? && Load(c.k, i, o.r) == Put(o.r, reg, v.value)
    ensures Yields(c, Emit(g, i), d.(k := VNonReloc(reg)), n, o0, v, fr, reg)
  {
    ExecPlain(c.w, c.k, g.code, g.lasttarget, i, c.q, c.r);
    AfterLoad(c, g, d, Emit(g, i), reg, n, o0, v, fr);
  }

  lemma LoadConst(c: Env, g: Gen, d: Desc, idx: nat, reg: nat, n: nat, o0: Outcome, v: Option<Value>, fr: nat)
    requires Yields(c, g, d, n, o0, v, fr, NO_REG) && !d.k.VReloc? && !d.k.VJmp? && reg < MAXREGS
    requires Run(c, g.code).Fall? ==> v == Some(Const(c.k, idx))
    ensures Yields(c, EmitK(g, reg, idx), d.(k := VNonReloc(reg)), n, o0, v, fr, reg)
  {
    if idx <= MAXARG_BX {
      LoadPlain(c, g, d, LoadK(reg, idx), reg, n, o0, v, fr);
    } else {
      ExecLoadKX(c.w, c.k, g.code, g.lasttarget, reg, idx, c.q, c.r);
      assert EmitK(g, reg, idx).code == g.code + [LoadKX(reg), ExtraArg(idx)];
      AfterLoad(c, g, d, EmitK(g, reg, idx), reg, n, o0, v, fr);
    }
  }

  lemma LoadNilInto(c: Env, g: Gen, d: Desc, reg: nat, n: nat, o0: Outcome, v: Option<Value>, fr: nat)
    requires Yields(c, g, d, n, o0, v, fr, NO_REG) && d.k.VNil? && reg < MAXREGS
    ensures Yields(c, EmitNil(g, reg), d.(k := VNonReloc(reg)), n, o0, v, fr, reg)
  {
    if MergesNil(g, reg) {
      var p := g.code[|g.code| - 1];
      var g' := EmitNil(g, reg);
      var q := g'.code[|g.code| - 1];
      ExecWiderNil(c.w, c.k, g.code, g.lasttarget, q.a, q.n, c.q, c.r);
      var o := Run(c, g.code);
      if o.Fall? {
        forall i: nat | i < MAXREGS ensures PutNil(o.r, q.a, q.n)[i] == Put(o.r, reg, Nil)[i] {
          assert PutNil(o.r, p.a, p.n)[i] == o.r[i];
        }
        assert PutNil(o.r, q.a, q.n) == Put(o.r, reg, Nil);
      }
      AfterLoad(c, g, d, g', reg, n, o0, v, fr);
    } else {
      var o := Run(c, g.code);
      if o.Fall? { assert PutNil(o.r, reg, 0) == Put(o.r, reg, Nil); }
      LoadPlain(c, g, d, LoadNil(reg, 0), reg, n, o0, v, fr);
    }
  }

  /** Adding a constant changes nothing but the table. */
  lemma AddKYields(c: Env, g: Gen, d: Desc, u: Value, n: nat, o0: Outcome, v: Option<Value>, fr: nat, x: nat)
    requires Yields(c, g, d, n, o0, v, fr, x)
    requires AddK(g, u).Ok? && AddK(g, u).value.0.k <= c.k
    ensures var (g1, idx) := AddK(g, u).value;
            Yields(c, g1, d, n, o0, v, fr, x) && Extends(g, g1, |g.code|) && Const(c.k, idx) == u
            && g1 == g.(k := g1.k) && idx < |g1.k| && g1.k[idx] == u
  {
  }

  lemma DischargeReloc(c: Env, g: Gen, d: Desc, reg: nat, n: nat, o0: Outcome, v: Option<Value>, fr: nat)
    requires Yields(c, g, d, n, o0, v, fr, NO_REG) && d.k.VReloc? && reg < MAXREGS
    ensures Yields(c, g.(code := SetDest(g.code, d.k.pc, reg)), d.(k := VNonReloc(reg)), n, o0, v, fr, reg)
  {
    var m := |g.code| - 1;
    var pre := g.code[..m];
    var i := NotOp(reg, g.code[m].b);
    var code' := SetDest(g.code, d.k.pc, reg);
    assert code' == pre + [i];
    if m > c.q { assert ShapedAt(g.code, g.lasttarget, m - 1); }
    ShapedPrefix(g.code, g.lasttarget, m, c.q);
    ExecPlain(c.w, c.k, pre, g.lasttarget, i, c.q, c.r);
    hide Exec, Shaped, Delivers;
    forall j | j in d.t || j in d.f ensures n < j && Waiting(code', j) {
      assert Waiting(g.code, j);
    }
    if o0.Fall? { RelocDelivers(c, g, d, reg, n, Run(c, pre), v, o0.r, fr); }
  }

  /** The last NOT with a register to write to: the value is there, and the exits are as they were. */
  lemma RelocDelivers(c: Env, g: Gen, d: Desc, reg: nat, n: nat, o: Outcome, v: Option<Value>, r0: Regs, fr: nat)
    requires Lists(g, d, n) && Delivers(c, g.code, d, o, v, r0, fr, NO_REG) && d.k.VReloc? && reg < MAXREGS
    ensures var code' := SetDest(g.code, d.k.pc, reg); var i: Instr<Dest> := NotOp(reg, g.code[|g.code| - 1].b);
            Delivers(c, code', d.(k := VNonReloc(reg)), if o.Fall? then Fall(Load(c.k, i, o.r)) else o, v, r0, fr, reg)
  {
    if o.Exit? { assert Waiting(g.code, o.at); }
  }

  lemma LoadNewConst(c: Env, g: Gen, d: Desc, u: Value, reg: nat, n: nat, o0: Outcome, v: Option<Value>, fr: nat)
    requires Yields(c, g, d, n, o0, v, fr, NO_REG) && !d.k.VReloc? && !d.k.VJmp? && reg < MAXREGS
    requires Run(c, g.code).Fall? ==> v == Some(u)
    requires AddK(g, u).Ok? && AddK(g, u).value.0.k <= c.k
    ensures var (g1, idx) := AddK(g, u).value;
            Yields(c, EmitK(g1, reg, idx), d.(k := VNonReloc(reg)), n, o0, v, fr, reg)
  {
    var (g1, idx) := AddK(g, u).value;
    AddKYields(c, g, d, u, n, o0, v, fr, NO_REG);
    LoadConst(c, g1, d, idx, reg, n, o0, v, fr);
  }

  /** `discharge2reg` only adds code and constants. */
  lemma Discharge2RegExtends(g: Gen, d: Desc, reg: nat, n: nat)
    requires n <= |RemoveLast(g).code| || (!d.k.VReloc? && n <= |g.code|)
    requires d.k.VReloc? ==> d.k.pc == |g.code| - 1
    requires Discharge2Reg(g, d, reg).Ok?
    ensures var (g', d') := Discharge2Reg(g, d, reg).value;
            && d' == (if d.k.VJmp? then d else d.(k := VNonReloc(reg)))
            && Extends(g, g', n) && g'.freereg == g.freereg && |g.code| <= |g'.code|
            && KeepsTests(g.code, g'.code) && (d.k.VJmp? ==> g' == g) && g'.lasttarget == g.lasttarget
  {
    hide AddK, EmitK, EmitNil, EmitInt, EmitFlt;
  }

  /** `discharge2reg` on anything but a comparison leaves the value in the register. */
  lemma Discharge2RegYields(c: Env, g: Gen, d: Desc, reg: nat, n: nat, o0: Outcome, v: Option<Value>, fr: nat)
    requires Yields(c, g, d, n, o0, v, fr, NO_REG) && !d.k.VJmp? && reg < MAXREGS
    requires Discharge2Reg(g, d, reg).Ok? && Discharge2Reg(g, d, reg).value.0.k <= c.k
    ensures var (g', _) := Discharge2Reg(g, d, reg).value;
            Yields(c, g', d.(k := VNonReloc(reg)), n, o0, v, fr, reg)
  {
    hide Lists, Sound, EmitK, AddK;
    var o := Run(c, g.code);
    match DischargeVars(d).k
    case VNil => LoadNilInto(c, g, d, reg, n, o0, v, fr);
    case VFalse => LoadPlain(c, g, d, LoadFalse(reg), reg, n, o0, v, fr);
    case VTrue => LoadPlain(c, g, d, LoadTrue(reg), reg, n, o0, v, fr);
    case VKStr(s) => LoadNewConst(c, g, d, Str(s), reg, n, o0, v, fr);
    case VK(idx) => LoadConst(c, g, d, idx, reg, n, o0, v, fr);
    case VKFlt(x) => FltYields(c, g, d, reg, n, o0, v, fr);
    case VKInt(i) =>
      if FitsBx(i) {
        LoadPlain(c, g, d, LoadI(reg, i), reg, n, o0, v, fr);
      } else {
        LoadNewConst(c, g, d, Int(i), reg, n, o0, v, fr);
      }
    case VReloc(_) => DischargeReloc(c, g, d, reg, n, o0, v, fr);
    case VNonReloc(r) => RegisterYields(c, g, d, reg, n, o0, v, fr);
  }

  lemma FltYields(c: Env, g: Gen, d: Desc, reg: nat, n: nat, o0: Outcome, v: Option<Value>, fr: nat)
    requires Yields(c, g, d, n, o0, v, fr, NO_REG) && d.k.VKFlt? && reg < MAXREGS
    requires EmitFlt(g, reg, d.k.x).Ok? && EmitFlt(g, reg, d.k.x).value.k <= c.k
    ensures Yields(c, EmitFlt(g, reg, d.k.x).value, d.(k := VNonReloc(reg)), n, o0, v, fr, reg)
  {
    var fi := FltToInt(d.k.x);
    if fi.Some? && FitsBx(fi.value) {
      LoadPlain(c, g, d, LoadF(reg, fi.value), reg, n, o0, v, fr);
    } else {
      LoadNewConst(c, g, d, Flt(d.k.x), reg, n, o0, v, fr);
    }
  }

  lemma RegisterYields(c: Env, g: Gen, d: Desc, reg: nat, n: nat, o0: Outcome, v: Option<Value>, fr: nat)
    requires Yields(c, g, d, n, o0, v, fr, NO_REG) && DischargeVars(d).k.VNonReloc? && reg < MAXREGS
    ensures Yields(c, if DischargeVars(d).k.reg != reg then Emit(g, Move(reg, DischargeVars(d).k.reg)) else g,
                   d.(k := VNonReloc(reg)), n, o0, v, fr, reg)
  {
    var r := DischargeVars(d).k.reg;
    if r != reg { LoadPlain(c, g, d, Move(reg, r), reg, n, o0, v, fr); }
  }

  // ----- giving the exits their targets -----

  /** A jump of `list` that carries no value must land where `value` is loaded into `reg`. */
  ghost predicate Pad(c: Env, code: ICode, list: seq<nat>, pad: int, reg: nat, value: Value) {
    || (forall j :: j in list ==> Fetch(code, Control(code, j)).TestSet?)
    || (&& 0 <= pad < |code| && (forall j :: j in list ==> j < pad) && (pad >= 1 ==> !code[pad - 1].IsTest())
        && forall r: Regs :: Exec(c.w, c.k, code, pad, r) == Fall(Put(r, reg, value)))
  }

  lemma PadPatchable(c: Env, g: Gen, list: seq<nat>, pad: int, reg: nat, value: Value)
    requires Shaped(g.code, g.lasttarget, c.q) && NoDup(list) && forall j :: j in list ==> c.q < j && Waiting(g.code, j)
    requires Pad(c, g.code, list, pad, reg, value)
    ensures Patchable(g.code, list, |g.code|, pad, |g.code|)
  {
    if |g.code| > c.q { assert ShapedAt(g.code, g.lasttarget, |g.code| - 1); }
  }

  /** Where a run that stopped at a jump of the list gets to after the list is patched. */
  lemma LandsWith(c: Env, code: ICode, code': ICode, lt: nat, list: seq<nat>, pad: int, reg: nat, j: nat, r: Regs,
                  v: Value, b: bool)
    requires Shaped(code, lt, c.q) && c.q < j && j in list && ValueAt(code, j, r, v, b) && reg < MAXREGS
    requires Patchable(code, list, |code|, pad, |code|) && Pad(c, code, list, pad, reg, BoolValue(b))
    requires PatchList(code, list, |code|, reg, pad) == Ok(code')
    ensures Exec(c.w, c.k, code', TargetOf(code, j, |code|, pad), Assign(code, j, reg, r)) == Fall(Put(r, reg, v))
  {
    var t := TargetOf(code, j, |code|, pad);
    var s := Assign(code, j, reg, r);
    assert forall i :: i in list ==> Waiting(code, i);
    PatchListExec(c.w, c.k, code, lt, list, |code|, reg, pad, |code|, t, s);
    PatchListShape(code, lt, list, |code|, reg, pad, |code|, c.q);
    if code[j - 1].TestSet? { assert s == Put(r, reg, v); }
  }

  /** What patching one list leaves in place: the other list, and the code before both. */
  lemma PatchKeeps(g: Gen, list: seq<nat>, other: seq<nat>, n: nat, reg: nat, pad: int, code': ICode, q: nat)
    requires Shaped(g.code, g.lasttarget, q) && n <= |g.code|
    requires forall j :: j in list || j in other ==> n < j && Waiting(g.code, j)
    requires forall j :: j in list ==> j !in other
    requires Patchable(g.code, list, |g.code|, pad, |g.code|)
    requires PatchList(g.code, list, |g.code|, reg, pad) == Ok(code')
    ensures Shaped(code', |code'|, q) && |code'| == |g.code|
    ensures forall i: nat :: i < n ==> code'[i] == g.code[i]
    ensures forall j :: j in other ==> Waiting(g.code, j) && Waiting(code', j) && code'[j - 1] == g.code[j - 1]
  {
    PatchListShape(g.code, g.lasttarget, list, |g.code|, reg, pad, |g.code|, q);
    assert forall i :: i in list ==> Waiting(g.code, i);
    forall j | j in other ensures Waiting(g.code, j) && Waiting(code', j) && code'[j - 1] == g.code[j - 1] {
      assert Waiting(g.code, j);
    }
    forall i: nat | i < n ensures code'[i] == g.code[i] {
      assert i !in list && i + 1 !in list;
    }
  }

  lemma PatchOneSideShape(c: Env, g: Gen, d: Desc, n: nat, reg: nat, pad: int, side: bool, code': ICode)
    requires Sound(c, g) && Lists(g, d, n) && c.q <= n <= |g.code| && !d.k.VJmp? && !d.k.VReloc?
    requires var list := if side then d.t else d.f;
             && Patchable(g.code, list, |g.code|, pad, |g.code|)
             && PatchList(g.code, list, |g.code|, reg, pad) == Ok(code')
    ensures var g' := Label(g).(code := code'); var other := if side then d.f else d.t;
            && Sound(c, g') && Lists(g', if side then d.(t := []) else d.(f := []), n) && Extends(g, g', n)
            && forall j :: j in other ==> Waiting(g.code, j) && Waiting(code', j) && code'[j - 1] == g.code[j - 1]
  {
    if side {
      PatchKeeps(g, d.t, d.f, n, reg, pad, code', c.q);
    } else {
      PatchKeeps(g, d.f, d.t, n, reg, pad, code', c.q);
    }
  }

  lemma PatchOneSide(c: Env, g: Gen, d: Desc, n: nat, o0: Outcome, v: Option<Value>, fr: nat, reg: nat,
                     pad: int, side: bool, code': ICode)
    requires Yields(c, g, d, n, o0, v, fr, reg) && d.k == VNonReloc(reg) && reg < MAXREGS
    requires var list := if side then d.t else d.f;
             && Pad(c, g.code, list, pad, reg, BoolValue(side))
             && PatchList(g.code, list, |g.code|, reg, pad) == Ok(code')
    ensures var g' := Label(g).(code := code');
            Yields(c, g', if side then d.(t := []) else d.(f := []), n, o0, v, fr, reg) && Extends(g, g', n)
  {
    hide PatchList, Exec;
    var list := if side then d.t else d.f;
    PadPatchable(c, g, list, pad, reg, BoolValue(side));
    PatchOneSideShape(c, g, d, n, reg, pad, side, code');
    PatchListExec(c.w, c.k, g.code, g.lasttarget, list, |g.code|, reg, pad, |g.code|, c.q, c.r);
    var o := Run(c, g.code);
    var g' := Label(g).(code := code');
    var d' := if side then d.(t := []) else d.(f := []);
    if o0.Fall? {
      if o.Exit? && o.at in list {
        LandsWith(c, g.code, code', g.lasttarget, list, pad, reg, o.at, o.r, v.value, side);
        assert Delivers(c, code', d', Run(c, code'), v, o0.r, fr, reg);
      } else {
        assert Run(c, code') == o;
        assert Delivers(c, code', d', o, v, o0.r, fr, reg);
      }
    }
  }

  // ----- exp2reg -----

  /** More code that ends with the value in `reg`, whatever the code before fell through with. */
  lemma AfterBools(c: Env, g: Gen, d: Desc, g2: Gen, reg: nat, n: nat, o0: Outcome, v: Option<Value>, fr: nat, x: nat)
    requires Yields(c, g, d, n, o0, v, fr, x) && !d.k.VReloc? && (x == NO_REG || x == reg)
    requires Sound(c, g2) && KeepsTests(g.code, g2.code)
    requires var o := Run(c, g.code); var o2 := Run(c, g2.code);
             if o.Fall? && o0.Fall?
             then o2.Fall? && Same(o.r, o2.r, fr, reg) && v == Some(Get(o2.r, reg))
             else o2 == o
    ensures Yields(c, g2, ExpDesc(VNonReloc(reg), TrueExits(d), d.f), n, o0, v, fr, reg)
  {
    forall j | j in TrueExits(d) || j in d.f ensures n < j && Waiting(g2.code, j) {
      assert Waiting(g.code, j);
    }
  }

  /** LFALSESKIP and LOADTRUE at the end of the code: two places to jump to, and falling into them
      loads false. */
  lemma BoolsExec(w: World, k: seq<Value>, code: ICode, lt: nat, reg: nat, pc: nat, r: Regs)
    requires Shaped(code, lt, pc) && pc <= |code|
    ensures var code2 := code + [LFalseSkip(reg), LoadTrue(reg)];
            && Shaped(code2, |code2|, pc)
            && Exec(w, k, code2, pc, r) == (
               match Exec(w, k, code, pc, r)
               case Fall(s) => Fall(Put(s, reg, False))
               case o => o)
            && (forall s: Regs :: Exec(w, k, code2, |code|, s) == Fall(Put(s, reg, False)))
            && (forall s: Regs :: Exec(w, k, code2, |code| + 1, s) == Fall(Put(s, reg, True)))
  {
    var code2 := code + [LFalseSkip(reg), LoadTrue(reg)];
    ExecAppend(w, k, code, [LFalseSkip(reg), LoadTrue(reg)], lt, pc, r);
    forall i: nat | pc <= i < |code2| ensures ShapedAt(code2, |code2|, i) {
      if i < |code| { assert ShapedAt(code, lt, i); }
    }
  }

  /** The same with a jump around them. */
  lemma SkippedBoolsExec(w: World, k: seq<Value>, code: ICode, lt: nat, reg: nat, pc: nat, r: Regs)
    requires Shaped(code, lt, pc) && pc <= |code|
    ensures var code2 := code + [Jmp(To(|code| + 3)), LFalseSkip(reg), LoadTrue(reg)];
            && Shaped(code2, |code2|, pc)
            && Exec(w, k, code2, pc, r) == Exec(w, k, code, pc, r)
            && (forall s: Regs :: Exec(w, k, code2, |code| + 1, s) == Fall(Put(s, reg, False)))
            && (forall s: Regs :: Exec(w, k, code2, |code| + 2, s) == Fall(Put(s, reg, True)))
  {
    var more := [Jmp(To(|code| + 3)), LFalseSkip(reg), LoadTrue(reg)];
    var code2 := code + more;
    ExecAppend(w, k, code, more, lt, pc, r);
    forall i: nat | pc <= i < |code2| ensures ShapedAt(code2, |code2|, i) {
      if i < |code| { assert ShapedAt(code, lt, i); }
    }
  }

  /** What `LoadBools` emits. */
  lemma LoadBoolsCode(g: Gen, reg: nat, isTest: bool, q: nat)
    requires Shaped(g.code, g.lasttarget, q) && q < |g.code| && LoadBools(g, reg, isTest).Ok?
    ensures var (g2, pf, pt) := LoadBools(g, reg, isTest).value;
            && g2 == g.(code := g2.code, lasttarget := |g2.code|) && pt == pf + 1
            && pf == |g.code| + (if isTest then 0 else 1)
            && g2.code == g.code + (if isTest then [LFalseSkip(reg), LoadTrue(reg)]
                                    else [Jmp(To(|g.code| + 3)), LFalseSkip(reg), LoadTrue(reg)])
  {
    if !isTest {
      assert ShapedAt(g.code, g.lasttarget, |g.code| - 1);
      var code3 := g.code + [Jmp(Pending)] + [LFalseSkip(reg)] + [LoadTrue(reg)];
      assert PatchList(code3, [|g.code|], |code3|, NO_REG, |code3|)
          == PatchJump(code3, |g.code|, |code3|, NO_REG, |code3|) by {
        assert [|g.code|][1..] == [];
      }
    }
  }

  /** Running on through what `LoadBools` emits, or jumping to one of its two loads. */
  lemma LoadBoolsRun(c: Env, g: Gen, reg: nat, isTest: bool)
    requires Sound(c, g) && c.q < |g.code| && LoadBools(g, reg, isTest).Ok?
    ensures var (g2, pf, pt) := LoadBools(g, reg, isTest).value; var o := Run(c, g.code);
            && Sound(c, g2) && KeepsTests(g.code, g2.code) && Extends(g, g2, |g.code|)
            && Run(c, g2.code) == (if o.Fall? && isTest then Fall(Put(o.r, reg, False)) else o)
            && (forall s: Regs :: Exec(c.w, c.k, g2.code, pf, s) == Fall(Put(s, reg, False)))
            && (forall s: Regs :: Exec(c.w, c.k, g2.code, pt, s) == Fall(Put(s, reg, True)))
  {
    LoadBoolsCode(g, reg, isTest, c.q);
    hide LoadBools, Exec, Shaped;
    if isTest {
      BoolsExec(c.w, c.k, g.code, g.lasttarget, reg, c.q, c.r);
    } else {
      SkippedBoolsExec(c.w, c.k, g.code, g.lasttarget, reg, c.q, c.r);
    }
  }

  /** `LoadBools` makes the value available in `reg` and gives both kinds of valueless jump a target. */
  lemma LoadBoolsYields(c: Env, g: Gen, d: Desc, reg: nat, n: nat, o0: Outcome, v: Option<Value>, fr: nat, x: nat)
    requires Yields(c, g, d, n, o0, v, fr, x) && reg < MAXREGS
    requires (d.k.VJmp? && x == NO_REG) || (d.k == VNonReloc(reg) && x == reg)
    requires LoadBools(g, reg, d.k.VJmp?).Ok? && (TrueExits(d) != [] || d.f != [])
    ensures var (g2, pf, pt) := LoadBools(g, reg, d.k.VJmp?).value;
            && Yields(c, g2, ExpDesc(VNonReloc(reg), TrueExits(d), d.f), n, o0, v, fr, reg)
            && Extends(g, g2, n) && g2.freereg == g.freereg
            && Pad(c, g2.code, d.f, pf, reg, False) && Pad(c, g2.code, TrueExits(d), pt, reg, True)
  {
    hide LoadBools, Run;
    var (g2, pf, pt) := LoadBools(g, reg, d.k.VJmp?).value;
    SomeJump(c, g, d, n);
    LoadBoolsRun(c, g, reg, d.k.VJmp?);
    AfterBools(c, g, d, g2, reg, n, o0, v, fr, x);
    LoadBoolsCode(g, reg, d.k.VJmp?, c.q);
    PadsInPlace(c, g, d, g2, n, pf);
  }

  /** Where jumps wait there is code of the expression. */
  lemma SomeJump(c: Env, g: Gen, d: Desc, n: nat)
    requires Lists(g, d, n) && c.q <= n && (TrueExits(d) != [] || d.f != [])
    ensures c.q < |g.code|
  {
    var j := if TrueExits(d) != [] then TrueExits(d)[0] else d.f[0];
    assert j in TrueExits(d) || j in d.f;
    assert Waiting(g.code, j);
  }

  lemma PadsInPlace(c: Env, g: Gen, d: Desc, g2: Gen, n: nat, pf: int)
    requires Shaped(g.code, g.lasttarget, c.q) && c.q < |g.code| && Lists(g, d, n) && |g.code| <= pf && pf + 2 == |g2.code|
    requires KeepsTests(g.code, g2.code) && g2.code[pf].LFalseSkip? && pf <= |g.code| + 1
    requires |g.code| < pf ==> g2.code[|g.code|].Jmp?
    requires |g.code| >= 1 ==> g2.code[|g.code| - 1] == g.code[|g.code| - 1]
    ensures forall j :: j in TrueExits(d) || j in d.f ==> j < pf
    ensures pf >= 1 ==> !g2.code[pf - 1].IsTest()
    ensures !g2.code[pf].IsTest()
  {
    forall j | j in TrueExits(d) || j in d.f ensures j < |g.code| { assert Waiting(g.code, j); }
    assert ShapedAt(g.code, g.lasttarget, |g.code| - 1);
  }

  lemma PatchExitsYields(c: Env, g: Gen, d: Desc, n: nat, o0: Outcome, v: Option<Value>, fr: nat, reg: nat, pf: int, pt: int)
    requires Yields(c, g, d, n, o0, v, fr, reg) && d.k == VNonReloc(reg) && reg < MAXREGS
    requires Pad(c, g.code, d.f, pf, reg, False) && Pad(c, g.code, d.t, pt, reg, True)
    requires PatchExits(g, d.t, d.f, reg, pf, pt).Ok?
    ensures var g' := PatchExits(g, d.t, d.f, reg, pf, pt).value;
            && Yields(c, g', ExpDesc(VNonReloc(reg), [], []), n, o0, v, fr, reg)
            && Extends(g, g', n) && g'.freereg == g.freereg
  {
    var c1 := PatchList(g.code, d.f, |g.code|, reg, pf).value;
    PatchOneSide(c, g, d, n, o0, v, fr, reg, pf, false, c1);
    var g1 := Label(g).(code := c1);
    PadSurvives(c, g, d, n, reg, pf, pt, c1);
    PatchOneSide(c, g1, d.(f := []), n, o0, v, fr, reg, pt, true, PatchExits(g, d.t, d.f, reg, pf, pt).value.code);
  }

  lemma JoinYields(c: Env, g: Gen, d: Desc, n: nat, o0: Outcome, v: Option<Value>, fr: nat, reg: nat, x: nat)
    requires Yields(c, g, d, n, o0, v, fr, x) && reg < MAXREGS
    requires (d.k.VJmp? && x == NO_REG) || (d.k == VNonReloc(reg) && x == reg)
    requires Join(g, TrueExits(d), d.f, reg, d.k.VJmp?).Ok?
    ensures var g' := Join(g, TrueExits(d), d.f, reg, d.k.VJmp?).value;
            && Yields(c, g', ExpDesc(VNonReloc(reg), [], []), n, o0, v, fr, reg)
            && Extends(g, g', n) && g'.freereg == g.freereg
  {
    var done := ExpDesc(VNonReloc(reg), TrueExits(d), d.f);
    if NeedValue(g.code, TrueExits(d)) || NeedValue(g.code, d.f) {
      LoadBoolsYields(c, g, d, reg, n, o0, v, fr, x);
      var (g2, pf, pt) := LoadBools(g, reg, d.k.VJmp?).value;
      PatchExitsYields(c, g2, done, n, o0, v, fr, reg, pf, pt);
    } else {
      ValuesOnly(g, d, n);
      PatchExitsYields(c, g, done, n, o0, v, fr, reg, NO_JUMP, NO_JUMP);
    }
  }

  lemma ValuesOnly(g: Gen, d: Desc, n: nat)
    requires Lists(g, d, n) && !NeedValue(g.code, TrueExits(d))
    ensures !d.k.VJmp?
  {
    assert d.k.VJmp? ==> d.k.pc in TrueExits(d) && Waiting(g.code, d.k.pc);
  }

  lemma NoJumps(g: Gen, d: Desc, n: nat)
    requires Lists(g, d, n) && TrueExits(d) == d.f
    ensures d.t == [] && d.f == [] && !d.k.VJmp?
  {
    assert forall j :: j in TrueExits(d) ==> j !in d.f;
    if TrueExits(d) != [] { FirstIn(TrueExits(d)); }
  }

  lemma FirstIn(l: seq<nat>)
    requires l != []
    ensures l[0] in l
  {
  }

  /** `exp2reg`: the value ends in `reg`, by every way out of the expression. */
  lemma Exp2RegYields(c: Env, g: Gen, d: Desc, reg: nat, n: nat, o0: Outcome, v: Option<Value>, fr: nat)
    requires Yields(c, g, d, n, o0, v, fr, NO_REG) && reg < MAXREGS
    requires Exp2Reg(g, d, reg).Ok? && Exp2Reg(g, d, reg).value.0.k <= c.k
    ensures var (g', d') := Exp2Reg(g, d, reg).value;
            && d' == ExpDesc(VNonReloc(reg), [], []) && Yields(c, g', d', n, o0, v, fr, reg)
            && Extends(g, g', n) && g'.freereg == g.freereg
  {
    hide Delivers, Run, Sound, Join, JumpFits;
    var (g1, d1) := Discharge2Reg(g, d, reg).value;
    Discharge2RegExtends(g, d, reg, n);
    if !d.k.VJmp? { Discharge2RegYields(c, g, d, reg, n, o0, v, fr); }
    if TrueExits(d1) == d1.f {
      NoJumps(g1, d1, n);
    } else {
      JoinYields(c, g1, d1, n, o0, v, fr, reg, if d1.k.VJmp? then NO_REG else reg);
    }
  }

  /** Patching the false list leaves the landing place of the true one as it was. */
  lemma PadSurvives(c: Env, g: Gen, d: Desc, n: nat, reg: nat, pf: int, pt: int, c1: ICode)
    requires Sound(c, g) && Lists(g, d, n) && c.q <= n <= |g.code| && d.k == VNonReloc(reg)
    requires Pad(c, g.code, d.f, pf, reg, False) && Pad(c, g.code, d.t, pt, reg, True)
    requires PatchList(g.code, d.f, |g.code|, reg, pf) == Ok(c1)
    ensures |c1| == |g.code| && Pad(c, c1, d.t, pt, reg, True)
  {
    PadPatchable(c, g, d.f, pf, reg, False);
    PatchListShape(g.code, g.lasttarget, d.f, |g.code|, reg, pf, |g.code|, c.q);
    PatchKeeps(g, d.f, d.t, n, reg, pf, c1, c.q);
    if forall j :: j in d.t ==> Fetch(g.code, Control(g.code, j)).TestSet? {
      forall j | j in d.t ensures Fetch(c1, Control(c1, j)).TestSet? { assert Waiting(g.code, j); }
    } else {
      assert forall i :: i in d.f ==> Waiting(g.code, i);
      forall r: Regs ensures Exec(c.w, c.k, c1, pt, r) == Fall(Put(r, reg, True)) {
        PatchListExec(c.w, c.k, g.code, g.lasttarget, d.f, |g.code|, reg, pf, |g.code|, pt, r);
      }
    }
  }

  // ----- operands -----

  /** A descriptor as the parser holds it: it yields its value and owns at most one free register. */
  ghost predicate Ready(c: Env, g: Gen, d: Desc, n: nat, o0: Outcome, v: Option<Value>, fr: nat) {
    Yields(c, g, d, n, o0, v, fr, NO_REG) && Owns(g, d, fr)
  }

  /** A descriptor with its final value in a register. */
  predicate InRegister(d: Desc) {
    d.k.VNonReloc? && d.t == [] && d.f == []
  }

  lemma DischargeVarsReady(c: Env, g: Gen, d: Desc, n: nat, o0: Outcome, v: Option<Value>, fr: nat)
    requires Ready(c, g, d, n, o0, v, fr)
    ensures Ready(c, g, DischargeVars(d), n, o0, v, fr)
  {
  }

  lemma Exp2NextRegReady(c: Env, g: Gen, d: Desc, n: nat, o0: Outcome, v: Option<Value>, fr: nat)
    requires Ready(c, g, d, n, o0, v, fr)
    requires Exp2NextReg(g, d).Ok? && Exp2NextReg(g, d).value.0.k <= c.k
    ensures var (g', d') := Exp2NextReg(g, d).value;
            && d' == ExpDesc(VNonReloc(fr), [], []) && Ready(c, g', d', n, o0, v, fr) && Extends(g, g', n)
  {
    hide Exp2Reg, Delivers, Run, Lists, Sound;
    var d1 := DischargeVars(d);
    DischargeVarsReady(c, g, d, n, o0, v, fr);
    var g1 := Reserve(FreeExp(g, d1), 1).value;
    FreeRegFree(c, g, d1, fr + 1, n, o0, v, fr);
    Exp2RegFresh(c, g1, d1, n, o0, v, fr);
  }

  /** No promise of a descriptor depends on how many registers are in use. */
  lemma FreeRegFree(c: Env, g: Gen, d: Desc, freereg: nat, n: nat, o0: Outcome, v: Option<Value>, fr: nat)
    requires Yields(c, g, d, n, o0, v, fr, NO_REG)
    ensures Yields(c, g.(freereg := freereg), d, n, o0, v, fr, NO_REG)
  {
  }

  /** A register above those in use need not be excepted. */
  lemma AboveFrame(c: Env, g: Gen, d: Desc, n: nat, o0: Outcome, v: Option<Value>, fr: nat, x: nat)
    requires Yields(c, g, d, n, o0, v, fr, x) && x >= fr
    ensures Yields(c, g, d, n, o0, v, fr, NO_REG)
  {
  }

  /** `exp2reg` into a register above those in use disturbs none of them. */
  lemma Exp2RegFresh(c: Env, g: Gen, d: Desc, n: nat, o0: Outcome, v: Option<Value>, fr: nat)
    requires Yields(c, g, d, n, o0, v, fr, NO_REG) && g.nvars <= fr < MAXREGS - 1 && g.freereg == fr + 1
    requires Exp2Reg(g, d, fr).Ok? && Exp2Reg(g, d, fr).value.0.k <= c.k
    ensures var (g', d') := Exp2Reg(g, d, fr).value;
            && d' == ExpDesc(VNonReloc(fr), [], []) && Ready(c, g', d', n, o0, v, fr) && Extends(g, g', n)
  {
    Exp2RegYields(c, g, d, fr, n, o0, v, fr);
    var (g', d') := Exp2Reg(g, d, fr).value;
    AboveFrame(c, g', d', n, o0, v, fr, fr);
    hide Exp2Reg, Lists, Sound, Run, Delivers;
  }

  lemma Exp2AnyRegReady(c: Env, g: Gen, d: Desc, n: nat, o0: Outcome, v: Option<Value>, fr: nat)
    requires Ready(c, g, d, n, o0, v, fr)
    requires Exp2AnyReg(g, d).Ok? && Exp2AnyReg(g, d).value.0.k <= c.k
    ensures var (g', d') := Exp2AnyReg(g, d).value;
            && InRegister(d') && Ready(c, g', d', n, o0, v, fr) && Extends(g, g', n)
            && (DischargeVars(d).k.VNonReloc? && !HasJumps(d) ==> g' == g && d' == DischargeVars(d))
  {
    hide Exp2Reg, Exp2NextReg, Delivers, Run, Sound;
    var d1 := DischargeVars(d);
    DischargeVarsReady(c, g, d, n, o0, v, fr);
    if d1.k.VNonReloc? && !HasJumps(d1) {
      NoJumps(g, d1, n);
    } else if d1.k.VNonReloc? && d1.k.reg >= g.nvars {
      Exp2RegFresh(c, g, d1, n, o0, v, fr);
    } else {
      Exp2NextRegReady(c, g, d1, n, o0, v, fr);
    }
  }

  lemma Exp2RKReady(c: Env, g: Gen, d: Desc, n: nat, o0: Outcome, v: Option<Value>, fr: nat)
    requires Ready(c, g, d, n, o0, v, fr)
    requires Exp2RK(g, d).Ok? && Exp2RK(g, d).value.0.k <= c.k
    ensures var (g', d', isK) := Exp2RK(g, d).value;
            && (if isK then d'.k.VK? && d'.t == [] && d'.f == [] else InRegister(d'))
            && (isK && !d.k.VK? ==> ConstOf(d.k) == Some(Const(c.k, d'.k.info)))
            && Ready(c, g', d', n, o0, v, fr) && Extends(g, g', n)
            && (DischargeVars(d).k.VNonReloc? && !HasJumps(d) ==> g' == g && d' == DischargeVars(d))
  {
    hide Exp2Reg, Exp2NextReg, Exp2AnyReg, Run, Sound;
    var (g1, d1, isK) := Exp2K(g, d).value;
    if !HasJumps(d) && !d.k.VK? && ConstOf(d.k).Some? {
      AddKYields(c, g, d, ConstOf(d.k).value, n, o0, v, fr, NO_REG);
    }
    if isK { NoJumps(g, d, n); } else { Exp2AnyRegReady(c, g1, d1, n, o0, v, fr); }
  }
}
