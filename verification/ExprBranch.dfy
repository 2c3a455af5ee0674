/** Expressions used as conditions: `luaK_goiftrue`, `luaK_goiffalse` and `not`. */
module ExprBranch {
  import opened Wrappers
  import opened LuaOps
  import opened ExprGen
  import opened ExecLemmas
  import opened ExprCorrect

  ghost predicate ListsOf(code: ICode, t: seq<nat>, f: seq<nat>, n: nat) {
    && (forall j :: j in t || j in f ==> n < j && Waiting(code, j))
    && NoDup(t) && NoDup(f)
    && (forall j :: j in t ==> j !in f)
  }

  /** The run leaves by a jump of the list that tells the truth of the value, or goes on. */
  ghost predicate Leaves(code: ICode, t: seq<nat>, f: seq<nat>, o: Outcome, v: Option<Value>, r0: Regs, fr: nat) {
    match o
    case Raise => v.None?
    case Stuck => false
    case Fall(r) => v.Some? && Same(r0, r, fr, NO_REG)
    case Exit(j, r) =>
      && v.Some? && Same(r0, r, fr, NO_REG)
      && (|| (j in t && Truthy(v.value) && ValueAt(code, j, r, v.value, true))
          || (j in f && !Truthy(v.value) && ValueAt(code, j, r, v.value, false)))
  }

  /** After the lists `t` and `f`, a run that goes on does so with a value of truth `through`. */
  ghost predicate Branches(c: Env, g: Gen, t: seq<nat>, f: seq<nat>, n: nat, o0: Outcome, v: Option<Value>, fr: nat,
                           through: bool) {
    && Sound(c, g) && ListsOf(g.code, t, f, n) && c.q <= n <= |g.code|
    && (o0.Exit? ==> o0.at < n)
    && match o0
       case Fall(r0) =>
         && Leaves(g.code, t, f, Run(c, g.code), v, r0, fr)
         && (Run(c, g.code).Fall? ==> Truthy(v.value) == through)
       case _ => Run(c, g.code) == o0
  }

  /** What a test must decide, and carry, about the main value of a descriptor. */
  ghost predicate Decides(c: Env, test: Instr<Dest>, s: Regs, v: Value, cond: bool) {
    && test.IsTest()
    && Condition(c.w, c.k, test, s).Some?
    && ((Condition(c.w, c.k, test, s).value == test.cond) <==> (Truthy(v) == cond))
    && match test
       case TestSet(_, x, _) => v == Get(s, x)
       case _ => Truthy(v) == cond ==> v == BoolValue(cond)
  }

  function With(l: seq<nat>, j: nat, cond: bool, side: bool): seq<nat> {
    if cond == side then l + [j] else l
  }

  lemma CondJumpLists(g: Gen, t: seq<nat>, f: seq<nat>, test: Instr<Dest>, n: nat, cond: bool)
    requires ListsOf(g.code, t, f, n) && n <= |g.code| && test.IsTest()
    ensures var g' := CondJump(g, test); var p := |g.code| + 1;
            && ListsOf(g'.code, With(t, p, cond, true), With(f, p, cond, false), n)
            && forall j :: j in t || j in f ==> Waiting(g.code, j) && g'.code[j - 1] == g.code[j - 1]
  {
    var g' := CondJump(g, test);
    var p := |g.code| + 1;
    forall j | j in t || j in f ensures n < j < |g.code| && Waiting(g'.code, j) && g'.code[j - 1] == g.code[j - 1] {
      assert Waiting(g.code, j);
    }
    assert Waiting(g'.code, p);
  }

  /** A test of the main value and its jump: the jump joins the list of its side. */
  lemma AfterCondJump(c: Env, g: Gen, t: seq<nat>, f: seq<nat>, test: Instr<Dest>, n: nat, o0: Outcome, v: Option<Value>,
                      fr: nat, cond: bool)
    requires Sound(c, g) && ListsOf(g.code, t, f, n) && c.q <= n <= |g.code| && test.IsTest()
    requires o0.Exit? ==> o0.at < n
    requires var o := Run(c, g.code);
             match o0
             case Fall(r0) => Leaves(g.code, t, f, o, v, r0, fr) && (o.Fall? ==> Decides(c, test, o.r, v.value, cond))
             case _ => o == o0
    ensures var g' := CondJump(g, test); var j := |g.code| + 1;
            && g'.code == g.code + [test, Jmp(Pending)]
            && Branches(c, g', With(t, j, cond, true), With(f, j, cond, false), n, o0, v, fr, !cond)
  {
    var g' := CondJump(g, test);
    var p := |g.code| + 1;
    assert g'.code == g.code + [test, Jmp(Pending)];
    ExecCondJump(c.w, c.k, g.code, g.lasttarget, test, c.q, c.r);
    CondJumpLists(g, t, f, test, n, cond);
    hide Exec, Shaped, ListsOf;
  }

  // ----- jumponcond -----

  /** A relocatable NOT is dropped and the test inverted. */
  lemma JumpOnNot(c: Env, g: Gen, d: Desc, n: nat, o0: Outcome, v: Option<Value>, fr: nat, cond: bool)
    requires Yields(c, g, d, n, o0, v, fr, NO_REG) && d.k.VReloc?
    ensures var g' := CondJump(RemoveLast(g), Test(NotOperand(g), !cond)); var j := |g'.code| - 1;
            && Branches(c, g', With(d.t, j, cond, true), With(d.f, j, cond, false), n, o0, v, fr, !cond)
            && Extends(g, g', n)
  {
    var g1 := RemoveLast(g);
    WithoutNot(c, g, d, n);
    if o0.Fall? { NotDecides(c, g, d, n, Run(c, g1.code), v, o0.r, fr, cond); }
    hide Sound, Lists, Delivers, Leaves, Decides, ListsOf;
    AfterCondJump(c, g1, d.t, d.f, Test(NotOperand(g), !cond), n, o0, v, fr, cond);
  }

  lemma NotDecides(c: Env, g: Gen, d: Desc, n: nat, o: Outcome, v: Option<Value>, r0: Regs, fr: nat, cond: bool)
    requires Delivers(c, g.code, d, o, v, r0, fr, NO_REG) && d.k.VReloc? && d.k.pc == |g.code| - 1
    requires ListsOf(RemoveLast(g).code, d.t, d.f, n) && g.code[|g.code| - 1].NotOp?
    ensures Leaves(RemoveLast(g).code, d.t, d.f, o, v, r0, fr)
    ensures o.Fall? ==> Decides(c, Test(NotOperand(g), !cond), o.r, v.value, cond)
  {
    if o.Exit? { assert Waiting(RemoveLast(g).code, o.at); }
  }

  lemma WithoutNot(c: Env, g: Gen, d: Desc, n: nat)
    requires Sound(c, g) && Sound(c, RemoveLast(g)) && Lists(g, d, n) && d.k.VReloc? && n <= |RemoveLast(g).code|
    ensures var g1 := RemoveLast(g);
            && Sound(c, g1) && ListsOf(g1.code, d.t, d.f, n) && g1.code == g.code[..|g.code| - 1]
            && g.code[|g.code| - 1].NotOp? && NotOperand(g) == g.code[|g.code| - 1].b && Extends(g, g1, n)
  {
    var m := |g.code| - 1;
    var g1 := RemoveLast(g);
    if m > c.q { assert ShapedAt(g.code, g.lasttarget, m - 1); }
    ShapedPrefix(g.code, g.lasttarget, m, c.q);
    forall j | j in d.t || j in d.f ensures n < j && Waiting(g1.code, j) { assert Waiting(g.code, j); }
  }

  /** A TESTSET of the register that holds the main value. */
  lemma JumpOnRegister(c: Env, g: Gen, d: Desc, n: nat, o0: Outcome, v: Option<Value>, fr: nat, cond: bool)
    requires Yields(c, g, d, n, o0, v, fr, NO_REG) && d.k.VNonReloc?
    ensures var g' := CondJump(g, TestSet(NO_REG, d.k.reg, cond)); var j := |g'.code| - 1;
            && Branches(c, g', With(d.t, j, cond, true), With(d.f, j, cond, false), n, o0, v, fr, !cond)
            && Extends(g, g', n)
  {
    AfterCondJump(c, g, d.t, d.f, TestSet(NO_REG, d.k.reg, cond), n, o0, v, fr, cond);
  }

  lemma Discharge2AnyRegReady(c: Env, g: Gen, d: Desc, n: nat, o0: Outcome, v: Option<Value>, fr: nat)
    requires Ready(c, g, d, n, o0, v, fr) && !d.k.VJmp? && !d.k.VLocal?
    requires Discharge2AnyReg(g, d).Ok? && Discharge2AnyReg(g, d).value.0.k <= c.k
    ensures var (g', d') := Discharge2AnyReg(g, d).value;
            && d'.k.VNonReloc? && d' == d.(k := d'.k) && Ready(c, g', d', n, o0, v, fr) && Extends(g, g', n)
  {
    hide Exec, Shaped, Delivers;
    if !d.k.VNonReloc? {
      var g1 := Reserve(g, 1).value;
      FreeRegFree(c, g, d, fr + 1, n, o0, v, fr);
      Discharge2RegYields(c, g1, d, fr, n, o0, v, fr);
      Discharge2RegExtends(g1, d, fr, n);
      var (g', d') := Discharge2Reg(g1, d, fr).value;
      AboveFrame(c, g', d', n, o0, v, fr, fr);
    }
  }

  lemma JumpOnCondBranches(c: Env, g: Gen, d: Desc, n: nat, o0: Outcome, v: Option<Value>, fr: nat, cond: bool)
    requires Ready(c, g, d, n, o0, v, fr) && !d.k.VJmp? && !d.k.VLocal?
    requires JumpOnCond(g, d, cond).Ok? && JumpOnCond(g, d, cond).value.k <= c.k
    ensures var g' := JumpOnCond(g, d, cond).value; var j := |g'.code| - 1;
            && Branches(c, g', With(d.t, j, cond, true), With(d.f, j, cond, false), n, o0, v, fr, !cond)
            && Extends(g, g', n) && g'.freereg == fr
  {
    hide Sound, Lists, Delivers, Leaves, Decides, ListsOf, Discharge2Reg;
    if d.k.VReloc? {
      JumpOnNot(c, g, d, n, o0, v, fr, cond);
    } else {
      var (g1, d1) := Discharge2AnyReg(g, d).value;
      Discharge2AnyRegReady(c, g, d, n, o0, v, fr);
      FreeRegFree(c, g1, d1, fr, n, o0, v, fr);
      JumpOnRegister(c, g1.(freereg := fr), d1, n, o0, v, fr, cond);
    }
  }

  // ----- negating a comparison -----

  function Negated(i: Instr<Dest>): Instr<Dest> {
    match i
    case Cmp(op, a, b, isfloat, cond) => Cmp(op, a, b, isfloat, !cond)
    case _ => i
  }

  lemma NegatePair(w: World, k: seq<Value>, pre: ICode, lt: nat, i: Instr<Dest>, pc: nat, r: Regs)
    requires Shaped(pre, lt, pc) && pc <= |pre| && i.Cmp?
    ensures Shaped(pre + [Negated(i), Jmp(Pending)], lt, pc)
    ensures Exec(w, k, pre + [Negated(i), Jmp(Pending)], pc, r) == (
            match Exec(w, k, pre + [i, Jmp(Pending)], pc, r)
            case Fall(s) => Exit(|pre| + 1, s)
            case Exit(j, s) => if j == |pre| + 1 then Fall(s) else Exit(j, s)
            case o => o)
  {
    ExecCondJump(w, k, pre, lt, i, pc, r);
    ExecCondJump(w, k, pre, lt, Negated(i), pc, r);
    ExitIsPending(w, k, pre, pc, r);
  }

  /** `negatecondition` reaches the comparison and changes nothing else. */
  lemma NegateCode(c: Env, g: Gen, d: Desc, n: nat)
    requires Shaped(g.code, g.lasttarget, c.q) && c.q <= n && Lists(g, d, n) && d.k.VJmp?
    ensures var m := d.k.pc - 1; var pre := g.code[..m]; var i := g.code[m];
            && g.code == pre + [i, Jmp(Pending)] && i.Cmp? && Shaped(pre, g.lasttarget, c.q) && n <= m == |pre|
            && NegateCondition(g, d) == g.(code := pre + [Negated(i), Jmp(Pending)])
  {
    var m := d.k.pc - 1;
    if m > c.q { assert ShapedAt(g.code, g.lasttarget, m - 1); }
    ShapedPrefix(g.code, g.lasttarget, m, c.q);
  }

  /** Negating the comparison at the end of the code swaps going on and jumping. */
  lemma NegateRun(c: Env, g: Gen, d: Desc, n: nat)
    requires Sound(c, g) && Lists(g, d, n) && d.k.VJmp? && c.q <= n
    ensures var g' := NegateCondition(g, d); var p := d.k.pc;
            && g' == g.(code := g'.code) && |g'.code| == |g.code|
            && (forall i: nat :: i < |g.code| && i != p - 1 ==> g'.code[i] == g.code[i])
            && g.code[p - 1].Cmp? && g'.code[p - 1].Cmp?
            && Sound(c, g') && Extends(g, g', n)
            && Run(c, g'.code) == (
               match Run(c, g.code)
               case Fall(s) => Exit(p, s)
               case Exit(j, s) => if j == p then Fall(s) else Exit(j, s)
               case o => o)
  {
    var m := d.k.pc - 1;
    NegateCode(c, g, d, n);
    NegatePair(c.w, c.k, g.code[..m], g.lasttarget, g.code[m], c.q, c.r);
    hide Exec, Shaped;
  }

  /** The jump by which a condition leaves. */
  lemma ExitJumpBranches(c: Env, g: Gen, d: Desc, n: nat, o0: Outcome, v: Option<Value>, fr: nat, cond: bool)
    requires Ready(c, g, d, n, o0, v, fr) && !d.k.VLocal? && !d.k.VK?
    requires ExitJump(g, d, cond).Ok? && ExitJump(g, d, cond).value.0.k <= c.k
    ensures var (g', l) := ExitJump(g, d, cond).value;
            && Branches(c, g', if cond then d.t + l else d.t, if cond then d.f else d.f + l, n, o0, v, fr, !cond)
            && Extends(g, g', n) && g'.freereg == fr
  {
    hide JumpOnCond, Branches, Yields;
    if d.k.VJmp? {
      ExitByComparison(c, g, d, n, o0, v, fr, cond);
    } else if (if cond then AlwaysFalse(d.k) else AlwaysTrue(d.k)) {
      NoExit(c, g, d, n, o0, v, fr, cond);
      assert d.t + [] == d.t && d.f + [] == d.f;
    } else {
      JumpOnCondBranches(c, g, d, n, o0, v, fr, cond);
    }
  }

  /** A constant that is known to go on. */
  lemma NoExit(c: Env, g: Gen, d: Desc, n: nat, o0: Outcome, v: Option<Value>, fr: nat, cond: bool)
    requires Yields(c, g, d, n, o0, v, fr, NO_REG) && !d.k.VK?
    requires if cond then AlwaysFalse(d.k) else AlwaysTrue(d.k)
    ensures Branches(c, g, d.t, d.f, n, o0, v, fr, !cond)
  {
  }

  lemma ExitByComparison(c: Env, g: Gen, d: Desc, n: nat, o0: Outcome, v: Option<Value>, fr: nat, cond: bool)
    requires Yields(c, g, d, n, o0, v, fr, NO_REG) && d.k.VJmp?
    ensures var g' := if cond then g else NegateCondition(g, d); var p := d.k.pc;
            && Branches(c, g', With(d.t, p, cond, true), With(d.f, p, cond, false), n, o0, v, fr, !cond)
            && Extends(g, g', n) && g'.freereg == g.freereg
  {
    var g' := if cond then g else NegateCondition(g, d);
    if !cond { NegateRun(c, g, d, n); }
    forall j | j in d.t || j in d.f || j == d.k.pc ensures n < j && Waiting(g'.code, j) {
      assert Waiting(g.code, j);
    }
  }

  // ----- closing a list -----

  lemma PatchHereShape(c: Env, g: Gen, t: seq<nat>, f: seq<nat>, n: nat, side: bool)
    requires Sound(c, g) && ListsOf(g.code, t, f, n) && c.q <= n <= |g.code|
    requires PatchToHere(g, if side then t else f).Ok?
    ensures var list := if side then t else f; var g' := PatchToHere(g, list).value;
            && Sound(c, g') && Extends(g, g', n) && |g'.code| == |g.code| && g'.freereg == g.freereg && g'.k == g.k
            && ListsOf(g'.code, if side then [] else t, if side then f else [], n)
            && Patchable(g.code, list, |g.code|, |g.code|, |g.code|)
            && forall j :: j in (if side then f else t) ==> Waiting(g.code, j) && g'.code[j - 1] == g.code[j - 1]
  {
    var list := if side then t else f;
    var other := if side then f else t;
    PatchableHere(g, list, c.q);
    hide PatchList, Patchable;
    PatchKeeps(g, list, other, n, NO_REG, |g.code|, PatchToHere(g, list).value.code, c.q);
    hide ShapedAt;
  }

  /** The end of the code is a possible target for every waiting jump. */
  lemma PatchableHere(g: Gen, list: seq<nat>, q: nat)
    requires Shaped(g.code, g.lasttarget, q) && NoDup(list) && forall j :: j in list ==> q < j && Waiting(g.code, j)
    ensures Patchable(g.code, list, |g.code|, |g.code|, |g.code|)
  {
    if |g.code| > q { assert ShapedAt(g.code, g.lasttarget, |g.code| - 1); }
  }

  /** Patching the list of the side that goes on to here: from now on that side falls through. */
  lemma PatchToHereBranches(c: Env, g: Gen, t: seq<nat>, f: seq<nat>, n: nat, o0: Outcome, v: Option<Value>, fr: nat,
                            through: bool)
    requires Branches(c, g, t, f, n, o0, v, fr, through)
    requires PatchToHere(g, if through then t else f).Ok?
    ensures var g' := PatchToHere(g, if through then t else f).value;
            && Branches(c, g', if through then [] else t, if through then f else [], n, o0, v, fr, through)
            && Extends(g, g', n) && g'.freereg == g.freereg
  {
    var list := if through then t else f;
    var here := |g.code|;
    PatchHereShape(c, g, t, f, n, through);
    assert forall j :: j in list ==> Waiting(g.code, j);
    PatchListExec(c.w, c.k, g.code, g.lasttarget, list, here, NO_REG, here, here, c.q, c.r);
    hide PatchList, Patchable, Shaped, Sound;
  }

  /** What `luaK_goiftrue` and `luaK_goiffalse` establish: the run goes on exactly when the value has the
      wanted truth, and otherwise leaves by a jump of the remaining list. */
  lemma GoIfTrueBranches(c: Env, g: Gen, d: Desc, n: nat, o0: Outcome, v: Option<Value>, fr: nat)
    requires Ready(c, g, d, n, o0, v, fr) && !d.k.VK?
    requires GoIfTrue(g, d).Ok? && GoIfTrue(g, d).value.0.k <= c.k
    ensures var (g', f) := GoIfTrue(g, d).value;
            Branches(c, g', [], f, n, o0, v, fr, true) && Extends(g, g', n) && g'.freereg == fr
  {
    var d1 := DischargeVars(d);
    var (g1, pc) := ExitJump(g, d1, false).value;
    DischargeVarsReady(c, g, d, n, o0, v, fr);
    hide ExitJump, Ready, Branches;
    ExitJumpBranches(c, g, d1, n, o0, v, fr, false);
    PatchToHereBranches(c, g1, d.t, d.f + pc, n, o0, v, fr, true);
  }

  lemma GoIfFalseBranches(c: Env, g: Gen, d: Desc, n: nat, o0: Outcome, v: Option<Value>, fr: nat)
    requires Ready(c, g, d, n, o0, v, fr) && !d.k.VK?
    requires GoIfFalse(g, d).Ok? && GoIfFalse(g, d).value.0.k <= c.k
    ensures var (g', t) := GoIfFalse(g, d).value;
            Branches(c, g', t, [], n, o0, v, fr, false) && Extends(g, g', n) && g'.freereg == fr
  {
    var d1 := DischargeVars(d);
    var (g1, pc) := ExitJump(g, d1, true).value;
    DischargeVarsReady(c, g, d, n, o0, v, fr);
    hide ExitJump, Ready, Branches;
    ExitJumpBranches(c, g, d1, n, o0, v, fr, true);
    PatchToHereBranches(c, g1, d.t + pc, d.f, n, o0, v, fr, false);
  }

  // ----- not -----

  function NotOf(v: Option<Value>): Option<Value> {
    if v.None? then None else Some(Not(v.value))
  }

  /** The main value of `not e`: constants fold, a comparison flips, the rest is one more NOT. The lists
      still carry the value that is not negated. */
  ghost predicate HalfNegated(c: Env, g: Gen, k: Kind, d: Desc, n: nat, o0: Outcome, v: Option<Value>, fr: nat) {
    var d' := d.(k := k);
    && Sound(c, g) && (k.VReloc? ==> Sound(c, RemoveLast(g))) && Lists(g, d', n)
    && c.q <= n <= |Body(g, d')| && Owns(g, d', fr)
    && (o0.Exit? ==> o0.at < n)
    && var o := Run(c, Body(g, d'));
       match o0
       case Fall(r0) =>
         if o.Exit? && k != VJmp(o.at) then Leaves(g.code, d.t, d.f, o, v, r0, fr)
         else Delivers(c, g.code, ExpDesc(k, [], []), o, NotOf(v), r0, fr, NO_REG)
       case _ => o == o0
  }

  lemma NegateMainHalf(c: Env, g: Gen, d: Desc, n: nat, o0: Outcome, v: Option<Value>, fr: nat)
    requires Ready(c, g, d, n, o0, v, fr) && !d.k.VLocal? && !d.k.VK?
    requires NegateMain(g, d).Ok? && NegateMain(g, d).value.0.k <= c.k
    ensures var (g', k) := NegateMain(g, d).value;
            HalfNegated(c, g', k, d, n, o0, v, fr) && Extends(g, g', n)
  {
    if AlwaysFalse(d.k) || AlwaysTrue(d.k) {
    } else if d.k.VJmp? {
      NegateRun(c, g, d, n);
      forall j | j in d.t || j in d.f || j == d.k.pc ensures n < j && Waiting(NegateCondition(g, d).code, j) {
        assert Waiting(g.code, j);
      }
    } else {
      NegateRegister(c, g, d, n, o0, v, fr);
    }
  }

  lemma NegateRegister(c: Env, g: Gen, d: Desc, n: nat, o0: Outcome, v: Option<Value>, fr: nat)
    requires Ready(c, g, d, n, o0, v, fr) && (d.k.VReloc? || d.k.VNonReloc?)
    requires NegateMain(g, d).Ok? && NegateMain(g, d).value.0.k <= c.k
    ensures var (g', k) := NegateMain(g, d).value;
            HalfNegated(c, g', k, d, n, o0, v, fr) && Extends(g, g', n)
  {
    hide Discharge2AnyReg, Yields, HalfNegated, Extends, Grows, Exec;
    var (g1, d1) := Discharge2AnyReg(g, d).value;
    Discharge2AnyRegReady(c, g, d, n, o0, v, fr);
    var g2 := g1.(freereg := fr);
    assert NegateMain(g, d) == Ok((Emit(g2, NotOp(0, d1.k.reg)), VReloc(|g1.code|)));
    FreeRegFree(c, g1, d1, fr, n, o0, v, fr);
    AppendNot(c, g2, d1, n, o0, v, fr);
    HalfNegatedLists(c, Emit(g2, NotOp(0, d1.k.reg)), VReloc(|g1.code|), d1, d, n, o0, v, fr);
    ExtendsTwice(g, g1, g2, Emit(g2, NotOp(0, d1.k.reg)), n);
  }

  lemma ExtendsTwice(g: Gen, g1: Gen, g2: Gen, g': Gen, n: nat)
    requires Extends(g, g1, n) && g2 == g1.(freereg := g2.freereg) && Extends(g2, g', n)
    ensures Extends(g, g', n)
  {
  }

  lemma HalfNegatedLists(c: Env, g: Gen, k: Kind, d1: Desc, d: Desc, n: nat, o0: Outcome, v: Option<Value>, fr: nat)
    requires HalfNegated(c, g, k, d1, n, o0, v, fr) && d1.t == d.t && d1.f == d.f
    ensures HalfNegated(c, g, k, d, n, o0, v, fr)
  {
    assert d1.(k := k) == d.(k := k);
  }

  lemma AppendNot(c: Env, g: Gen, d: Desc, n: nat, o0: Outcome, v: Option<Value>, fr: nat)
    requires Yields(c, g, d, n, o0, v, fr, NO_REG) && d.k.VNonReloc? && g.nvars <= fr == g.freereg < MAXREGS
    ensures var g' := Emit(g, NotOp(0, d.k.reg));
            HalfNegated(c, g', VReloc(|g.code|), d, n, o0, v, fr) && Extends(g, g', n)
  {
    assert g.lasttarget <= |g.code|;
    hide Exec, Shaped, Lists, Delivers, Leaves;
    var g' := Emit(g, NotOp(0, d.k.reg));
    assert RemoveLast(g') == g;
    AppendedLists(g, d, d.k.reg, n);
    ExecPlain(c.w, c.k, g.code, g.lasttarget, NotOp(0, d.k.reg), c.q, c.r);
    if o0.Fall? { NotDelivers(c, g, d, n, Run(c, g.code), v, o0.r, fr); }
  }

  /** The exits are as they were, and the new instruction negates what falls through. */
  lemma NotDelivers(c: Env, g: Gen, d: Desc, n: nat, o: Outcome, v: Option<Value>, r0: Regs, fr: nat)
    requires Lists(g, d, n) && Delivers(c, g.code, d, o, v, r0, fr, NO_REG) && d.k.VNonReloc?
    ensures var code' := Emit(g, NotOp(0, d.k.reg)).code;
            if o.Exit? then Leaves(code', d.t, d.f, o, v, r0, fr)
            else Delivers(c, code', ExpDesc(VReloc(|g.code|), [], []), o, NotOf(v), r0, fr, NO_REG)
  {
    if o.Exit? { assert Waiting(g.code, o.at); }
  }

  /** One more instruction leaves the lists. */
  lemma AppendedLists(g: Gen, d: Desc, reg: nat, n: nat)
    requires Lists(g, d, n) && !d.k.VJmp? && !d.k.VReloc? && g.lasttarget <= |g.code| && n <= |g.code|
    ensures Lists(Emit(g, NotOp(0, reg)), d.(k := VReloc(|g.code|)), n)
  {
    forall j | j in d.t || j in d.f ensures n < j && Waiting(Emit(g, NotOp(0, reg)).code, j) {
      assert Waiting(g.code, j);
    }
  }

  /** The code after `removevalues` on both lists: the same runs, and no test of the lists carries a value. */
  lemma RemoveBoth(w: World, k: seq<Value>, code: ICode, lt: nat, t: seq<nat>, f: seq<nat>, n: nat, pc: nat, r: Regs)
    requires Shaped(code, lt, pc) && ListsOf(code, t, f, n) && n <= |code|
    ensures var code' := RemoveValues(RemoveValues(code, t), f);
            && |code'| == |code| && Shaped(code', lt, pc) && Exec(w, k, code', pc, r) == Exec(w, k, code, pc, r)
            && (forall j :: j in t || j in f ==> Waiting(code', j) && !code'[j - 1].TestSet?)
            && (forall i: nat {:trigger code'[i]} :: i < |code| && !code[i].TestSet? ==> code'[i] == code[i])
            && (forall i: nat {:trigger code'[i]} :: i < n ==> code'[i] == code[i])
  {
    hide RemoveValues, Shaped, Exec;
    var code1 := RemoveValues(code, t);
    var code' := RemoveValues(code1, f);
    RemoveValuesExec(w, k, code, lt, t, pc, r);
    forall j | j in f ensures Waiting(code1, j) { assert Waiting(code, j); }
    forall j | j in t ensures Waiting(code1, j) && !code1[j - 1].TestSet? { assert Waiting(code, j); }
    RemoveValuesExec(w, k, code1, lt, f, pc, r);
    forall j | j in t || j in f ensures Waiting(code', j) && !code'[j - 1].TestSet? {
      assert Waiting(code1, j);
    }
  }

  lemma {:induction false} RemoveValuesPrefix(code: ICode, list: seq<nat>, m: nat)
    requires m <= |code| && forall j :: j in list ==> j < m
    ensures |RemoveValues(code, list)| == |code| && RemoveValues(code, list)[..m] == RemoveValues(code[..m], list)
    decreases list
  {
    if list != [] {
      assert list[0] in list;
      var code1 := PatchTestReg(code, list[0], NO_REG).0;
      assert code1[..m] == PatchTestReg(code[..m], list[0], NO_REG).0;
      assert forall j :: j in list[1..] ==> j in list;
      RemoveValuesPrefix(code1, list[1..], m);
    }
  }

  lemma SwapLists(g: Gen, d: Desc, k: Kind, n: nat)
    requires Lists(g, d.(k := k), n)
    ensures Lists(g, ExpDesc(k, d.f, d.t), n)
  {
  }

  /** `removevalues` on both lists, seen from the code before a last NOT as well. */
  lemma RemoveBothBody(c: Env, g: Gen, k: Kind, d: Desc, n: nat, code': ICode)
    requires Sound(c, g) && (k.VReloc? ==> Sound(c, RemoveLast(g))) && Lists(g, d.(k := k), n)
    requires c.q <= n <= |Body(g, d.(k := k))|
    requires code' == RemoveValues(RemoveValues(g.code, d.t), d.f)
    ensures var g' := g.(code := code'); var d' := ExpDesc(k, d.f, d.t);
            && Sound(c, g') && (k.VReloc? ==> Sound(c, RemoveLast(g'))) && Lists(g', d', n) && Extends(g, g', n)
            && |code'| == |g.code| && n <= |Body(g', d')|
            && Run(c, Body(g', d')) == Run(c, Body(g, d.(k := k)))
            && (forall j :: j in d.t || j in d.f ==> Waiting(code', j) && !code'[j - 1].TestSet?)
            && (k.VReloc? ==> code'[|code'| - 1] == g.code[|code'| - 1])
            && (k.VJmp? ==> Waiting(code', k.pc) && code'[k.pc - 1] == g.code[k.pc - 1])
  {
    hide RemoveValues, Shaped, Exec;
    var g' := g.(code := code');
    RemoveBoth(c.w, c.k, g.code, g.lasttarget, d.t, d.f, n, c.q, c.r);
    if k.VReloc? {
      var m := |g.code| - 1;
      forall j | j in d.t || j in d.f ensures j < m && n < j && Waiting(g.code[..m], j) { assert Waiting(g.code, j); }
      RemoveValuesPrefix(g.code, d.t, m);
      RemoveValuesPrefix(RemoveValues(g.code, d.t), d.f, m);
      RemoveBoth(c.w, c.k, g.code[..m], g.lasttarget, d.t, d.f, n, c.q, c.r);
      assert RemoveLast(g').code == RemoveValues(RemoveValues(g.code[..m], d.t), d.f);
    }
    SwapLists(g, d, k, n);
  }

  /** `codenot` */
  lemma CodeNotReady(c: Env, g: Gen, d: Desc, n: nat, o0: Outcome, v: Option<Value>, fr: nat)
    requires Ready(c, g, d, n, o0, v, fr) && !d.k.VK?
    requires CodeNot(g, d).Ok? && CodeNot(g, d).value.0.k <= c.k
    ensures var (g', d') := CodeNot(g, d).value;
            Ready(c, g', d', n, o0, NotOf(v), fr) && Extends(g, g', n) && !d'.k.VK?
  {
    var d1 := DischargeVars(d);
    CodeNotIs(g, d);
    hide Ready, HalfNegated, Extends, RemoveValues, NegateMain, CodeNot, Run;
    DischargeVarsReady(c, g, d, n, o0, v, fr);
    var (g1, k) := NegateMain(g, d1).value;
    NegateMainHalf(c, g, d1, n, o0, v, fr);
    var g2 := g1.(code := RemoveValues(RemoveValues(g1.code, d.t), d.f));
    NegatedReady(c, g1, k, d1, n, o0, v, fr, g2);
    ExtendsTwice(g, g1, g1, g2, n);
  }

  lemma CodeNotIs(g: Gen, d: Desc)
    requires CodeNot(g, d).Ok?
    ensures var d1 := DischargeVars(d);
            && NegateMain(g, d1).Ok? && d1.t == d.t && d1.f == d.f && (d.k.VK? || !d1.k.VK?) && !d1.k.VLocal?
            && var (g1, k) := NegateMain(g, d1).value;
               && CodeNot(g, d) == Ok((g1.(code := RemoveValues(RemoveValues(g1.code, d.t), d.f)), ExpDesc(k, d.f, d.t)))
               && !k.VK?
  {
    hide RemoveValues, Discharge2AnyReg;
  }

  /** With the values removed and the lists exchanged, the negated main value is a descriptor again. */
  lemma NegatedReady(c: Env, g: Gen, k: Kind, d: Desc, n: nat, o0: Outcome, v: Option<Value>, fr: nat, g': Gen)
    requires HalfNegated(c, g, k, d, n, o0, v, fr) && g.k <= c.k
    requires g' == g.(code := RemoveValues(RemoveValues(g.code, d.t), d.f))
    ensures Ready(c, g', ExpDesc(k, d.f, d.t), n, o0, NotOf(v), fr) && Extends(g, g', n)
  {
    hide RemoveValues, Sound, Delivers, Leaves, Run;
    RemoveBothBody(c, g, k, d, n, g'.code);
    if o0.Fall? { NegatedDelivers(c, g, k, d, n, o0, v, fr, g'.code); }
    hide Lists, Body;
  }

  lemma NegatedDelivers(c: Env, g: Gen, k: Kind, d: Desc, n: nat, o0: Outcome, v: Option<Value>, fr: nat, code': ICode)
    requires HalfNegated(c, g, k, d, n, o0, v, fr) && o0.Fall? && |code'| == |g.code|
    requires forall j :: j in d.t || j in d.f ==> Waiting(code', j) && !code'[j - 1].TestSet?
    requires k.VReloc? ==> code'[|code'| - 1] == g.code[|code'| - 1]
    requires k.VJmp? ==> Waiting(code', k.pc) && code'[k.pc - 1] == g.code[k.pc - 1]
    ensures Delivers(c, code', ExpDesc(k, d.f, d.t), Run(c, Body(g, d.(k := k))), NotOf(v), o0.r, fr, NO_REG)
  {
  }
}
