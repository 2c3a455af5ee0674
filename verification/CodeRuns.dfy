/** The whole way: the code generator of lcode.c, run on an expression, produces code on which the machine
    computes the value of the expression. */
module CodeRuns {
  import opened Wrappers
  import opened LuaOps
  import opened ExprGen
  import opened ExecLemmas
  import opened ExprCorrect
  import opened ExprMain
  import opened ExprTotal
  import Encoding
  import opened Emitted
  import opened F = FuncState
  import opened G = CodeGen

  /** What the machine did on the old code, followed by a value in register `reg`, or an error where there is none. */
  ghost predicate MachineBrings(c: Env, code: Code, v: Option<Value>, code': Code, reg: nat) {
    var o0 := Machine(c.w, c.k, code, c.q, c.r);
    var o := Machine(c.w, c.k, code', c.q, c.r);
    if !o0.Fall? then o == o0
    else if v.None? then o == Raise
    else o.Fall? && Get(o.r, reg) == v.value && Same(o0.r, o.r, reg, reg)
  }

  /** Code whose abstract form brings a value, with every jump patched, brings it on the machine. */
  lemma BringsOnMachine(c: Env, code: Code, g: Gen, v: Option<Value>, code': Code, g': Gen)
    requires Shows(code, g.code) && Jmp(Pending) !in g.code && Shows(code', g'.code) && Jmp(Pending) !in g'.code
    ensures Machine(c.w, c.k, code, c.q, c.r) == Run(c, g.code)
    ensures Brings(c, g, v, g', g.freereg) <==> MachineBrings(c, code, v, code', g.freereg)
  {
    MachineRuns(c.w, c.k, code, g.code, c.q, c.r);
    MachineRuns(c.w, c.k, code', g'.code, c.q, c.r);
  }

  /** No jump of an expression is left without a target once its value is in a register. */
  lemma AllPatched(a: ICode, a': ICode)
    requires Jmp(Pending) !in a && Open(a', [], [], [], |a|) && Kept(a, a', |a|)
    ensures Jmp(Pending) !in a'
  {
    forall i: nat | i < |a'| ensures a'[i] != Jmp(Pending) {
      if i < |a| { assert a[i] in a; }
    }
  }

  /** The promise of the two calls below, for one program and one run of the old code: the machine goes on to bring what
      is found, and so the value of the expression exactly where that is what is found. */
  ghost predicate Generated(c: Env, was: Gen, code: Code, x: Expr, fs: FuncState, e: G.ExpDesc)
    reads fs, e
  {
    Start(c, was, was.freereg) && Scoped(x, was.nvars) && fs.k <= c.k ==>
      && e.k == VNonReloc(was.freereg) && fs.freereg == was.freereg + 1
      && var o0 := Machine(c.w, c.k, code, c.q, c.r); var found, value := FoundIn(c.w, x, o0), ValueIn(c.w, x, o0);
         && MachineBrings(c, code, found, fs.code, was.freereg)
         && (MachineBrings(c, code, value, fs.code, was.freereg) <==> found == value)
  }

  lemma GeneratedAlways(c: Env, was: Gen, code: Code, x: Expr, fs: FuncState, e: G.ExpDesc, g1: Gen, d: Desc)
    requires Shows(code, was.code) && Jmp(Pending) !in was.code
    requires fs.Valid() && e.k == e.abs.k && Jmp(Pending) !in fs.abs.code
    requires ExprGen.Compile(was, x) == Ok((g1, d)) && ExprGen.Exp2NextReg(g1, d) == Ok((fs.abs, e.abs))
    ensures Generated(c, was, code, x, fs, e)
  {
    hide Shows, ExprGen.Compile, ExprGen.Exp2NextReg, Brings, MachineBrings, FoundIn, ValueIn, Start, Scoped;
    if Start(c, was, was.freereg) && Scoped(x, was.nvars) && fs.k <= c.k {
      var o0 := Run(c, was.code);
      ExpressionToNextRegister(c, was, x, g1, d, fs.abs, e.abs);
      BringsOnMachine(c, code, was, FoundIn(c.w, x, o0), fs.code, fs.abs);
      BringsOnMachine(c, code, was, ValueIn(c.w, x, o0), fs.code, fs.abs);
    }
  }

  /** Every field of every instruction fits its word, and the words are read back as the code. */
  ghost predicate Readable(code: Code) {
    Read(Words(code)) == code && forall i :: 0 <= i < |code| ==> Encoding.Fits(code[i])
  }

  lemma NextRegReadable(g: Gen, x: Expr, g1: Gen, d: Desc, g': Gen, d': Desc, code: Code)
    requires Tidy(g) && Scoped(x, g.nvars)
    requires ExprGen.Compile(g, x) == Ok((g1, d)) && ExprGen.Exp2NextReg(g1, d) == Ok((g', d'))
    requires Shows(code, g'.code) && Jmp(Pending) !in g'.code
    ensures Tidy(g') && Readable(code)
  {
    hide Shows, ExprGen.Compile, ExprGen.Exp2NextReg, Scoped, Encoding.Fits, Read, Words, SaneCode;
    CompileTidy(g, x);
    NextRegTidy(g1, d);
    WordsHold(code, g');
  }

  /** `subexpr` and `luaK_exp2nextreg`: in any program, and wherever a run of the old code starts, the machine
      goes on to bring what the expression finds to the next register. */
  method ExprToNextReg(fs: FuncState, x: Expr, e: G.ExpDesc) returns (r: Res<()>)
    requires fs.Valid() && Jmp(Pending) !in fs.abs.code
    modifies fs, e
    ensures r.Ok? ==> fs.Valid() && Jmp(Pending) !in fs.abs.code
    ensures r.Ok? ==> forall c: Env :: Generated(c, old(fs.abs), old(fs.code), x, fs, e)
    ensures r.Ok? && Tidy(old(fs.abs)) && Scoped(x, old(fs.abs).nvars) ==> Tidy(fs.abs) && Readable(fs.code)
    ensures RoomFor(old(fs.abs), x, 1) && old(fs.abs).freereg + 1 < MAXREGS ==> r.Ok?
  {
    hide Open, Threads, Kept, Shows, Closed, ExprGen.Compile, ExprGen.Exp2NextReg, Generated, Readable, Tidy, Scoped;
    ghost var n := |fs.code|;
    if RoomFor(fs.abs, x, 1) && fs.abs.freereg + 1 < MAXREGS { SmallCompiles(fs.abs, x); }
    r := SubExpr(fs, x, e);
    if r.Fail? { return; }
    label L:
    ghost var g1, d := fs.abs, e.abs;
    r := G.Exp2NextReg(fs, e, n);
    if r.Fail? { return; }
    StaysOn(old(Now(fs)), old@L(Now(fs)), Now(fs), n);
    AllPatched(old(fs.abs).code, fs.abs.code);
    if Tidy(old(fs.abs)) && Scoped(x, old(fs.abs).nvars) {
      NextRegReadable(old(fs.abs), x, g1, d, fs.abs, e.abs, fs.code);
    }
    forall c: Env ensures Generated(c, old(fs.abs), old(fs.code), x, fs, e) {
      GeneratedAlways(c, old(fs.abs), old(fs.code), x, fs, e, g1, d);
    }
  }

  /** The machine brings a value to the first free register, from the registers of the local variables. */
  ghost predicate Leaves(w: World, v: Option<Value>, nvars: nat, k: seq<Value>, code: Code, r: Regs) {
    var o := Machine(w, k, code, 0, r);
    if v.None? then o == Raise
    else o.Fall? && Get(o.r, nvars) == v.value && Same(r, o.r, nvars, nvars)
  }

  /** A function that only evaluates an expression over `nvars` local variables: it leaves what is found, and the value
      exactly where that is what is found. */
  method CompileExpr(x: Expr, nvars: nat) returns (r: Res<FuncState>)
    requires nvars < MAXREGS && Scoped(x, nvars)
    ensures r.Ok? ==> forall w: World, s: Regs ::
                        && Leaves(w, Found(w, x, s), nvars, r.value.k, r.value.code, s)
                        && (Leaves(w, Eval(w, x, s), nvars, r.value.k, r.value.code, s) <==> Found(w, x, s) == Eval(w, x, s))
    ensures r.Ok? ==> Readable(r.value.code)
    ensures nvars + Max(1, Depth(x)) < 255 && 8 * Cost(x) + 8 < 16777215 ==> r.Ok?
  {
    var fs := new FuncState(nvars);
    var e := new G.ExpDesc(VNil);
    var done := ExprToNextReg(fs, x, e);
    if done.Fail? { return Fail(done.error); }
    forall w: World, s: Regs
      ensures Leaves(w, Found(w, x, s), nvars, fs.k, fs.code, s)
      ensures Leaves(w, Eval(w, x, s), nvars, fs.k, fs.code, s) <==> Found(w, x, s) == Eval(w, x, s)
    {
      hide Found, Eval;
      var c := Env(w, fs.k, 0, s);
      assert Generated(c, Gen([], [], nvars, 0, nvars), [], x, fs, e);
    }
    return Ok(fs);
  }
}
