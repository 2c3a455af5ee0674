/** The compiler correctness theorem for expressions. */
module ExprMain {
  import opened Wrappers
  import opened LuaOps
  import opened ExprGen
  import opened ExecLemmas
  import opened ExprCorrect
  import opened ExprBranch
  import opened ExprRel

  /** The descriptor of an expression as far as its text tells: its constant, if that is what its main value is, and
      whether there are jumps in either list. */
  function Shape(e: Expr): ExpDesc<bool> {
    match e
    case ENot(a) =>
      var d := Shape(a);
      ExpDesc(if AlwaysFalse(d.k) then VTrue else if AlwaysTrue(d.k) then VFalse else VNonReloc(0), d.f, d.t)
    case EAnd(a, b) =>
      var d1, d2 := Shape(a), Shape(b);
      ExpDesc(d2.k, d2.t, d2.f || d1.f || !AlwaysTrue(d1.k))
    case EOr(a, b) =>
      var d1, d2 := Shape(a), Shape(b);
      ExpDesc(d2.k, d2.t || d1.t || !AlwaysFalse(d1.k), d2.f)
    case ERel(_, _, _) => ExpDesc(VNonReloc(0), false, false)
    case _ => ExpDesc(if e.ELocal? then VNonReloc(0) else Leaf(e), false, false)
  }

  predicate IsConst(k: Kind) {
    AlwaysTrue(k) || AlwaysFalse(k)
  }

  /** The guard of the branch of `codeorder` that goes wrong: the left operand of `<` or `<=` is an integer that fits
      an immediate, and the right one an integral float behind jumps. */
  predicate Leaky(op: RelOp, l: Expr, r: Expr) {
    var a, b := Shape(l), Shape(r);
    && (op.Lt? || op.Le?)
    && a.k.VKInt? && !a.t && !a.f && FitsC(a.k.i)
    && b.k.VKFlt? && (b.t || b.f) && FltToInt(b.k.x).Some?
  }

  /** The left operand as the code compares it. */
  function SeenAs(op: RelOp, l: Expr, r: Expr, v: Option<Value>): Option<Value> {
    if Leaky(op, l, r) && v.Some? then Some(Flt(Shape(l).k.i as real)) else v
  }

  /** What the code of an expression finds: its evaluation, with every comparison as the code makes it. This and the
      value differ only where operands leak. */
  function Found(w: World, e: Expr, s: Regs): Option<Value> {
    match e
    case ENot(a) => NotOf(Found(w, a, s))
    case EAnd(a, b) => ShortCircuit(Found(w, a, s), Found(w, b, s), true)
    case EOr(a, b) => ShortCircuit(Found(w, a, s), Found(w, b, s), false)
    case ERel(op, a, b) => Rel2(w, op, SeenAs(op, a, b, Found(w, a, s)), Found(w, b, s))
    case _ => Eval(w, e, s)
  }

  function ShortCircuit(v1: Option<Value>, v2: Option<Value>, through: bool): Option<Value> {
    if v1.None? || Truthy(v1.value) != through then v1 else v2
  }

  /** Only the local variables matter. */
  lemma FoundSame(w: World, e: Expr, r: Regs, s: Regs, nvars: nat)
    requires Scoped(e, nvars) && Same(r, s, nvars, NO_REG) && nvars <= NO_REG
    ensures Found(w, e, r) == Found(w, e, s)
  {
  }

  /** The descriptor has the shape its expression tells. */
  ghost predicate Has(e: Expr, d: Desc) {
    var s := Shape(e);
    && !d.k.VK? && (if IsConst(s.k) then d.k == s.k else !IsConst(d.k))
    && (d.t != [] <==> s.t) && (d.f != [] <==> s.f)
  }

  /** What the code of `e` finds where the old code fell through. */
  function FoundIn(w: World, e: Expr, o0: Outcome): Option<Value> {
    if o0.Fall? then Found(w, e, o0.r) else None
  }

  // ----- and, or -----

  lemma NoDupConcat(a: seq<nat>, b: seq<nat>, m: nat)
    requires NoDup(a) && NoDup(b) && (forall j :: j in a ==> m < j) && (forall j :: j in b ==> j < m)
    ensures NoDup(a + b)
  {
    forall i, j | 0 <= i < j < |a + b| ensures (a + b)[i] != (a + b)[j] {
      assert i < |a| ==> a[i] in a;
      assert j >= |a| ==> b[j - |a|] in b;
    }
  }

  lemma JoinedLists(g1: Gen, t: seq<nat>, f: seq<nat>, g2: Gen, d2: Desc, n: nat)
    requires ListsOf(g1.code, t, f, n) && Lists(g2, d2, |g1.code|) && Extends(g1, g2, |g1.code|) && n <= |g1.code|
    ensures Lists(g2, d2.(t := d2.t + t, f := d2.f + f), n)
    ensures forall j :: j in t || j in f ==> Waiting(g1.code, j) && Waiting(g2.code, j) && g2.code[j - 1] == g1.code[j - 1]
  {
    forall j | j in t || j in f
      ensures Waiting(g1.code, j) && Waiting(g2.code, j) && g2.code[j - 1] == g1.code[j - 1] && n < j < |g1.code|
    {
      assert Waiting(g1.code, j);
    }
    NoDupConcat(d2.t, t, |g1.code|);
    NoDupConcat(d2.f, f, |g1.code|);
  }

  /** The second operand of `and` or `or`, joined by the exits of the first. */
  lemma JoinOperands(c: Env, g1: Gen, t: seq<nat>, f: seq<nat>, g2: Gen, d2: Desc, n: nat, o0: Outcome,
                     v1: Option<Value>, v2: Option<Value>, fr: nat, through: bool)
    requires Branches(c, g1, t, f, n, o0, v1, fr, through)
    requires if through then t == [] else f == []
    requires Ready(c, g2, d2, |g1.code|, Run(c, g1.code), v2, fr) && Extends(g1, g2, |g1.code|)
    ensures Ready(c, g2, d2.(t := d2.t + t, f := d2.f + f), n, o0, ShortCircuit(v1, v2, through), fr)
  {
    JoinedLists(g1, t, f, g2, d2, n);
    if o0.Fall? { JoinedDelivers(c, g1, t, f, g2, d2, o0, v1, v2, fr, through); }
    hide Delivers, Lists, Leaves, ListsOf;
  }

  lemma JoinedDelivers(c: Env, g1: Gen, t: seq<nat>, f: seq<nat>, g2: Gen, d2: Desc, o0: Outcome,
                       v1: Option<Value>, v2: Option<Value>, fr: nat, through: bool)
    requires o0.Fall? && (if through then t == [] else f == [])
    requires var o1 := Run(c, g1.code); var o2 := Run(c, Body(g2, d2));
             && Leaves(g1.code, t, f, o1, v1, o0.r, fr) && (o1.Fall? ==> Truthy(v1.value) == through)
             && (if o1.Fall? then Delivers(c, g2.code, d2, o2, v2, o1.r, fr, NO_REG) else o2 == o1)
    requires forall j :: j in t || j in f ==> Waiting(g1.code, j) && Waiting(g2.code, j) && g2.code[j - 1] == g1.code[j - 1]
    ensures Delivers(c, g2.code, d2.(t := d2.t + t, f := d2.f + f), Run(c, Body(g2, d2)),
                     ShortCircuit(v1, v2, through), o0.r, fr, NO_REG)
  {
    hide Exec;
  }

  /** The state a sub-expression is compiled in. */
  ghost predicate Start(c: Env, g: Gen, fr: nat) {
    Sound(c, g) && g.nvars <= fr == g.freereg < MAXREGS
  }

  /** The promise of the theorem for one expression. */
  ghost predicate Compiled(c: Env, g: Gen, e: Expr, g': Gen, d: Desc) {
    && Ready(c, g', d, |g.code|, Run(c, g.code), FoundIn(c.w, e, Run(c, g.code)), g.freereg)
    && Extends(g, g', |g.code|) && Has(e, d)
  }

  lemma CompileLeaf(c: Env, g: Gen, e: Expr)
    requires Start(c, g, g.freereg) && Scoped(e, g.nvars) && (e.ELocal? || e.ENil? || e.ETrue? || e.EFalse? || e.EInt? || e.EFlt? || e.EStr?)
    ensures Compiled(c, g, e, g, ExpDesc(Leaf(e), [], []))
  {
    ExitIsPending(c.w, c.k, g.code, c.q, c.r);
  }

  /** Short-circuit operators, for `and` with `through` true and `or` with it false. */
  lemma CompileJoin(c: Env, g: Gen, e: Expr, l: Expr, r: Expr, through: bool, g1: Gen, d1: Desc, g2: Gen,
                    t: seq<nat>, f: seq<nat>, g3: Gen, d2: Desc)
    requires Start(c, g, g.freereg) && Scoped(r, g.nvars) && e == (if through then EAnd(l, r) else EOr(l, r))
    requires Branches(c, g2, t, f, |g.code|, Run(c, g.code), FoundIn(c.w, l, Run(c, g.code)), g.freereg, through)
    requires if through then t == [] else f == []
    requires Extends(g, g1, |g.code|) && Extends(g1, g2, |g.code|) && g2.freereg == g.freereg
    requires Compiled(c, g2, r, g3, d2) && Has(e, d2.(t := d2.t + t, f := d2.f + f))
    ensures Compiled(c, g, e, g3, d2.(t := d2.t + t, f := d2.f + f))
  {
    var o0 := Run(c, g.code);
    var o1 := Run(c, g2.code);
    var v1 := FoundIn(c.w, l, o0);
    var v2 := FoundIn(c.w, r, o1);
    JoinOperands(c, g2, t, f, g3, d2, |g.code|, o0, v1, v2, g.freereg, through);
    if o0.Fall? && o1.Fall? {
      assert Same(o0.r, o1.r, g.nvars, NO_REG);
      FoundSame(c.w, r, o0.r, o1.r, g.nvars);
    }
    hide Delivers, Lists, ListsOf, Exec, Sound, Has;
    var d := d2.(t := d2.t + t, f := d2.f + f);
    JoinedValue(c, g3, d, |g.code|, o0, o1, l, r, e, through, g.freereg);
  }

  lemma JoinedValue(c: Env, g: Gen, d: Desc, n: nat, o0: Outcome, o1: Outcome, l: Expr, r: Expr, e: Expr, through: bool, fr: nat)
    requires e == (if through then EAnd(l, r) else EOr(l, r))
    requires Ready(c, g, d, n, o0, ShortCircuit(FoundIn(c.w, l, o0), FoundIn(c.w, r, o1), through), fr)
    requires o0.Fall? && o1.Fall? ==> Found(c.w, r, o0.r) == Found(c.w, r, o1.r)
    requires o0.Fall? && !o1.Fall? ==> FoundIn(c.w, l, o0).None? || Truthy(FoundIn(c.w, l, o0).value) != through
    ensures Ready(c, g, d, n, o0, FoundIn(c.w, e, o0), fr)
  {
    AnyValue(c, g, d, n, o0, ShortCircuit(FoundIn(c.w, l, o0), FoundIn(c.w, r, o1), through), FoundIn(c.w, e, o0), fr);
  }

  // ----- the induction -----

  /** The comparison of two compiled operands. */
  lemma CompareOperands(c: Env, g: Gen, op: RelOp, l: Expr, r: Expr, g1: Gen, d1: Desc, g2: Gen, e1: Desc, g3: Gen,
                        d2: Desc, n: nat, o0: Outcome, fr: nat)
    requires Ready(c, g2, e1, n, o0, FoundIn(c.w, l, o0), fr) && FirstOf(c, op, e1) && n <= |g2.code|
    requires Compiled(c, g2, r, g3, d2)
    requires SeenFirst(op, e1, d2, FoundIn(c.w, l, o0)) == SeenAs(op, l, r, FoundIn(c.w, l, o0))
    requires PosfixRel(g3, op, e1, d2).Ok? && PosfixRel(g3, op, e1, d2).value.0.k <= c.k
    requires Scoped(r, g2.nvars) && g2.nvars <= fr < MAXREGS
    ensures var (g', d') := PosfixRel(g3, op, e1, d2).value;
            Ready(c, g', d', n, o0, FoundIn(c.w, ERel(op, l, r), o0), fr) && Extends(g3, g', n) && PureTest(d')
  {
    var o1 := Run(c, g2.code);
    var v1 := FoundIn(c.w, l, o0);
    var v2 := FoundIn(c.w, r, o1);
    PosfixRelReady(c, g3, op, e1, d2, g2, n, o0, v1, v2, fr);
    OperandValues(c, g2, e1, op, l, r, n, o0, fr);
    hide PosfixRel, Ready, Extends, Run, Rel2, Found, SeenAs, SeenFirst;
    var (g', d') := PosfixRel(g3, op, e1, d2).value;
    AnyValue(c, g', d', n, o0, Rel2(c.w, op, SeenAs(op, l, r, v1), v2), FoundIn(c.w, ERel(op, l, r), o0), fr);
  }

  lemma RelOfValues(w: World, op: RelOp, l: Expr, r: Expr, s: Regs, v2: Option<Value>)
    requires if Found(w, l, s).None? then v2.None? else v2 == Found(w, r, s)
    ensures Rel2(w, op, SeenAs(op, l, r, Found(w, l, s)), v2) == Found(w, ERel(op, l, r), s)
  {
    hide Leaky, Compare;
  }

  /** The second operand sees the local variables the first one saw. */
  lemma OperandValues(c: Env, g2: Gen, e1: Desc, op: RelOp, l: Expr, r: Expr, n: nat, o0: Outcome, fr: nat)
    requires Ready(c, g2, e1, n, o0, FoundIn(c.w, l, o0), fr) && Simple(e1) && Scoped(r, g2.nvars) && g2.nvars <= fr < MAXREGS
    ensures var v1 := FoundIn(c.w, l, o0);
            o0.Fall? ==> Rel2(c.w, op, SeenAs(op, l, r, v1), FoundIn(c.w, r, Run(c, g2.code))) == FoundIn(c.w, ERel(op, l, r), o0)
  {
    hide Ready, Run, SeenAs, Rel2, Found, Scoped;
    if o0.Fall? {
      SecondSees(c, g2, e1, n, o0, FoundIn(c.w, l, o0), fr);
      if Run(c, g2.code).Fall? {
        FoundSame(c.w, r, o0.r, Run(c, g2.code).r, g2.nvars);
      }
      RelOfValues(c.w, op, l, r, o0.r, FoundIn(c.w, r, Run(c, g2.code)));
    }
  }

  /** A comparison finds what its operands leave to be seen, right or not. */
  lemma CompileComparison(c: Env, g: Gen, op: RelOp, l: Expr, r: Expr, g1: Gen, d1: Desc, g3: Gen, d2: Desc)
    requires Start(c, g, g.freereg) && Scoped(r, g.nvars)
    requires Compiled(c, g, l, g1, d1) && g1.k <= c.k
    requires InfixRel(g1, op, d1).Ok? && InfixRel(g1, op, d1).value.0.k <= c.k
    requires Compiled(c, InfixRel(g1, op, d1).value.0, r, g3, d2)
    requires var e1 := InfixRel(g1, op, d1).value.1;
             PosfixRel(g3, op, e1, d2).Ok? && PosfixRel(g3, op, e1, d2).value.0.k <= c.k
    ensures var e1 := InfixRel(g1, op, d1).value.1; var (g', d') := PosfixRel(g3, op, e1, d2).value;
            Compiled(c, g, ERel(op, l, r), g', d')
  {
    var n := |g.code|;
    var o0 := Run(c, g.code);
    hide InfixRel, PosfixRel, Ready, Run, Sound, FirstOf, SeenFirst, SeenAs, Has;
    var (g2, e1) := InfixRel(g1, op, d1).value;
    HasPlain(l, d1);
    InfixRelReady(c, g1, op, d1, n, o0, FoundIn(c.w, l, o0), g.freereg);
    ReadyLists(c, g1, d1, n, o0, FoundIn(c.w, l, o0), g.freereg);
    ReadyLists(c, g3, d2, |g2.code|, Run(c, g2.code), FoundIn(c.w, r, Run(c, g2.code)), g2.freereg);
    SeenByShape(g1, op, l, r, g1, d1, g3, d2, n, |g2.code|, FoundIn(c.w, l, o0));
    CompareOperands(c, g, op, l, r, g1, d1, g2, e1, g3, d2, n, o0, g.freereg);
    hide Extends;
    ExtendsStep(g, g1, g2, n);
    ExtendsLess(g2, g3, |g2.code|, n);
    ExtendsStep(g, g2, g3, n);
    ExtendsStep(g, g3, PosfixRel(g3, op, e1, d2).value.0, n);
    TestShape(ERel(op, l, r), PosfixRel(g3, op, e1, d2).value.1);
  }

  lemma ExtendsLess(g: Gen, g': Gen, m: nat, n: nat)
    requires Extends(g, g', m) && n <= m
    ensures Extends(g, g', n)
  {
  }

  /** With no jumps left, the code of an operand falls through, with the local variables as they were, or
      raises the operand's error. */
  lemma SecondSees(c: Env, g: Gen, d: Desc, n: nat, o0: Outcome, v: Option<Value>, fr: nat)
    requires Ready(c, g, d, n, o0, v, fr) && Simple(d)
    ensures var o1 := Run(c, g.code);
            if !o0.Fall? then !o1.Fall? else if v.None? then o1.Raise? else o1.Fall? && Same(o0.r, o1.r, g.nvars, NO_REG)
  {
  }

  /** A small integer is left as it is, and no other operand becomes one. */
  lemma InfixKeepsSmall(g: Gen, op: RelOp, d: Desc)
    requires (op.Lt? || op.Le?) && InfixRel(g, op, d).Ok?
    ensures var e := InfixRel(g, op, d).value.1;
            (e.k.VKInt? && SCNumber(e).0.Some?) == (d.k.VKInt? && SCNumber(d).0.Some?) && (e.k.VKInt? ==> e == d)
  {
    hide Discharge2Reg, Join;
  }

  /** What `codeorder` makes of the left operand can be told from the text of both. */
  lemma SeenByShape(g: Gen, op: RelOp, l: Expr, r: Expr, g1: Gen, d1: Desc, g3: Gen, d2: Desc, n: nat, m: nat, v: Option<Value>)
    requires InfixRel(g, op, d1).Ok? && Has(l, d1) && Has(r, d2) && Lists(g1, d1, n) && Lists(g3, d2, m)
    ensures SeenFirst(op, InfixRel(g, op, d1).value.1, d2, v) == SeenAs(op, l, r, v)
  {
    if op.Lt? || op.Le? {
      InfixKeepsSmall(g, op, d1);
      JumpsByLists(g1, d1, n);
      JumpsByLists(g3, d2, m);
    }
    hide InfixRel, Shape, Lists, HasJumps;
  }

  lemma JumpsByLists(g: Gen, d: Desc, n: nat)
    requires Lists(g, d, n)
    ensures HasJumps(d) <==> d.t != [] || d.f != []
  {
    if d.t != [] { assert d.t[0] in d.t; }
  }

  lemma HasPlain(e: Expr, d: Desc)
    requires Has(e, d)
    ensures !d.k.VK?
  {
  }

  lemma ReadyLists(c: Env, g: Gen, d: Desc, n: nat, o0: Outcome, v: Option<Value>, fr: nat)
    requires Ready(c, g, d, n, o0, v, fr)
    ensures Lists(g, d, n)
  {
  }

  /** Compiling any expression adds its evaluation to whatever code there was, with comparisons as the code makes them. */
  lemma {:induction false} CompileReady(c: Env, g: Gen, e: Expr)
    requires Start(c, g, g.freereg) && Scoped(e, g.nvars)
    requires Compile(g, e).Ok? && Compile(g, e).value.0.k <= c.k
    ensures var (g', d) := Compile(g, e).value; Compiled(c, g, e, g', d)
    decreases e
  {
    hide Ready, Branches, Sound, Run, Has, CodeNot, GoIfTrue, GoIfFalse, InfixRel, PosfixRel;
    match e
    case ENot(a) =>
      CompileReady(c, g, a);
      var (g1, d1) := Compile(g, a).value;
      CompileNegation(c, g, a, g1, d1);
    case EAnd(l, r) =>
      CompileReady(c, g, l);
      var (g1, d1) := Compile(g, l).value;
      var (g2, f1) := GoIfTrue(g1, d1).value;
      AfterFirst(c, g, l, g1, d1, g2, true);
      CompileReady(c, g2, r);
      var (g3, d2) := Compile(g2, r).value;
      JoinShape(e, l, r, g1, d1, d2, true);
      CompileJoin(c, g, e, l, r, true, g1, d1, g2, [], f1, g3, d2);
      JoinedDesc(c, g, e, g3, d2, [], f1);
    case EOr(l, r) =>
      CompileReady(c, g, l);
      var (g1, d1) := Compile(g, l).value;
      var (g2, t1) := GoIfFalse(g1, d1).value;
      AfterFirst(c, g, l, g1, d1, g2, false);
      CompileReady(c, g2, r);
      var (g3, d2) := Compile(g2, r).value;
      JoinShape(e, l, r, g1, d1, d2, false);
      CompileJoin(c, g, e, l, r, false, g1, d1, g2, t1, [], g3, d2);
      JoinedDesc(c, g, e, g3, d2, t1, []);
    case ERel(op, l, r) =>
      CompileReady(c, g, l);
      var (g1, d1) := Compile(g, l).value;
      var (g2, e1) := InfixRel(g1, op, d1).value;
      SecondStart(c, g, l, op, g1, d1);
      CompileReady(c, g2, r);
      var (g3, d2) := Compile(g2, r).value;
      CompileComparison(c, g, op, l, r, g1, d1, g3, d2);
    case _ => CompileLeaf(c, g, e);
  }

  lemma TestShape(e: Expr, d': Desc)
    requires e.ERel? && PureTest(d')
    ensures Has(e, d')
  {
  }

  lemma CompileNegation(c: Env, g: Gen, a: Expr, g1: Gen, d1: Desc)
    requires Compiled(c, g, a, g1, d1) && CodeNot(g1, d1).Ok? && CodeNot(g1, d1).value.0.k <= c.k
    ensures var (g', d') := CodeNot(g1, d1).value; Compiled(c, g, ENot(a), g', d')
  {
    var o0 := Run(c, g.code);
    CodeNotReady(c, g1, d1, |g.code|, o0, FoundIn(c.w, a, o0), g.freereg);
    var (g', d') := CodeNot(g1, d1).value;
    NotShape(g1, a, d1);
    hide Ready, CodeNot, Has;
    AnyValue(c, g', d', |g.code|, o0, NotOf(FoundIn(c.w, a, o0)), FoundIn(c.w, ENot(a), o0), g.freereg);
    ExtendsStep(g, g1, g', |g.code|);
  }

  lemma NotShape(g: Gen, a: Expr, d: Desc)
    requires CodeNot(g, d).Ok? && Has(a, d)
    ensures Has(ENot(a), CodeNot(g, d).value.1)
  {
    hide RemoveValues, Discharge2AnyReg;
  }

  /** The exit of the first operand of `and` (`through`) or `or` is missing where the operand is known to go on. */
  lemma ExitShape(g: Gen, d: Desc, through: bool)
    requires if through then GoIfTrue(g, d).Ok? else GoIfFalse(g, d).Ok?
    ensures var (l, x, goesOn) := if through then (GoIfTrue(g, d).value.1, d.f, AlwaysTrue(d.k))
                                  else (GoIfFalse(g, d).value.1, d.t, AlwaysFalse(d.k));
            l == [] <==> x == [] && goesOn
  {
    hide PatchToHere, JumpOnCond, NegateCondition;
  }

  lemma JoinShape(e: Expr, l: Expr, r: Expr, g1: Gen, d1: Desc, d2: Desc, through: bool)
    requires e == (if through then EAnd(l, r) else EOr(l, r)) && Has(l, d1) && Has(r, d2)
    requires if through then GoIfTrue(g1, d1).Ok? else GoIfFalse(g1, d1).Ok?
    ensures var x := if through then GoIfTrue(g1, d1).value.1 else GoIfFalse(g1, d1).value.1;
            Has(e, if through then d2.(t := d2.t + [], f := d2.f + x) else d2.(t := d2.t + x, f := d2.f + []))
  {
    ExitShape(g1, d1, through);
    hide GoIfTrue, GoIfFalse;
  }

  /** After `luaK_goiftrue` or `luaK_goiffalse` the second operand can be compiled. */
  lemma AfterFirst(c: Env, g: Gen, l: Expr, g1: Gen, d1: Desc, g2: Gen, through: bool)
    requires Start(c, g, g.freereg) && Compiled(c, g, l, g1, d1) && g2.k <= c.k
    requires if through then GoIfTrue(g1, d1).Ok? && GoIfTrue(g1, d1).value.0 == g2
             else GoIfFalse(g1, d1).Ok? && GoIfFalse(g1, d1).value.0 == g2
    ensures Start(c, g2, g.freereg) && Extends(g1, g2, |g.code|)
    ensures Branches(c, g2, if through then [] else GoIfFalse(g1, d1).value.1, if through then GoIfTrue(g1, d1).value.1 else [],
                     |g.code|, Run(c, g.code), FoundIn(c.w, l, Run(c, g.code)), g.freereg, through)
  {
    var o0 := Run(c, g.code);
    if through {
      GoIfTrueBranches(c, g1, d1, |g.code|, o0, FoundIn(c.w, l, o0), g.freereg);
    } else {
      GoIfFalseBranches(c, g1, d1, |g.code|, o0, FoundIn(c.w, l, o0), g.freereg);
    }
    hide GoIfTrue, GoIfFalse;
  }

  /** `luaK_posfix` joins the lists and discharges a local variable. */
  lemma JoinedDesc(c: Env, g: Gen, e: Expr, g3: Gen, d2: Desc, t: seq<nat>, f: seq<nat>)
    requires Compiled(c, g, e, g3, d2.(t := d2.t + t, f := d2.f + f))
    ensures Compiled(c, g, e, g3, DischargeVars(d2).(t := d2.t + t, f := d2.f + f))
    ensures d2.t + [] == d2.t && d2.f + [] == d2.f
  {
    var d := d2.(t := d2.t + t, f := d2.f + f);
    DischargeVarsReady(c, g3, d, |g.code|, Run(c, g.code), FoundIn(c.w, e, Run(c, g.code)), g.freereg);
  }

  lemma SecondStart(c: Env, g: Gen, l: Expr, op: RelOp, g1: Gen, d1: Desc)
    requires Start(c, g, g.freereg) && Compiled(c, g, l, g1, d1)
    requires InfixRel(g1, op, d1).Ok? && InfixRel(g1, op, d1).value.0.k <= c.k
    ensures var g2 := InfixRel(g1, op, d1).value.0; Start(c, g2, g2.freereg) && g2.nvars == g.nvars
  {
    InfixRelReady(c, g1, op, d1, |g.code|, Run(c, g.code), FoundIn(c.w, l, Run(c, g.code)), g.freereg);
    hide InfixRel;
  }

  // ----- the theorems -----

  /** What a run of the old code did, followed by a value in register `reg`, or by an error where there is none. */
  ghost predicate Brings(c: Env, g: Gen, v: Option<Value>, g': Gen, reg: nat) {
    var o0 := Run(c, g.code);
    var o := Run(c, g'.code);
    if !o0.Fall? then o == o0
    else if v.None? then o == Raise
    else o.Fall? && Get(o.r, reg) == v.value && Same(o0.r, o.r, g.freereg, reg)
  }

  /** The value of an expression where the old code fell through. */
  function ValueIn(w: World, e: Expr, o0: Outcome): Option<Value> {
    if o0.Fall? then Eval(w, e, o0.r) else None
  }

  /** The code is right for this run: it brings the value of the expression. */
  ghost predicate Computes(c: Env, g: Gen, e: Expr, g': Gen, reg: nat) {
    Brings(c, g, ValueIn(c.w, e, Run(c, g.code)), g', reg)
  }

  /** A value decides where a run goes on: past the code when it is true, and otherwise to the target, still to be
      decided, of a jump in `exits`. */
  ghost predicate Branching(c: Env, g: Gen, v: Option<Value>, g': Gen, exits: seq<nat>) {
    var o0 := Run(c, g.code);
    var o := Run(c, g'.code);
    if !o0.Fall? then o == o0
    else if v.None? then o == Raise
    else if Truthy(v.value) then o.Fall? && Same(o0.r, o.r, g.freereg, NO_REG)
    else o.Exit? && o.at in exits && Same(o0.r, o.r, g.freereg, NO_REG)
  }

  /** What is found in the register is the value only if it is the value that is found. */
  lemma RightExactly(c: Env, g: Gen, e: Expr, g': Gen, reg: nat)
    requires Brings(c, g, FoundIn(c.w, e, Run(c, g.code)), g', reg)
    ensures Computes(c, g, e, g', reg) <==> FoundIn(c.w, e, Run(c, g.code)) == ValueIn(c.w, e, Run(c, g.code))
  {
    hide Found, Eval, Exec;
  }

  /** An expression without jumps whose value is in a register has been brought there. */
  lemma Arrived(c: Env, g: Gen, v: Option<Value>, g': Gen, d': Desc, reg: nat)
    requires Yields(c, g', d', |g.code|, Run(c, g.code), v, g.freereg, reg) && d' == ExpDesc(VNonReloc(reg), [], [])
    ensures Brings(c, g, v, g', reg) && Sound(c, g')
  {
  }

  /** `luaK_exp2nextreg`: what is found ends in the next register, every other register in use is unchanged, and no jump
      of the expression is left without a target. The register holds the value of the expression if and only if that is
      what is found. */
  lemma ExpressionToNextRegister(c: Env, g: Gen, e: Expr, g1: Gen, d: Desc, g': Gen, d': Desc)
    requires Start(c, g, g.freereg) && Scoped(e, g.nvars)
    requires Compile(g, e) == Ok((g1, d)) && Exp2NextReg(g1, d) == Ok((g', d')) && g'.k <= c.k
    ensures var o0 := Run(c, g.code);
            && Brings(c, g, FoundIn(c.w, e, o0), g', g.freereg)
            && (Computes(c, g, e, g', g.freereg) <==> FoundIn(c.w, e, o0) == ValueIn(c.w, e, o0))
    ensures d' == ExpDesc(VNonReloc(g.freereg), [], []) && g'.freereg == g.freereg + 1
    ensures Sound(c, g') && Extends(g, g', |g.code|)
  {
    var o0 := Run(c, g.code);
    var v := FoundIn(c.w, e, o0);
    hide Compile, Exp2NextReg, Run, FoundIn, Yields, Brings, Computes;
    CompileReady(c, g, e);
    Exp2NextRegReady(c, g1, d, |g.code|, o0, v, g.freereg);
    ExceptRegister(c, g', d', |g.code|, o0, v, g.freereg, g.freereg);
    Arrived(c, g, v, g', d', g.freereg);
    RightExactly(c, g, e, g', g.freereg);
  }

  /** Where the code of an expression starts: with the LOADNIL before it, if that may still be widened. */
  function StartOf(g: Gen): nat {
    if |g.code| > g.lasttarget && g.code[|g.code| - 1].LoadNil? then |g.code| - 1 else |g.code|
  }

  /** There a run can always start, whatever code comes before, loops included. */
  lemma StartsAnywhere(c: Env, g: Gen)
    requires c.q == StartOf(g) && g.lasttarget <= |g.code| && g.k <= c.k && g.nvars <= g.freereg < MAXREGS
    ensures Start(c, g, g.freereg)
    ensures Run(c, g.code) == Fall(if c.q < |g.code| then Load(c.k, g.code[c.q], c.r) else c.r)
  {
    if c.q < |g.code| {
      assert ShapedAt(g.code, g.lasttarget, c.q);
      var s := Load(c.k, g.code[c.q], c.r);
      assert StepAt(c.w, c.k, g.code, c.q, c.r) == Next(c.q + 1, s);
      assert Exec(c.w, c.k, g.code, c.q + 1, s) == Fall(s);
    }
  }

  /** So what is found is computed after any code at all, from any registers. */
  lemma ExpressionAnywhere(c: Env, g: Gen, e: Expr, g1: Gen, d: Desc, g': Gen, d': Desc)
    requires c.q == StartOf(g) && g.lasttarget <= |g.code| && g.nvars <= g.freereg < MAXREGS && Scoped(e, g.nvars)
    requires Compile(g, e) == Ok((g1, d)) && Exp2NextReg(g1, d) == Ok((g', d')) && g'.k <= c.k
    ensures var o := Run(c, g'.code); var r0 := if c.q < |g.code| then Load(c.k, g.code[c.q], c.r) else c.r;
            var v := Found(c.w, e, r0);
            if v.None? then o == Raise
            else o.Fall? && Get(o.r, g.freereg) == v.value && Same(r0, o.r, g.freereg, g.freereg)
  {
    hide Compile, Exp2NextReg, Found, Sound, Exec;
    StartsAnywhere(c, g);
    ExpressionToNextRegister(c, g, e, g1, d, g', d');
  }

  /** Excepting a register asks for less. */
  lemma ExceptRegister(c: Env, g: Gen, d: Desc, n: nat, o0: Outcome, v: Option<Value>, fr: nat, x: nat)
    requires Yields(c, g, d, n, o0, v, fr, NO_REG)
    ensures Yields(c, g, d, n, o0, v, fr, x)
  {
  }

  /** `luaK_storevar` of a local variable: what is found ends in its register. */
  lemma ExpressionToLocal(c: Env, g: Gen, e: Expr, reg: nat, g1: Gen, d: Desc, g': Gen)
    requires Start(c, g, g.freereg) && Scoped(e, g.nvars) && reg < g.nvars
    requires Compile(g, e) == Ok((g1, d)) && StoreLocal(g1, d, reg) == Ok(g') && g'.k <= c.k
    ensures var o0 := Run(c, g.code);
            && Brings(c, g, FoundIn(c.w, e, o0), g', reg)
            && (Computes(c, g, e, g', reg) <==> FoundIn(c.w, e, o0) == ValueIn(c.w, e, o0))
    ensures g'.freereg == g.freereg && Sound(c, g') && Extends(g, g', |g.code|)
  {
    var o0 := Run(c, g.code);
    var v := FoundIn(c.w, e, o0);
    hide Compile, Exp2Reg, Run, FoundIn, Yields, Brings, Computes;
    CompileReady(c, g, e);
    FreeRegFree(c, g1, d, g.freereg, |g.code|, o0, v, g.freereg);
    var g2 := FreeExp(g1, d);
    assert g2 == g1.(freereg := g.freereg);
    Exp2RegYields(c, g2, d, reg, |g.code|, o0, v, g.freereg);
    Arrived(c, g, v, g', Exp2Reg(g2, d, reg).value.1, reg);
    RightExactly(c, g, e, g', reg);
  }

  /** `luaK_goiftrue` on a whole condition. */
  lemma ExpressionAsCondition(c: Env, g: Gen, e: Expr, g1: Gen, d: Desc, g': Gen, exits: seq<nat>)
    requires Start(c, g, g.freereg) && Scoped(e, g.nvars)
    requires Compile(g, e) == Ok((g1, d)) && GoIfTrue(g1, d) == Ok((g', exits)) && g'.k <= c.k
    ensures Branching(c, g, FoundIn(c.w, e, Run(c, g.code)), g', exits)
    ensures g'.freereg == g.freereg && Sound(c, g') && Extends(g, g', |g.code|)
  {
    hide GoIfTrue, Compile, Sound, Found, Exec;
    CompileReady(c, g, e);
    GoIfTrueBranches(c, g1, d, |g.code|, Run(c, g.code), FoundIn(c.w, e, Run(c, g.code)), g.freereg);
  }
}
