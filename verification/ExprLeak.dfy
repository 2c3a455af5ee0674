/** The comparisons that the generated code gets wrong. `codeorder` has one flag for "the immediate was written as
    a float", and a float that is refused as the right operand, because it has jumps, sets it all the same: in
    `1 < (x or 5.0)` the 1 is then compared as 1.0. Two numbers compare by value, so it takes a right operand that
    is no number, and a metamethod or an error message that tells 1 from 1.0. */
module ExprLeak {
  import opened Wrappers
  import opened LuaOps
  import opened ExprGen
  import opened ExecLemmas
  import opened ExprCorrect
  import opened ExprRel
  import opened ExprMain
  import opened ExprTotal

  // ----- one comparison, one run -----

  /** The shape tells the truth of a value that no jump can carry the other way, and the value of a constant
      without jumps. */
  lemma {:induction false} ShapeTells(w: World, e: Expr, s: Regs)
    ensures var d := Shape(e); var v := Eval(w, e, s);
            && !d.k.VK?
            && (v.Some? && AlwaysTrue(d.k) && !d.f ==> Truthy(v.value))
            && (v.Some? && AlwaysFalse(d.k) && !d.t ==> !Truthy(v.value))
            && (v.Some? && IsConst(d.k) && !d.t && !d.f ==> v == ConstOf(d.k))
    decreases e
  {
    match e
    case ENot(a) => ShapeTells(w, a, s);
    case EAnd(l, r) => ShapeTells(w, l, s); ShapeTells(w, r, s);
    case EOr(l, r) => ShapeTells(w, l, s); ShapeTells(w, r, s);
    case _ =>
  }

  /** The operands leak, both have a value, and the world tells the integer on the left from the equal float. */
  predicate Tells(w: World, op: RelOp, l: Expr, r: Expr, s: Regs) {
    && Leaky(op, l, r) && Eval(w, l, s).Some? && Eval(w, r, s).Some?
    && var i, v := Shape(l).k.i, Eval(w, r, s).value;
       Compare(w, op, Flt(i as real), v) != Compare(w, op, Int(i), v)
  }

  /** What a comparison finds once its operands have found their values. */
  lemma FoundUnlessTold(w: World, op: RelOp, l: Expr, r: Expr, s: Regs)
    requires Found(w, l, s) == Eval(w, l, s) && (Eval(w, l, s).Some? ==> Found(w, r, s) == Eval(w, r, s))
    ensures Found(w, ERel(op, l, r), s) == Eval(w, ERel(op, l, r), s) <==> !Tells(w, op, l, r, s)
  {
    ShapeTells(w, l, s);
    hide Compare, Shape;
  }

  /** The operands find their values in a run that comes to them. */
  predicate OperandsRight(w: World, l: Expr, r: Expr, o: Outcome) {
    o.Fall? ==> Found(w, l, o.r) == Eval(w, l, o.r) && (Eval(w, l, o.r).Some? ==> Found(w, r, o.r) == Eval(w, r, o.r))
  }

  /** A comparison whose operands are computed right is computed right exactly where no run tells. */
  lemma ComparisonExact(c: Env, g: Gen, op: RelOp, l: Expr, r: Expr, g1: Gen, d: Desc, g': Gen, d': Desc)
    requires Start(c, g, g.freereg) && Scoped(ERel(op, l, r), g.nvars) && OperandsRight(c.w, l, r, Run(c, g.code))
    requires Compile(g, ERel(op, l, r)) == Ok((g1, d)) && Exp2NextReg(g1, d) == Ok((g', d')) && g'.k <= c.k
    ensures var o0 := Run(c, g.code);
            Computes(c, g, ERel(op, l, r), g', g.freereg) <==> !(o0.Fall? && Tells(c.w, op, l, r, o0.r))
  {
    var o0 := Run(c, g.code);
    hide Compile, Exp2NextReg, Run, Eval, Found, Sound, Tells, Computes, Brings;
    ExpressionToNextRegister(c, g, ERel(op, l, r), g1, d, g', d');
    if o0.Fall? { FoundUnlessTold(c.w, op, l, r, o0.r); }
  }

  // ----- every run -----

  predicate LeakFree(e: Expr) {
    match e
    case ENot(a) => LeakFree(a)
    case EAnd(l, r) => LeakFree(l) && LeakFree(r)
    case EOr(l, r) => LeakFree(l) && LeakFree(r)
    case ERel(op, l, r) => LeakFree(l) && LeakFree(r) && !Leaky(op, l, r)
    case _ => true
  }

  /** No metamethod and no error message depends on whether a number is an integer or a float. */
  ghost predicate Blind(w: World) {
    forall i: int, y: Value :: w.Lt(Flt(i as real), y) == w.Lt(Int(i), y) && w.Le(Flt(i as real), y) == w.Le(Int(i), y)
  }

  /** Without leaking operands, or in a blind world, what is found is the value. */
  lemma {:induction false} FoundIsValue(w: World, e: Expr, s: Regs)
    requires LeakFree(e) || Blind(w)
    ensures Found(w, e, s) == Eval(w, e, s)
    decreases e
  {
    match e
    case ENot(a) => FoundIsValue(w, a, s);
    case EAnd(l, r) => FoundIsValue(w, l, s); FoundIsValue(w, r, s);
    case EOr(l, r) => FoundIsValue(w, l, s); FoundIsValue(w, r, s);
    case ERel(op, l, r) =>
      FoundIsValue(w, l, s);
      FoundIsValue(w, r, s);
      hide Leaky, Found, Eval;
      FoundUnlessTold(w, op, l, r, s);
      if Leaky(op, l, r) { BlindTellsNot(w, op, l, r, s); }
    case _ =>
  }

  lemma BlindTellsNot(w: World, op: RelOp, l: Expr, r: Expr, s: Regs)
    requires Blind(w)
    ensures !Tells(w, op, l, r, s)
  {
  }

  function Empty(nvars: nat): Gen {
    Gen([], [], nvars, 0, nvars)
  }

  /** Some code for the expression, and all that is to be known of it here. */
  predicate CodeFor(nvars: nat, e: Expr, g': Gen) {
    && nvars < MAXREGS && Scoped(e, nvars)
    && Compile(Empty(nvars), e).Ok?
    && var (g1, d) := Compile(Empty(nvars), e).value;
       Exp2NextReg(g1, d).Ok? && Exp2NextReg(g1, d).value.0 == g'
  }

  /** The code computes the expression in every world and from all registers. */
  ghost predicate RightEverywhere(nvars: nat, e: Expr, g': Gen) {
    forall w: World, s: Regs :: Computes(Env(w, g'.k, 0, s), Empty(nvars), e, g', nvars)
  }

  lemma StartEmpty(w: World, k: seq<Value>, s: Regs, nvars: nat)
    requires nvars < MAXREGS
    ensures var c := Env(w, k, 0, s); Start(c, Empty(nvars), nvars) && Run(c, []) == Fall(s)
  {
  }

  lemma RightFrom(nvars: nat, e: Expr, g': Gen, w: World, s: Regs)
    requires CodeFor(nvars, e, g')
    ensures Computes(Env(w, g'.k, 0, s), Empty(nvars), e, g', nvars) <==> Found(w, e, s) == Eval(w, e, s)
  {
    hide Compile, Exp2NextReg, Computes, Brings, Found, Eval, Start, Run;
    var c := Env(w, g'.k, 0, s);
    StartEmpty(w, g'.k, s, nvars);
    var (g1, d) := Compile(Empty(nvars), e).value;
    ExpressionToNextRegister(c, Empty(nvars), e, g1, d, g', Exp2NextReg(g1, d).value.1);
  }

  /** What is found is the value, in every world and from all registers. */
  ghost predicate FoundEverywhere(e: Expr) {
    forall w: World, s: Regs :: Found(w, e, s) == Eval(w, e, s)
  }

  /** No world tells, from any registers. */
  ghost predicate NeverTold(op: RelOp, l: Expr, r: Expr) {
    forall w: World, s: Regs :: !Tells(w, op, l, r, s)
  }

  /** Any expression is computed right everywhere exactly when what is found is everywhere its value. */
  lemma EverywhereRight(nvars: nat, e: Expr, g': Gen)
    requires CodeFor(nvars, e, g')
    ensures RightEverywhere(nvars, e, g') <==> FoundEverywhere(e)
  {
    hide CodeFor, Computes, Found, Eval;
    if RightEverywhere(nvars, e, g') {
      forall w: World, s: Regs ensures Found(w, e, s) == Eval(w, e, s) { RightFrom(nvars, e, g', w, s); }
    }
    if FoundEverywhere(e) {
      forall w: World, s: Regs ensures Computes(Env(w, g'.k, 0, s), Empty(nvars), e, g', nvars) {
        RightFrom(nvars, e, g', w, s);
      }
    }
  }

  /** One comparison of operands that do not leak themselves is right everywhere exactly when no world tells. */
  lemma EverywhereExact(nvars: nat, op: RelOp, l: Expr, r: Expr, g': Gen)
    requires CodeFor(nvars, ERel(op, l, r), g') && LeakFree(l) && LeakFree(r)
    ensures RightEverywhere(nvars, ERel(op, l, r), g') <==> NeverTold(op, l, r)
  {
    hide CodeFor, RightEverywhere, Tells, Found, Eval;
    var e := ERel(op, l, r);
    EverywhereRight(nvars, e, g');
    if FoundEverywhere(e) {
      forall w: World, s: Regs ensures !Tells(w, op, l, r, s) { FoundOrTold(w, op, l, r, s); }
    }
    if NeverTold(op, l, r) {
      forall w: World, s: Regs ensures Found(w, e, s) == Eval(w, e, s) { FoundOrTold(w, op, l, r, s); }
    }
  }

  lemma FoundOrTold(w: World, op: RelOp, l: Expr, r: Expr, s: Regs)
    requires LeakFree(l) && LeakFree(r)
    ensures Found(w, ERel(op, l, r), s) == Eval(w, ERel(op, l, r), s) <==> !Tells(w, op, l, r, s)
  {
    hide Found, Eval, Tells, LeakFree;
    FoundIsValue(w, l, s);
    FoundIsValue(w, r, s);
    FoundUnlessTold(w, op, l, r, s);
  }

  /** Any expression whose comparisons do not leak is right everywhere. */
  lemma LeakFreeRight(nvars: nat, e: Expr, g': Gen)
    requires CodeFor(nvars, e, g') && LeakFree(e)
    ensures RightEverywhere(nvars, e, g')
  {
    hide CodeFor, RightEverywhere, Found, Eval;
    EverywhereRight(nvars, e, g');
    forall w: World, s: Regs ensures Found(w, e, s) == Eval(w, e, s) { FoundIsValue(w, e, s); }
  }

  // ----- operands without comparisons -----

  predicate Plain(e: Expr) {
    match e
    case ENot(a) => Plain(a)
    case EAnd(l, r) => Plain(l) && Plain(r)
    case EOr(l, r) => Plain(l) && Plain(r)
    case ERel(_, _, _) => false
    case _ => true
  }

  lemma {:induction false} PlainValue(w: World, w': World, e: Expr, s: Regs)
    requires Plain(e)
    ensures Eval(w, e, s).Some? && Eval(w', e, s) == Eval(w, e, s) && LeakFree(e)
    decreases e
  {
    match e
    case ENot(a) => PlainValue(w, w', a, s);
    case EAnd(l, r) => PlainValue(w, w', l, s); PlainValue(w, w', r, s);
    case EOr(l, r) => PlainValue(w, w', l, s); PlainValue(w, w', r, s);
    case _ =>
  }

  /** A world that tells floats from everything else. */
  function Telling(): World {
    World((a: Value, b: Value) => Some(a.Flt?), (a: Value, b: Value) => Some(a.Flt?), (i, j) => None)
  }

  function Known(e: Expr, s: Regs): Value {
    var v := Eval(Telling(), e, s);
    if v.Some? then v.value else Nil
  }

  datatype Sort = Number | TrueOther | FalseOther

  /** What the text of an expression says of its value when the local variables in `t` are true and no numbers, and the
      others false. */
  function SortOf(e: Expr, t: set<nat>): Sort {
    match e
    case ELocal(x) => if x in t then TrueOther else FalseOther
    case ETrue => TrueOther
    case EStr(_) => TrueOther
    case EInt(_) => Number
    case EFlt(_) => Number
    case ENot(a) => if SortOf(a, t).FalseOther? then TrueOther else FalseOther
    case EAnd(a, b) => if SortOf(a, t).FalseOther? then FalseOther else SortOf(b, t)
    case EOr(a, b) => if SortOf(a, t).FalseOther? then SortOf(b, t) else SortOf(a, t)
    case _ => FalseOther
  }

  function Locals(e: Expr): set<nat> {
    match e
    case ELocal(x) => {x}
    case ENot(a) => Locals(a)
    case EAnd(a, b) => Locals(a) + Locals(b)
    case EOr(a, b) => Locals(a) + Locals(b)
    case _ => {}
  }

  /** The expression may be something else than a number, as its text tells: for one choice of which of its local
      variables are true. */
  predicate MayBeOther(e: Expr) {
    exists t: set<nat> | t <= Locals(e) :: !SortOf(e, t).Number?
  }

  /** With these local variables true, whether the value is true is as the text says, and it is a number where the text
      says so. */
  lemma {:induction false} SortTells(e: Expr, t: set<nat>, s: Regs)
    requires Plain(e) && forall x :: x in Locals(e) ==> (x in t <==> Truthy(Get(s, x)))
    ensures SortOf(e, t).FalseOther? <==> !Truthy(Known(e, s))
    ensures SortOf(e, t).Number? ==> IsNumber(Known(e, s))
    decreases e
  {
    match e
    case ENot(a) => SortTells(a, t, s); PlainValue(Telling(), Telling(), a, s);
    case EAnd(a, b) => SortTells(a, t, s); SortTells(b, t, s); PlainValue(Telling(), Telling(), a, s);
    case EOr(a, b) => SortTells(a, t, s); SortTells(b, t, s); PlainValue(Telling(), Telling(), a, s);
    case _ =>
  }

  function TrueIn(t: set<nat>): Regs {
    seq(MAXREGS, i => if i in t then True else Nil)
  }

  /** And with registers that hold no numbers it is a number only there. */
  lemma {:induction false} SortExact(e: Expr, t: set<nat>, nvars: nat)
    requires Plain(e) && Scoped(e, nvars) && nvars <= MAXREGS
    ensures IsNumber(Known(e, TrueIn(t))) ==> SortOf(e, t).Number?
    decreases e
  {
    match e
    case EAnd(a, b) => SortExact(b, t, nvars); BothSorts(a, b, t, nvars);
    case EOr(a, b) => SortExact(a, t, nvars); SortExact(b, t, nvars); BothSorts(a, b, t, nvars);
    case _ =>
  }

  lemma BothSorts(a: Expr, b: Expr, t: set<nat>, nvars: nat)
    requires Plain(a) && Scoped(a, nvars) && nvars <= MAXREGS
    ensures Eval(Telling(), a, TrueIn(t)).Some?
    ensures SortOf(a, t).FalseOther? <==> !Truthy(Known(a, TrueIn(t)))
  {
    ScopedLocals(a, nvars);
    SortTells(a, t, TrueIn(t));
    PlainValue(Telling(), Telling(), a, TrueIn(t));
  }

  lemma ScopedLocals(e: Expr, nvars: nat)
    requires Scoped(e, nvars)
    ensures forall x :: x in Locals(e) ==> x < nvars
  {
  }

  /** The text tells exactly whether registers exist for which the value is no number. */
  lemma OtherExactly(e: Expr, nvars: nat)
    requires Plain(e) && Scoped(e, nvars) && nvars <= MAXREGS
    ensures MayBeOther(e) <==> exists s: Regs :: !IsNumber(Known(e, s))
  {
    hide Known, SortOf;
    forall s: Regs | !IsNumber(Known(e, s)) ensures MayBeOther(e) {
      var t := set x | x in Locals(e) && Truthy(Get(s, x));
      SortTells(e, t, s);
      assert t <= Locals(e) && !SortOf(e, t).Number?;
    }
    forall t: set<nat> | t <= Locals(e) && !SortOf(e, t).Number? ensures !IsNumber(Known(e, TrueIn(t))) {
      SortExact(e, t, nvars);
    }
  }

  /** Without comparisons inside, the comparison is right everywhere if and only if its operands do not leak or its
      right operand is always a number, all of which the text tells. */
  lemma PlainExact(nvars: nat, op: RelOp, l: Expr, r: Expr, g': Gen)
    requires CodeFor(nvars, ERel(op, l, r), g') && Plain(l) && Plain(r)
    ensures RightEverywhere(nvars, ERel(op, l, r), g') <==> !(Leaky(op, l, r) && MayBeOther(r))
  {
    assert nvars <= MAXREGS && Scoped(r, nvars);
    hide RightEverywhere, CodeFor, Leaky, LeakFree, Eval, MayBeOther;
    OtherExactly(r, nvars);
    PlainValue(Telling(), Telling(), l, ALL_NIL);
    PlainValue(Telling(), Telling(), r, ALL_NIL);
    EverywhereExact(nvars, op, l, r, g');
    forall w: World, s: Regs | Leaky(op, l, r) && IsNumber(Known(r, s)) ensures !Tells(w, op, l, r, s) {
      PlainValue(Telling(), w, r, s);
    }
    forall s: Regs | Leaky(op, l, r) && !IsNumber(Known(r, s)) ensures Tells(Telling(), op, l, r, s) {
      PlainValue(Telling(), Telling(), l, s);
      PlainValue(Telling(), Telling(), r, s);
      assert Leaky(op, l, r) ==> op.Lt? || op.Le? by { OnlyOrder(op, l, r); }
    }
  }

  const ALL_NIL: Regs := seq(MAXREGS, _ => Nil)

  lemma OnlyOrder(op: RelOp, l: Expr, r: Expr)
    requires Leaky(op, l, r)
    ensures op.Lt? || op.Le?
  {
  }

  /** A local variable in front of `and` or `or` can be the value, so that there only the guard matters. */
  lemma GuardExact(nvars: nat, op: RelOp, l: Expr, x: nat, b: Expr, conj: bool, g': Gen)
    requires Plain(l) && Plain(b)
    requires CodeFor(nvars, ERel(op, l, if conj then EAnd(ELocal(x), b) else EOr(ELocal(x), b)), g')
    ensures var r := if conj then EAnd(ELocal(x), b) else EOr(ELocal(x), b);
            RightEverywhere(nvars, ERel(op, l, r), g') <==> !Leaky(op, l, r)
  {
    hide RightEverywhere, Compile, Exp2NextReg, Leaky, MayBeOther;
    var r := if conj then EAnd(ELocal(x), b) else EOr(ELocal(x), b);
    PlainExact(nvars, op, l, r, g');
    assert Scoped(r, nvars) && Scoped(ELocal(x), nvars);
    var s: Regs := ALL_NIL[x := if conj then Nil else True];
    assert Eval(Telling(), ELocal(x), s) == Some(if conj then Nil else True);
    assert !IsNumber(Known(r, s));
    OtherExactly(r, nvars);
  }

  // ----- instances -----

  lemma CodeExists(nvars: nat, e: Expr)
    requires RoomFor(Empty(nvars), e, 1) && nvars + 1 < MAXREGS
    ensures exists g' :: CodeFor(nvars, e, g')
  {
    hide Compile, Exp2NextReg;
    SmallCompiles(Empty(nvars), e);
    var (g1, d) := Compile(Empty(nvars), e).value;
    assert CodeFor(nvars, e, Exp2NextReg(g1, d).value.0);
  }

  /** `1 < (x or 5.0)`, wrong; and `1 < ((x and 3) or 5.0)`, which leaks as well and is right all the same. */
  const WRONG := ERel(Lt, EInt(1), EOr(ELocal(0), EFlt(5.0)))
  const RIGHT := ERel(Lt, EInt(1), EOr(EAnd(ELocal(0), EInt(3)), EFlt(5.0)))

  /** With an object in the register of `x`, whose `__lt` tells 1 from 1.0, the comparison is false and its code says
      true. */
  lemma LeakyRun()
    ensures exists g' ::
              CodeFor(1, WRONG, g') && !Computes(Env(Telling(), g'.k, 0, ALL_NIL[0 := Ref(0)]), Empty(1), WRONG, g', 1)
    ensures Eval(Telling(), WRONG, ALL_NIL[0 := Ref(0)]) == Some(False)
  {
    hide Compile, Exp2NextReg, Computes;
    var s: Regs := ALL_NIL[0 := Ref(0)];
    CodeExists(1, WRONG);
    var g' :| CodeFor(1, WRONG, g');
    StartEmpty(Telling(), g'.k, s, 1);
    FoundIsValue(Telling(), WRONG.l, s);
    FoundIsValue(Telling(), WRONG.r, s);
    assert Eval(Telling(), WRONG.r, s) == Some(Ref(0));
    assert Tells(Telling(), Lt, WRONG.l, WRONG.r, s);
    var (g1, d) := Compile(Empty(1), WRONG).value;
    ComparisonExact(Env(Telling(), g'.k, 0, s), Empty(1), Lt, WRONG.l, WRONG.r, g1, d, g', Exp2NextReg(g1, d).value.1);
  }

  /** Comparisons that only look like it: the integer is too large for an immediate, the left operand has jumps
      itself, and no jump is left on the right. */
  lemma BesideTheGuard(x: nat, y: nat)
    ensures LeakFree(ERel(Lt, EInt(1000), EAnd(ELocal(x), EFlt(5.0))))
    ensures LeakFree(ERel(Lt, EAnd(ELocal(y), EInt(1)), EAnd(ELocal(x), EFlt(5.0))))
    ensures LeakFree(ERel(Lt, EInt(1), EAnd(EFlt(2.0), EFlt(5.0))))
  {
    assert !FitsC(1000);
    assert Shape(EAnd(ELocal(y), EInt(1))).f;
    assert Shape(EAnd(EFlt(2.0), EFlt(5.0))) == ExpDesc(VKFlt(5.0), false, false);
  }

  lemma EitherNumber(w: World, x: Expr, a: Expr, b: Expr, s: Regs)
    requires x.ELocal? && a.EInt? && b.EFlt?
    ensures var v := Eval(w, EOr(EAnd(x, a), b), s); v.Some? && IsNumber(v.value)
  {
    assert Eval(w, EAnd(x, a), s).Some? && Eval(w, a, s) == Some(Int(a.i));
  }

  /** The guard alone does not decide: both sides of this comparison leak, and no run of it goes wrong. */
  lemma LeakyButRight()
    ensures Leaky(RIGHT.op, RIGHT.l, RIGHT.r)
    ensures exists g' :: CodeFor(1, RIGHT, g') && RightEverywhere(1, RIGHT, g')
  {
    hide Compile, Exp2NextReg, RightEverywhere, MayBeOther;
    CodeExists(1, RIGHT);
    OtherExactly(RIGHT.r, 1);
    var g' :| CodeFor(1, RIGHT, g');
    PlainExact(1, Lt, RIGHT.l, RIGHT.r, g');
    forall s: Regs ensures IsNumber(Known(RIGHT.r, s)) {
      EitherNumber(Telling(), ELocal(0), EInt(3), EFlt(5.0), s);
    }
  }
}
